/** The Digg-style page window of the `paginator` inclusion tag: which page
    numbers to show around the current page, and which first/last page links
    to show outside that window. */
module Paginator {
  import opened Wrappers

  const LeadingPageRangeDisplayed: int := 10
  const TrailingPageRangeDisplayed: int := 10
  const LeadingPageRange: int := 8
  const TrailingPageRange: int := 8
  const NumPagesOutsideRange: int := 2
  const AdjacentPages: int := 4

  /** The template variables the tag computes itself (the ones copied
      verbatim from Django's page object are not modelled). */
  datatype Window = Window(
    page: int,
    pages: int,
    pageNumbers: seq<int>,
    inLeadingRange: bool,
    inTrailingRange: bool,
    pagesOutsideLeadingRange: seq<int>,
    pagesOutsideTrailingRange: seq<int>)

  /** Django's `Page.has_other_pages()`: there is a previous or a next page. */
  predicate HasOtherPages(page: int, pages: int) {
    page > 1 || page < pages
  }

  /** Python's `range(lo, hi)`. */
  function Range(lo: int, hi: int): (r: seq<int>)
    ensures |r| == if hi > lo then hi - lo else 0
    ensures forall k :: 0 <= k < |r| ==> r[k] == lo + k
    decreases hi - lo
  {
    if hi <= lo then [] else [lo] + Range(lo + 1, hi)
  }

  /** Python's `range(lo, hi, -1)`. */
  function RangeDown(lo: int, hi: int): (r: seq<int>)
    ensures |r| == if lo > hi then lo - hi else 0
    ensures forall k :: 0 <= k < |r| ==> r[k] == lo - k
    decreases lo - hi
  {
    if lo <= hi then [] else [lo] + RangeDown(lo - 1, hi)
  }

  /** `[n + d for n in xs]`. */
  function Shift(xs: seq<int>, d: int): seq<int> {
    seq(|xs|, k requires 0 <= k < |xs| => xs[k] + d)
  }

  /** The page numbers of `xs` that lie between 1 and `pages`, in their order. */
  function KeepValid(xs: seq<int>, pages: int): (r: seq<int>)
    ensures forall k :: 0 <= k < |r| ==> 0 < r[k] <= pages
    ensures forall n :: n in r <==> n in xs && 0 < n <= pages
  {
    if |xs| == 0 then []
    else if 0 < xs[0] <= pages then [xs[0]] + KeepValid(xs[1..], pages)
    else KeepValid(xs[1..], pages)
  }

  ghost predicate StrictlyAscending(xs: seq<int>) {
    forall i, j :: 0 <= i < j < |xs| ==> xs[i] < xs[j]
  }

  /** `paginator(context)`: `None` unless the page has other pages; otherwise
      the window of one of four disjoint cases, tested in order. */
  function Paginate(page: int, pages: int): (r: Option<Window>)
    ensures r.Some? <==> HasOtherPages(page, pages)
    ensures r.Some? ==> r.value.page == page && r.value.pages == pages
    ensures r.Some? ==> StrictlyAscending(r.value.pageNumbers)
    ensures r.Some? ==> forall k :: 0 <= k < |r.value.pageNumbers| ==> 1 <= r.value.pageNumbers[k] <= pages
  {
    if !HasOtherPages(page, pages) then None
    else
      var outsideLeading := Shift(RangeDown(0, -NumPagesOutsideRange), pages);
      var outsideTrailing := Shift(Range(0, NumPagesOutsideRange), 1);
      var w :=
        if pages <= LeadingPageRangeDisplayed then
          Window(page, pages, KeepValid(Range(1, pages + 1), pages), true, true, [], [])
        else if page <= LeadingPageRange then
          Window(page, pages, KeepValid(Range(1, LeadingPageRangeDisplayed + 1), pages),
                 true, false, outsideLeading, [])
        else if page > pages - TrailingPageRange then
          Window(page, pages, KeepValid(Range(pages - TrailingPageRangeDisplayed + 1, pages + 1), pages),
                 false, true, [], outsideTrailing)
        else
          Window(page, pages, KeepValid(Range(page - AdjacentPages, page + AdjacentPages + 1), pages),
                 false, false, outsideLeading, outsideTrailing);
      RangeAscending(w.pageNumbers, pages);
      Some(w)
  }

  /** Filtering an ascending range keeps it ascending. */
  lemma RangeAscending(ns: seq<int>, pages: int)
    requires exists lo, hi :: ns == KeepValid(Range(lo, hi), pages)
    ensures StrictlyAscending(ns)
  {
    var lo, hi :| ns == KeepValid(Range(lo, hi), pages);
    KeepValidAscending(Range(lo, hi), pages);
  }

  /** Keeping only the valid page numbers of an ascending list keeps it ascending. */
  lemma {:induction false} KeepValidAscending(xs: seq<int>, pages: int)
    requires StrictlyAscending(xs)
    ensures StrictlyAscending(KeepValid(xs, pages))
  {
    if |xs| > 0 {
      assert StrictlyAscending(xs[1..]);
      KeepValidAscending(xs[1..], pages);
      var rest := KeepValid(xs[1..], pages);
      forall k | 0 <= k < |rest|
        ensures xs[0] < rest[k]
      {
        assert rest[k] in xs[1..];
      }
    }
  }

  /** Keeping the valid page numbers of a list that holds only valid ones changes nothing. */
  lemma {:induction false} KeepValidAll(xs: seq<int>, pages: int)
    requires forall k :: 0 <= k < |xs| ==> 0 < xs[k] <= pages
    ensures KeepValid(xs, pages) == xs
  {
    if |xs| > 0 {
      KeepValidAll(xs[1..], pages);
      assert [xs[0]] + xs[1..] == xs;
    }
  }

  /** At most ten pages: all of them are shown, both range flags are set and
      no outside links are shown. */
  lemma SmallWindow(page: int, pages: int)
    requires HasOtherPages(page, pages) && pages <= LeadingPageRangeDisplayed
    ensures var w := Paginate(page, pages).value;
      && |w.pageNumbers| == (if pages > 0 then pages else 0)
      && (forall k :: 0 <= k < |w.pageNumbers| ==> w.pageNumbers[k] == k + 1)
      && w.inLeadingRange && w.inTrailingRange
      && w.pagesOutsideLeadingRange == [] && w.pagesOutsideTrailingRange == []
  {
    KeepValidAll(Range(1, pages + 1), pages);
  }

  /** Many pages and the current one among the first eight: pages 1..10 are
      shown, then links to the last two pages (the last first). This case is
      tested before the trailing one, so it also wins when both apply. */
  lemma LeadingWindow(page: int, pages: int)
    requires pages > LeadingPageRangeDisplayed && page <= LeadingPageRange
    ensures Paginate(page, pages).Some?
    ensures var w := Paginate(page, pages).value;
      && |w.pageNumbers| == 10
      && (forall k :: 0 <= k < 10 ==> w.pageNumbers[k] == k + 1)
      && w.inLeadingRange && !w.inTrailingRange
      && w.pagesOutsideLeadingRange == [pages, pages - 1]
      && w.pagesOutsideTrailingRange == []
  {
    KeepValidAll(Range(1, LeadingPageRangeDisplayed + 1), pages);
  }

  /** Many pages and the current one among the last eight (but not the
      first eight): the last ten pages are shown, then links to pages 1 and 2. */
  lemma TrailingWindow(page: int, pages: int)
    requires pages > LeadingPageRangeDisplayed && page > LeadingPageRange
    requires page > pages - TrailingPageRange
    ensures Paginate(page, pages).Some?
    ensures var w := Paginate(page, pages).value;
      && |w.pageNumbers| == 10
      && (forall k :: 0 <= k < 10 ==> w.pageNumbers[k] == pages - 9 + k)
      && !w.inLeadingRange && w.inTrailingRange
      && w.pagesOutsideLeadingRange == []
      && w.pagesOutsideTrailingRange == [1, 2]
  {
    KeepValidAll(Range(pages - TrailingPageRangeDisplayed + 1, pages + 1), pages);
  }

  /** Many pages and the current one in the middle: exactly nine pages
      centred on the current one, and outside links on both sides. */
  lemma MiddleWindow(page: int, pages: int)
    requires pages > LeadingPageRangeDisplayed
    requires LeadingPageRange < page <= pages - TrailingPageRange
    ensures Paginate(page, pages).Some?
    ensures var w := Paginate(page, pages).value;
      && |w.pageNumbers| == 9
      && (forall k :: 0 <= k < 9 ==> w.pageNumbers[k] == page - 4 + k)
      && w.pageNumbers[4] == page
      && !w.inLeadingRange && !w.inTrailingRange
      && w.pagesOutsideLeadingRange == [pages, pages - 1]
      && w.pagesOutsideTrailingRange == [1, 2]
  {
    KeepValidAll(Range(page - AdjacentPages, page + AdjacentPages + 1), pages);
  }
}
