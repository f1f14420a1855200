/** The `page` request parameter, as both the `makeobjectlist` tag and the
    generic list view read it: an integer, or `last`, checked against the
    paginator. The paginator is abstract: it has `numPages >= 1` pages and
    accepts exactly the numbers `1..numPages` (Django's paginator with an
    empty first page allowed). */
module PageParam {
  import opened Wrappers
  import opened Text

  /** `paginator.page(n)` succeeds exactly for these numbers. */
  predicate ValidPage(n: int, numPages: int) {
    1 <= n <= numPages
  }

  /** The number asked for: `int(page)`, else `num_pages` for `last`, else 1.
      A missing parameter defaults to the integer 1. */
  function PageNumber(raw: Option<String>, numPages: int): (n: int)
    ensures raw.None? ==> n == 1
    ensures raw.Some? && ParseInt(raw.value).Some? ==> n == ParseInt(raw.value).value
  {
    match raw
    case None => 1
    case Some(s) =>
      match ParseInt(s)
      case Some(v) => v
      case None => if s == "last" then numPages else 1
  }

  /** The page shown: the number asked for if the paginator accepts it, else page 1. */
  function ResolvePage(raw: Option<String>, numPages: int): (p: int)
    requires numPages >= 1
    ensures ValidPage(p, numPages)
    ensures ValidPage(PageNumber(raw, numPages), numPages) ==> p == PageNumber(raw, numPages)
    ensures !ValidPage(PageNumber(raw, numPages), numPages) ==> p == 1
  {
    var n := PageNumber(raw, numPages);
    if ValidPage(n, numPages) then n else 1
  }

  /** `last` is not an integer, so it selects the last page. */
  lemma LastSelectsLastPage(numPages: int)
    requires numPages >= 1
    ensures ResolvePage(Some("last"), numPages) == numPages
  {
    var s := "last";
    assert forall i :: 0 <= i < |s| ==> !IsDigit(s[i]) by {
      assert s[0] == 'l' && s[1] == 'a' && s[2] == 's' && s[3] == 't';
    }
    ParseIntNeedsDigit(s);
  }

  /** A missing parameter shows page 1. */
  lemma MissingSelectsFirstPage(numPages: int)
    requires numPages >= 1
    ensures ResolvePage(None, numPages) == 1
  {
  }

  /** Every page is reachable: the decimal text of a valid page number selects that page. */
  lemma DecimalSelectsPage(n: nat, numPages: int)
    requires ValidPage(n, numPages)
    ensures ResolvePage(Some(Decimal(n)), numPages) == n
  {
    ParseDecimal(n);
  }

  /** A parameter with no digit at all, other than `last`, shows page 1. */
  lemma NonNumericSelectsFirstPage(s: String, numPages: int)
    requires numPages >= 1
    requires s != "last"
    requires forall i :: 0 <= i < |s| ==> !IsDigit(s[i])
    ensures ResolvePage(Some(s), numPages) == 1
  {
    ParseIntNeedsDigit(s);
  }

  /** The page differs from 1 only when the parameter names it: as an
      integer in range, or as `last` with more than one page. */
  lemma ResolvePageCases(raw: Option<String>, numPages: int)
    requires numPages >= 1
    ensures ResolvePage(raw, numPages) != 1 <==>
      raw.Some? && ValidPage(PageNumber(raw, numPages), numPages) && PageNumber(raw, numPages) != 1 &&
      (ParseInt(raw.value).Some? || (raw.value == "last" && numPages > 1))
  {
  }
}
