/** The tag store: each tagged object has one record listing its tags, and
    each tag has a counter of how many objects carry it. `Taggable` records
    and `Tag` counters are two maps of one immutable store; every class
    method of the source is a transition from one store to the next. */
module Taggable {
  import opened Wrappers
  import opened Text

  type Tag = String

  /** The datastore key of a tagged object. */
  type ObjectId = int

  /** `tagged`: the `Taggable` records (object -> its tag list);
      `counts`: the stored `Tag` entities (name -> count). */
  datatype Store = Store(tagged: map<ObjectId, seq<Tag>>, counts: map<Tag, int>)

  /** The result of a `Taggable` class method: the new store and the record
      it returns (`None` when the object had no record). */
  datatype Change = Change(store: Store, record: Option<seq<Tag>>)

  ghost predicate Distinct<T>(xs: seq<T>) {
    forall i, j :: 0 <= i < j < |xs| ==> xs[i] != xs[j]
  }

  function Max(a: int, b: int): int {
    if a >= b then a else b
  }

  /* ---------------------------------------------------------------------
     cleanup
     --------------------------------------------------------------------- */

  /** A cleaned tag: non-empty and without surrounding whitespace. */
  predicate IsClean(t: String) {
    t != [] && Strip(t) == t
  }

  /** `cleanup(tags)`: the stripped tags, without empty strings and without
      duplicates (see `CleanupDistinct` and `CleanupMembers`). The source goes
      through a Python set, so its order is unspecified; this model keeps
      first occurrences in input order. */
  function Cleanup(tags: seq<String>): (r: seq<Tag>)
    ensures forall k :: 0 <= k < |r| ==> IsClean(r[k])
  {
    if |tags| == 0 then []
    else
      var rest := Cleanup(tags[..|tags| - 1]);
      var t := Strip(tags[|tags| - 1]);
      if t == [] || t in rest then rest else rest + [t]
  }

  /** A tag typed after a no-break space is stored without it. */
  lemma CleanupUnicodeSpace()
    ensures Cleanup(["\U{00A0}django"]) == ["django"]
  {
    var x := "\U{00A0}django";
    assert x[1..] == "django";
    assert Strip(x) == "django";
    var none: seq<String> := [];
    assert [x][..0] == none;
  }

  /** Every tag with its surrounding whitespace removed, position by position. */
  function StripAll(tags: seq<String>): (r: seq<String>)
    ensures |r| == |tags|
    ensures forall k :: 0 <= k < |tags| ==> r[k] == Strip(tags[k])
  {
    seq(|tags|, k requires 0 <= k < |tags| => Strip(tags[k]))
  }

  lemma StripAllSnoc(tags: seq<String>)
    requires |tags| > 0
    ensures StripAll(tags) == StripAll(tags[..|tags| - 1]) + [Strip(tags[|tags| - 1])]
  {
  }

  /** `cleanup` never returns a tag twice. */
  lemma {:induction false} CleanupDistinct(tags: seq<String>)
    ensures Distinct(Cleanup(tags))
  {
    if |tags| > 0 {
      CleanupDistinct(tags[..|tags| - 1]);
    }
  }

  /** `cleanup` returns exactly the non-empty stripped inputs. */
  lemma {:induction false} CleanupMembers(tags: seq<String>)
    ensures forall t :: t in Cleanup(tags) <==> t != [] && t in StripAll(tags)
  {
    if |tags| > 0 {
      var prefix := tags[..|tags| - 1];
      CleanupMembers(prefix);
      var rest := Cleanup(prefix);
      var t := Strip(tags[|tags| - 1]);
      assert Cleanup(tags) == if t == [] || t in rest then rest else rest + [t];
      StripAllSnoc(tags);
      forall x
        ensures x in Cleanup(tags) <==> x != [] && x in StripAll(tags)
      {
        assert x in StripAll(tags) <==> x in StripAll(prefix) || x == t;
      }
    }
  }

  /** Cleaning an already clean list keeps the same tags, each once. In this
      model's first-occurrence order the list is even unchanged. */
  lemma {:induction false} CleanupKeepsClean(xs: seq<Tag>)
    requires Distinct(xs)
    requires forall k :: 0 <= k < |xs| ==> IsClean(xs[k])
    ensures multiset(Cleanup(xs)) == multiset(xs)
    ensures Cleanup(xs) == xs
  {
    if |xs| > 0 {
      var n := |xs| - 1;
      var prefix, last := xs[..n], xs[n];
      assert Distinct(prefix) by {
        forall i, j | 0 <= i < j < n ensures prefix[i] != prefix[j] {
          assert prefix[i] == xs[i] && prefix[j] == xs[j];
        }
      }
      CleanupKeepsClean(prefix);
      assert Strip(last) == last && last != [];
      assert last !in prefix by {
        forall i | 0 <= i < n ensures prefix[i] != last {
          assert prefix[i] == xs[i];
        }
      }
      assert xs == prefix + [last];
    }
  }

  /** `cleanup` is idempotent as a set: cleaning twice gives the same tags,
      as many of them. In this model's first-occurrence order it is
      idempotent as a list too. */
  lemma CleanupIdempotent(tags: seq<String>)
    ensures forall t :: t in Cleanup(Cleanup(tags)) <==> t in Cleanup(tags)
    ensures |Cleanup(Cleanup(tags))| == |Cleanup(tags)|
    ensures Cleanup(Cleanup(tags)) == Cleanup(tags)
  {
    CleanupDistinct(tags);
    CleanupKeepsClean(Cleanup(tags));
  }

  /* ---------------------------------------------------------------------
     Tag counters: Tag.add, Tag.remove, Tag.addset, Tag.removeset
     --------------------------------------------------------------------- */

  /** The count of a tag; a tag with no stored entity counts zero. */
  function CountOf(counts: map<Tag, int>, tag: Tag): int {
    if tag in counts then counts[tag] else 0
  }

  /** Every stored counter is positive. */
  ghost predicate Positive(counts: map<Tag, int>) {
    forall tag :: tag in counts ==> counts[tag] > 0
  }

  /** `Tag.add(tagname)`: a missing tag is created with count 1, an existing one counts one more. */
  function AddOne(counts: map<Tag, int>, tag: Tag): (r: map<Tag, int>)
    ensures tag in r && CountOf(r, tag) == CountOf(counts, tag) + 1
    ensures forall t :: t != tag ==> CountOf(r, t) == CountOf(counts, t)
    ensures r.Keys == counts.Keys + {tag}
    ensures Positive(counts) ==> Positive(r)
  {
    if tag !in counts then counts[tag := 1]
    else counts[tag := counts[tag] + 1]
  }

  /** `Tag.remove(tagname)`: an existing tag counts one less and is deleted
      once its count is no longer positive; a missing tag is left alone. */
  function RemoveOne(counts: map<Tag, int>, tag: Tag): (r: map<Tag, int>)
    ensures CountOf(r, tag) == Max(CountOf(counts, tag) - 1, 0)
    ensures tag in r ==> r[tag] > 0
    ensures forall t :: t != tag ==> CountOf(r, t) == CountOf(counts, t)
    ensures r.Keys <= counts.Keys
    ensures Positive(counts) ==> Positive(r)
  {
    if tag !in counts then counts
    else
      var c := counts[tag] - 1;
      if c > 0 then counts[tag := c] else counts - {tag}
  }

  /** `Tag.addset(tags)`: every occurrence of a tag adds one. */
  function AddSet(counts: map<Tag, int>, tags: seq<Tag>): (r: map<Tag, int>)
    ensures forall t :: CountOf(r, t) == CountOf(counts, t) + multiset(tags)[t]
    ensures Positive(counts) ==> Positive(r)
    decreases |tags|
  {
    if |tags| == 0 then counts
    else
      assert tags == [tags[0]] + tags[1..];
      AddSet(AddOne(counts, tags[0]), tags[1..])
  }

  /** `Tag.removeset(tags)`: every occurrence of a tag removes one, never below zero. */
  function RemoveSet(counts: map<Tag, int>, tags: seq<Tag>): (r: map<Tag, int>)
    ensures forall t :: t !in multiset(tags) ==> CountOf(r, t) == CountOf(counts, t)
    ensures Positive(counts) ==> Positive(r)
    decreases |tags|
  {
    if |tags| == 0 then counts
    else
      assert tags == [tags[0]] + tags[1..];
      RemoveSet(RemoveOne(counts, tags[0]), tags[1..])
  }

  /** The counter of a tag listed `m` times drops by `m`, but not below zero. */
  lemma {:induction false} RemoveSetCount(counts: map<Tag, int>, tags: seq<Tag>, t: Tag)
    requires t in multiset(tags)
    ensures CountOf(RemoveSet(counts, tags), t) == Max(CountOf(counts, t) - multiset(tags)[t], 0)
    decreases |tags|
  {
    var rest := tags[1..];
    assert tags == [tags[0]] + rest;
    var mid := RemoveOne(counts, tags[0]);
    if t in multiset(rest) {
      RemoveSetCount(mid, rest, t);
    }
  }

  /* ---------------------------------------------------------------------
     Taggable records
     --------------------------------------------------------------------- */

  /** A tag list together with the counters, as the loops of `add_tags` and
      `remove_tags` carry them. */
  datatype Tagging = Tagging(tags: seq<Tag>, counts: map<Tag, int>)

  /** The loop of `add_tags` on an existing record: each tag not yet in the
      list is appended and counted once (what is appended is stated by
      `AppendNewSuffix`). */
  function AppendNew(list: seq<Tag>, counts: map<Tag, int>, tags: seq<Tag>): (r: Tagging)
    ensures |r.tags| >= |list| && r.tags[..|list|] == list
    ensures forall t :: t in r.tags <==> t in list || t in tags
    ensures Distinct(list) ==> Distinct(r.tags)
    ensures forall t :: CountOf(r.counts, t) == CountOf(counts, t) + (if t in tags && t !in list then 1 else 0)
    ensures Positive(counts) ==> Positive(r.counts)
    decreases |tags|
  {
    if |tags| == 0 then Tagging(list, counts)
    else
      var tag := tags[0];
      assert forall t :: t in tags <==> t == tag || t in tags[1..] by {
        assert tags == [tag] + tags[1..];
      }
      if tag !in list then
        var r := AppendNew(list + [tag], AddOne(counts, tag), tags[1..]);
        assert r.tags[..|list|] == (list + [tag])[..|list|];
        assert Distinct(list) ==> Distinct(list + [tag]) by {
          if Distinct(list) {
            DistinctSnoc(list, tag);
          }
        }
        r
      else AppendNew(list, counts, tags[1..])
  }

  /** Appending a new element keeps a list duplicate-free. */
  lemma DistinctSnoc(list: seq<Tag>, x: Tag)
    requires Distinct(list) && x !in list
    ensures Distinct(list + [x])
  {
    var l := list + [x];
    forall i, j | 0 <= i < j < |l|
      ensures l[i] != l[j]
    {
      assert l[i] == list[i];
      if j < |list| {
        assert l[j] == list[j];
      }
    }
  }

  /** The loop of `add_tags` appends only requested tags the list did not hold. */
  lemma {:induction false} AppendNewSuffix(list: seq<Tag>, counts: map<Tag, int>, tags: seq<Tag>, r: seq<Tag>)
    requires r == AppendNew(list, counts, tags).tags
    ensures forall k :: |list| <= k < |r| ==> r[k] in tags && r[k] !in list
    decreases |tags|
  {
    if |tags| > 0 {
      var tag := tags[0];
      assert tags == [tag] + tags[1..];
      if tag !in list {
        var list' := list + [tag];
        assert r == AppendNew(list', AddOne(counts, tag), tags[1..]).tags;
        AppendNewSuffix(list', AddOne(counts, tag), tags[1..], r);
        assert r[..|list'|] == list';
        forall k | |list| <= k < |r|
          ensures r[k] in tags && r[k] !in list
        {
          if k == |list| {
            assert r[k] == list'[k] == tag;
          } else {
            assert r[k] in tags[1..] && r[k] !in list';
          }
        }
      } else {
        assert r == AppendNew(list, counts, tags[1..]).tags;
        AppendNewSuffix(list, counts, tags[1..], r);
        forall k | |list| <= k < |r|
          ensures r[k] in tags && r[k] !in list
        {
          assert r[k] in tags[1..];
        }
      }
    }
  }

  /** Python's `list.remove(x)`: drop the first occurrence. */
  function RemoveFirst(list: seq<Tag>, x: Tag): (r: seq<Tag>)
    requires x in list
    ensures |r| == |list| - 1
    ensures multiset(r) == multiset(list) - multiset{x}
  {
    if list[0] == x then
      assert list == [x] + list[1..];
      list[1..]
    else
      assert list == [list[0]] + list[1..];
      [list[0]] + RemoveFirst(list[1..], x)
  }

  /** The elements of `list` that are not in `drop`, in order. */
  function Without(list: seq<Tag>, drop: seq<Tag>): (r: seq<Tag>)
    ensures forall t :: t in r <==> t in list && t !in drop
  {
    if |list| == 0 then []
    else if list[0] in drop then Without(list[1..], drop)
    else [list[0]] + Without(list[1..], drop)
  }

  /** The loop of `remove_tags`: each tag present in the list is removed and
      its counter decremented; tags not present are skipped. */
  function RemoveEach(list: seq<Tag>, counts: map<Tag, int>, tags: seq<Tag>): Tagging
    decreases |tags|
  {
    if |tags| == 0 then Tagging(list, counts)
    else if tags[0] in list then
      RemoveEach(RemoveFirst(list, tags[0]), RemoveOne(counts, tags[0]), tags[1..])
    else RemoveEach(list, counts, tags[1..])
  }

  /** `Taggable.add_tags(obj, tags)`. */
  function AddTags(st: Store, obj: ObjectId, tags: seq<String>): (r: Change)
    ensures r.record.Some? && obj in r.store.tagged && r.store.tagged[obj] == r.record.value
    ensures obj !in st.tagged ==> r.record.value == Cleanup(tags)
    ensures obj in st.tagged ==> var prior := st.tagged[obj];
      |r.record.value| >= |prior| && r.record.value[..|prior|] == prior
    ensures obj in st.tagged ==> forall t :: t in r.record.value <==> t in st.tagged[obj] || t in Cleanup(tags)
    ensures r.store.tagged.Keys == st.tagged.Keys + {obj}
    ensures forall o :: o in st.tagged && o != obj ==> r.store.tagged[o] == st.tagged[o]
  {
    var cleaned := Cleanup(tags);
    if obj !in st.tagged then
      var tagged := st.tagged[obj := cleaned];
      Change(Store(tagged, AddSet(st.counts, cleaned)), Some(cleaned))
    else
      var step := AppendNew(st.tagged[obj], st.counts, cleaned);
      Change(Store(st.tagged[obj := step.tags], step.counts), Some(step.tags))
  }

  /** On a tagged object, `add_tags` keeps the record's tags in order and
      appends only cleaned tags the record did not hold. */
  lemma AddTagsAppendsNew(st: Store, obj: ObjectId, tags: seq<String>)
    requires obj in st.tagged
    ensures var prior, r := st.tagged[obj], AddTags(st, obj, tags).record.value;
      |r| >= |prior| && r[..|prior|] == prior &&
      forall k :: |prior| <= k < |r| ==> r[k] in Cleanup(tags) && r[k] !in prior
  {
    var cleaned := Cleanup(tags);
    var prior := st.tagged[obj];
    var r := AppendNew(prior, st.counts, cleaned).tags;
    assert AddTags(st, obj, tags).record.value == r;
    AppendNewSuffix(prior, st.counts, cleaned, r);
  }

  /** `Taggable.remove_tags(obj, tags)`. */
  function RemoveTags(st: Store, obj: ObjectId, tags: seq<String>): (r: Change)
    ensures obj !in st.tagged ==> r == Change(st, None)
    ensures obj in st.tagged ==> r.record.Some?
    ensures obj in st.tagged ==> (obj in r.store.tagged <==> r.record.value != [])
    ensures obj in r.store.tagged ==> r.store.tagged[obj] == r.record.value
    ensures r.store.tagged.Keys <= st.tagged.Keys
    ensures forall o :: o in st.tagged && o != obj ==> o in r.store.tagged && r.store.tagged[o] == st.tagged[o]
  {
    if obj !in st.tagged then Change(st, None)
    else
      var step := RemoveEach(st.tagged[obj], st.counts, Cleanup(tags));
      if |step.tags| == 0 then
        Change(Store(st.tagged - {obj}, step.counts), Some(step.tags))
      else
        Change(Store(st.tagged[obj := step.tags], step.counts), Some(step.tags))
  }

  /** `Taggable.clear_tags(obj)`. */
  function ClearTags(st: Store, obj: ObjectId): (r: Change)
    ensures obj !in st.tagged ==> r == Change(st, None)
    ensures obj in st.tagged ==> r.record == Some(st.tagged[obj])
    ensures r.store.tagged == st.tagged - {obj}
  {
    if obj !in st.tagged then Change(st, None)
    else
      var list := st.tagged[obj];
      Change(Store(st.tagged - {obj}, RemoveSet(st.counts, list)), Some(list))
  }

  /* ---------------------------------------------------------------------
     List facts behind `remove_tags`
     --------------------------------------------------------------------- */

  /** Filtering only looks at which of the list's elements are dropped. */
  lemma {:induction false} WithoutCongruent(list: seq<Tag>, d1: seq<Tag>, d2: seq<Tag>)
    requires forall x :: x in list ==> (x in d1 <==> x in d2)
    ensures Without(list, d1) == Without(list, d2)
  {
    if |list| > 0 {
      WithoutCongruent(list[1..], d1, d2);
    }
  }

  /** Filtering twice is filtering by both lists at once. */
  lemma {:induction false} WithoutTwice(list: seq<Tag>, a: seq<Tag>, b: seq<Tag>)
    ensures Without(Without(list, a), b) == Without(list, a + b)
  {
    if |list| > 0 {
      WithoutTwice(list[1..], a, b);
      if list[0] !in a {
        assert Without(list, a) == [list[0]] + Without(list[1..], a);
        assert Without(list, a)[1..] == Without(list[1..], a);
      }
    }
  }

  /** Filtering keeps a duplicate-free list duplicate-free. */
  lemma {:induction false} WithoutDistinct(list: seq<Tag>, drop: seq<Tag>)
    requires Distinct(list)
    ensures Distinct(Without(list, drop))
  {
    if |list| > 0 {
      WithoutDistinct(list[1..], drop);
    }
  }

  /** In a duplicate-free list, `list.remove(x)` is filtering out `x`. */
  lemma {:induction false} RemoveFirstIsWithout(list: seq<Tag>, x: Tag)
    requires Distinct(list) && x in list
    ensures RemoveFirst(list, x) == Without(list, [x])
  {
    if list[0] == x {
      WithoutCongruent(list[1..], [x], []);
      WithoutNothing(list[1..]);
    } else {
      RemoveFirstIsWithout(list[1..], x);
    }
  }

  lemma {:induction false} WithoutNothing(list: seq<Tag>)
    ensures Without(list, []) == list
  {
    if |list| > 0 {
      WithoutNothing(list[1..]);
    }
  }

  /** The loop of `remove_tags` on a duplicate-free list leaves exactly the
      tags that were not asked for, in their order, and decrements the
      counter of each tag it removed. */
  lemma {:induction false} RemoveEachEffect(list: seq<Tag>, counts: map<Tag, int>, tags: seq<Tag>)
    requires Distinct(list)
    ensures RemoveEach(list, counts, tags).tags == Without(list, tags)
    ensures forall t :: t in list && t in tags ==>
      CountOf(RemoveEach(list, counts, tags).counts, t) == Max(CountOf(counts, t) - 1, 0)
    ensures forall t :: !(t in list && t in tags) ==>
      CountOf(RemoveEach(list, counts, tags).counts, t) == CountOf(counts, t)
    ensures Positive(counts) ==> Positive(RemoveEach(list, counts, tags).counts)
    decreases |tags|
  {
    if |tags| == 0 {
      WithoutNothing(list);
    } else {
      var t0 := tags[0];
      assert tags == [t0] + tags[1..];
      if t0 in list {
        var list' := RemoveFirst(list, t0);
        RemoveFirstIsWithout(list, t0);
        WithoutDistinct(list, [t0]);
        RemoveEachEffect(list', RemoveOne(counts, t0), tags[1..]);
        WithoutTwice(list, [t0], tags[1..]);
      } else {
        RemoveEachEffect(list, counts, tags[1..]);
        WithoutCongruent(list, tags[1..], tags);
      }
    }
  }

  /** A duplicate-free list holds each element once. */
  lemma {:induction false} DistinctMultiset(xs: seq<Tag>, t: Tag)
    requires Distinct(xs)
    ensures multiset(xs)[t] == if t in xs then 1 else 0
  {
    if |xs| > 0 {
      assert xs == [xs[0]] + xs[1..];
      DistinctMultiset(xs[1..], t);
    }
  }

  /* ---------------------------------------------------------------------
     The counter invariant
     --------------------------------------------------------------------- */

  /** The objects whose record carries `tag`. */
  ghost function Holders(tagged: map<ObjectId, seq<Tag>>, tag: Tag): set<ObjectId> {
    set o | o in tagged && tag in tagged[o]
  }

  /** A consistent store: no record lists a tag twice, every stored counter is
      positive, and every tag's count is the number of objects carrying it
      (so a tag carried by nobody has no stored counter). */
  ghost predicate Consistent(st: Store) {
    && (forall o :: o in st.tagged ==> Distinct(st.tagged[o]))
    && Positive(st.counts)
    && (forall tag :: CountOf(st.counts, tag) == |Holders(st.tagged, tag)|)
  }

  /** One object's record contributes at most one holder of each tag. */
  lemma HoldersSplit(tagged: map<ObjectId, seq<Tag>>, obj: ObjectId, tag: Tag)
    ensures |Holders(tagged, tag)| ==
      |Holders(tagged - {obj}, tag)| + (if obj in tagged && tag in tagged[obj] then 1 else 0)
  {
    var rest := Holders(tagged - {obj}, tag);
    if obj in tagged && tag in tagged[obj] {
      assert Holders(tagged, tag) == rest + {obj};
    } else {
      assert Holders(tagged, tag) == rest;
    }
  }

  /** `add_tags` keeps the store consistent. */
  lemma AddTagsConsistent(st: Store, obj: ObjectId, tags: seq<String>)
    requires Consistent(st)
    ensures Consistent(AddTags(st, obj, tags).store)
  {
    if obj !in st.tagged {
      AddTagsNewConsistent(st, obj, tags);
    } else {
      AddTagsExistingConsistent(st, obj, tags);
    }
  }

  lemma AddTagsNewConsistent(st: Store, obj: ObjectId, tags: seq<String>)
    requires Consistent(st) && obj !in st.tagged
    ensures Consistent(AddTags(st, obj, tags).store)
  {
    var cleaned := Cleanup(tags);
    CleanupDistinct(tags);
    var st' := AddTags(st, obj, tags).store;
    assert st' == Store(st.tagged[obj := cleaned], AddSet(st.counts, cleaned));
    forall t
      ensures CountOf(st'.counts, t) == |Holders(st'.tagged, t)|
    {
      AddTagsNewCount(st, obj, cleaned, t);
    }
  }

  lemma AddTagsNewCount(st: Store, obj: ObjectId, cleaned: seq<Tag>, t: Tag)
    requires Consistent(st) && obj !in st.tagged && Distinct(cleaned)
    ensures CountOf(AddSet(st.counts, cleaned), t) == |Holders(st.tagged[obj := cleaned], t)|
  {
    var tagged' := st.tagged[obj := cleaned];
    assert tagged' - {obj} == st.tagged;
    DistinctMultiset(cleaned, t);
    HoldersSplit(tagged', obj, t);
  }

  lemma AddTagsExistingConsistent(st: Store, obj: ObjectId, tags: seq<String>)
    requires Consistent(st) && obj in st.tagged
    ensures Consistent(AddTags(st, obj, tags).store)
  {
    var cleaned := Cleanup(tags);
    var list := st.tagged[obj];
    var step := AppendNew(list, st.counts, cleaned);
    var st' := AddTags(st, obj, tags).store;
    assert st' == Store(st.tagged[obj := step.tags], step.counts);
    assert st'.tagged - {obj} == st.tagged - {obj};
    forall t
      ensures CountOf(st'.counts, t) == |Holders(st'.tagged, t)|
    {
      HoldersSplit(st.tagged, obj, t);
      HoldersSplit(st'.tagged, obj, t);
    }
  }

  /** `remove_tags` keeps the store consistent. */
  lemma RemoveTagsConsistent(st: Store, obj: ObjectId, tags: seq<String>)
    requires Consistent(st)
    ensures Consistent(RemoveTags(st, obj, tags).store)
  {
    if obj in st.tagged {
      var cleaned := Cleanup(tags);
      var list := st.tagged[obj];
      RemoveEachEffect(list, st.counts, cleaned);
      WithoutDistinct(list, cleaned);
      var st' := RemoveTags(st, obj, tags).store;
      assert st'.tagged - {obj} == st.tagged - {obj};
      forall t
        ensures CountOf(st'.counts, t) == |Holders(st'.tagged, t)|
      {
        HoldersSplit(st.tagged, obj, t);
        HoldersSplit(st'.tagged, obj, t);
      }
    }
  }

  /** `clear_tags` keeps the store consistent. */
  lemma ClearTagsConsistent(st: Store, obj: ObjectId)
    requires Consistent(st)
    ensures Consistent(ClearTags(st, obj).store)
  {
    if obj in st.tagged {
      var st' := ClearTags(st, obj).store;
      forall t
        ensures CountOf(st'.counts, t) == |Holders(st'.tagged, t)|
      {
        DistinctMultiset(st.tagged[obj], t);
        HoldersSplit(st.tagged, obj, t);
        if t in multiset(st.tagged[obj]) {
          RemoveSetCount(st.counts, st.tagged[obj], t);
        }
      }
    }
  }

  /* ---------------------------------------------------------------------
     What each transition does to the counters
     --------------------------------------------------------------------- */

  /** `add_tags` adds one to the counter of each cleaned tag the object did
      not carry yet (a missing counter starts at 1), and leaves every other
      counter alone. */
  lemma AddTagsCounts(st: Store, obj: ObjectId, tags: seq<String>, t: Tag)
    ensures var carried := obj in st.tagged && t in st.tagged[obj];
      CountOf(AddTags(st, obj, tags).store.counts, t) ==
        CountOf(st.counts, t) + (if t in Cleanup(tags) && !carried then 1 else 0)
  {
    if obj !in st.tagged {
      CleanupDistinct(tags);
      DistinctMultiset(Cleanup(tags), t);
    }
  }

  /** `remove_tags` on a duplicate-free record keeps exactly the tags that
      were not asked for, in order, and decrements only the counters of tags
      the object actually carried; a counter that reaches zero is deleted. */
  lemma RemoveTagsCounts(st: Store, obj: ObjectId, tags: seq<String>, t: Tag)
    requires obj in st.tagged && Distinct(st.tagged[obj])
    ensures RemoveTags(st, obj, tags).record == Some(Without(st.tagged[obj], Cleanup(tags)))
    ensures var removed := t in st.tagged[obj] && t in Cleanup(tags);
      CountOf(RemoveTags(st, obj, tags).store.counts, t) ==
        if removed then Max(CountOf(st.counts, t) - 1, 0) else CountOf(st.counts, t)
  {
    RemoveEachEffect(st.tagged[obj], st.counts, Cleanup(tags));
  }

  /** `clear_tags` decrements the counter of every tag on the object's
      duplicate-free record and nothing else. */
  lemma ClearTagsCounts(st: Store, obj: ObjectId, t: Tag)
    requires obj in st.tagged && Distinct(st.tagged[obj])
    ensures CountOf(ClearTags(st, obj).store.counts, t) ==
      if t in st.tagged[obj] then Max(CountOf(st.counts, t) - 1, 0) else CountOf(st.counts, t)
  {
    DistinctMultiset(st.tagged[obj], t);
    if t in st.tagged[obj] {
      RemoveSetCount(st.counts, st.tagged[obj], t);
    }
  }
}
