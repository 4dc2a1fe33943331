/** A stable sort, as sort.SliceStable provides: an element is inserted before its equals, and
    earlier elements are inserted last. */
module Sorting {

  function InsertStable<T>(x: T, s: seq<T>, less: (T, T) -> bool): (r: seq<T>)
    ensures multiset(r) == multiset{x} + multiset(s)
    ensures |r| == |s| + 1
  {
    if s == [] || !less(s[0], x) then
      [x] + s
    else
      assert s == [s[0]] + s[1..];
      [s[0]] + InsertStable(x, s[1..], less)
  }

  function SortStable<T>(s: seq<T>, less: (T, T) -> bool): (r: seq<T>)
    ensures multiset(r) == multiset(s) && |r| == |s|
  {
    if s == [] then []
    else
      assert s == [s[0]] + s[1..];
      InsertStable(s[0], SortStable(s[1..], less), less)
  }

  lemma SortMembers<T>(s: seq<T>, less: (T, T) -> bool, x: T)
    ensures x in SortStable(s, less) <==> x in s
  {
    assert x in multiset(SortStable(s, less)) <==> x in multiset(s);
  }

  /** A ranking in which "neither before the other" is a tie. */
  ghost predicate Ranking<T(!new)>(less: (T, T) -> bool) {
    && (forall a, b :: less(a, b) ==> !less(b, a))
    && (forall a, b, c :: less(a, c) ==> less(a, b) || less(b, c))
  }

  ghost predicate Sorted<T>(s: seq<T>, less: (T, T) -> bool) {
    forall i, j :: 0 <= i < j < |s| ==> !less(s[j], s[i])
  }

  lemma {:induction false} InsertSorted<T(!new)>(x: T, s: seq<T>, less: (T, T) -> bool)
    requires Ranking(less) && Sorted(s, less)
    ensures Sorted(InsertStable(x, s, less), less)
  {
    var r := InsertStable(x, s, less);
    if s == [] || !less(s[0], x) {
      forall j | 1 <= j < |r| ensures !less(r[j], x) {
        if s != [] { assert !less(r[j], s[0]) && !less(s[0], x); }
      }
    } else {
      InsertSorted(x, s[1..], less);
      forall j | 1 <= j < |r| ensures !less(r[j], r[0]) {
        assert r[j] in multiset(InsertStable(x, s[1..], less));
        assert r[j] == x || r[j] in s[1..];
      }
    }
  }

  lemma {:induction false} SortSorted<T(!new)>(s: seq<T>, less: (T, T) -> bool)
    requires Ranking(less)
    ensures Sorted(SortStable(s, less), less)
  {
    if s != [] {
      SortSorted(s[1..], less);
      InsertSorted(s[0], SortStable(s[1..], less), less);
    }
  }

  predicate Tie<T>(a: T, b: T, less: (T, T) -> bool) { !less(a, b) && !less(b, a) }

  /** The elements tied with x, in order. */
  function TiedWith<T>(s: seq<T>, x: T, less: (T, T) -> bool): seq<T> {
    if s == [] then [] else (if Tie(s[0], x, less) then [s[0]] else []) + TiedWith(s[1..], x, less)
  }

  lemma {:induction false} InsertKeepsTies<T(!new)>(y: T, s: seq<T>, x: T, less: (T, T) -> bool)
    requires Ranking(less)
    ensures TiedWith(InsertStable(y, s, less), x, less) == TiedWith([y] + s, x, less)
  {
    assert ([y] + s)[1..] == s;
    if s != [] && less(s[0], y) {
      var tail := InsertStable(y, s[1..], less);
      InsertKeepsTies(y, s[1..], x, less);
      assert ([y] + s[1..])[1..] == s[1..];
      assert InsertStable(y, s, less)[1..] == tail;
      assert !(Tie(y, x, less) && Tie(s[0], x, less)) by {
        assert less(s[0], x) || less(x, y);
      }
    }
  }

  /** Sorting keeps tied elements in their original order. */
  lemma {:induction false} SortKeepsTies<T(!new)>(s: seq<T>, x: T, less: (T, T) -> bool)
    requires Ranking(less)
    ensures TiedWith(SortStable(s, less), x, less) == TiedWith(s, x, less)
  {
    if s != [] {
      SortKeepsTies(s[1..], x, less);
      InsertKeepsTies(s[0], SortStable(s[1..], less), x, less);
      assert ([s[0]] + SortStable(s[1..], less))[1..] == SortStable(s[1..], less);
    }
  }
}
