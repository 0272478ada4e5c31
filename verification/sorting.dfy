/**
 Ordering relations and a stable insertion sort parameterised by a strict
 comparator `less`, in the style of a C++ `Compare` object.

 `SortedBy(less, s)` is the guarantee a comparison sort gives: no element is
 strictly less than one that comes before it.
 */
module Sorting {

  ghost predicate Irreflexive<T(!new)>(less: (T, T) -> bool) {
    forall x :: !less(x, x)
  }

  ghost predicate Transitive<T(!new)>(less: (T, T) -> bool) {
    forall x, y, z :: less(x, y) && less(y, z) ==> less(x, z)
  }

  ghost predicate StrictPartialOrder<T(!new)>(less: (T, T) -> bool) {
    Irreflexive(less) && Transitive(less)
  }

  /** Not-less is transitive; together with a strict partial order this makes
      incomparability an equivalence, i.e. a strict weak order. */
  ghost predicate NegativelyTransitive<T(!new)>(less: (T, T) -> bool) {
    forall x, y, z :: !less(x, y) && !less(y, z) ==> !less(x, z)
  }

  ghost predicate StrictWeakOrder<T(!new)>(less: (T, T) -> bool) {
    StrictPartialOrder(less) && NegativelyTransitive(less)
  }

  /** Any two distinct values are comparable. */
  ghost predicate Connected<T(!new)>(less: (T, T) -> bool) {
    forall x, y :: x != y ==> less(x, y) || less(y, x)
  }

  ghost predicate StrictTotalOrder<T(!new)>(less: (T, T) -> bool) {
    StrictPartialOrder(less) && Connected(less)
  }

  ghost predicate SortedBy<T>(less: (T, T) -> bool, s: seq<T>) {
    forall i, j :: 0 <= i < j < |s| ==> !less(s[j], s[i])
  }

  /** Inserts `x` after every element it is not strictly less than. */
  function Insert<T>(less: (T, T) -> bool, x: T, s: seq<T>): (r: seq<T>)
    ensures |r| == |s| + 1
    ensures multiset(r) == multiset(s) + multiset{x}
  {
    if s == [] then [x]
    else if less(x, s[0]) then [x] + s
    else
      assert s == [s[0]] + s[1..];
      [s[0]] + Insert(less, x, s[1..])
  }

  /** Stable insertion sort: each element in turn is inserted into the
      sorted prefix. */
  function InsertionSort<T>(less: (T, T) -> bool, s: seq<T>): (r: seq<T>)
    ensures |r| == |s|
    ensures multiset(r) == multiset(s)
  {
    if s == [] then []
    else
      assert s == s[..|s| - 1] + [s[|s| - 1]];
      Insert(less, s[|s| - 1], InsertionSort(less, s[..|s| - 1]))
  }

  lemma {:induction false} InsertSorted<T(!new)>(less: (T, T) -> bool, x: T, s: seq<T>)
    requires StrictPartialOrder(less)
    requires SortedBy(less, s)
    ensures SortedBy(less, Insert(less, x, s))
  {
    var r := Insert(less, x, s);
    if s == [] {
    } else if less(x, s[0]) {
      forall i, j | 0 <= i < j < |r|
        ensures !less(r[j], r[i])
      {
        if i == 0 && j == 1 {
          assert !less(s[0], s[0]);
        } else if i == 0 {
          assert !less(s[j - 1], s[0]);
        }
      }
    } else {
      var rest := Insert(less, x, s[1..]);
      InsertSorted(less, x, s[1..]);
      assert r == [s[0]] + rest;
      forall j | 0 < j < |r|
        ensures !less(r[j], s[0])
      {
        assert r[j] == rest[j - 1];
        assert r[j] in multiset(rest);
        if r[j] != x {
          assert r[j] in multiset(s[1..]);
          var k :| 0 <= k < |s[1..]| && s[1..][k] == r[j];
          assert s[k + 1] == r[j];
        }
      }
    }
  }

  lemma {:induction false} InsertionSortSorted<T(!new)>(less: (T, T) -> bool, s: seq<T>)
    requires StrictPartialOrder(less)
    ensures SortedBy(less, InsertionSort(less, s))
  {
    if s != [] {
      InsertionSortSorted(less, s[..|s| - 1]);
      InsertSorted(less, s[|s| - 1], InsertionSort(less, s[..|s| - 1]));
    }
  }

  /** Under a strict total order a multiset has exactly one sorted
      arrangement. */
  lemma {:induction false} SortedUnique<T(!new)>(less: (T, T) -> bool, x: seq<T>, y: seq<T>)
    requires StrictTotalOrder(less)
    requires SortedBy(less, x) && SortedBy(less, y)
    requires multiset(x) == multiset(y)
    ensures x == y
  {
    if x == [] {
      assert |multiset(y)| == 0;
    } else {
      assert |y| == |multiset(y)| == |x| > 0;
      assert x[0] in multiset(y);
      assert y[0] in multiset(x);
      var j :| 0 <= j < |y| && y[j] == x[0];
      var i :| 0 <= i < |x| && x[i] == y[0];
      assert !less(y[j], y[0]) && !less(x[i], x[0]);
      assert x[0] == y[0];
      assert x == [x[0]] + x[1..];
      assert y == [y[0]] + y[1..];
      assert multiset(x) == multiset{x[0]} + multiset(x[1..]);
      assert multiset(y) == multiset{x[0]} + multiset(y[1..]);
      assert multiset(x[1..]) == multiset(x) - multiset{x[0]};
      assert multiset(y[1..]) == multiset(y) - multiset{x[0]};
      SortedUnique(less, x[1..], y[1..]);
    }
  }

  /** Sorting under a strict total order is canonical: any two
      rearrangements of the same values sort to the same sequence. */
  lemma InsertionSortCanonical<T(!new)>(less: (T, T) -> bool, x: seq<T>, y: seq<T>)
    requires StrictTotalOrder(less)
    requires multiset(x) == multiset(y)
    ensures InsertionSort(less, x) == InsertionSort(less, y)
  {
    InsertionSortSorted(less, x);
    InsertionSortSorted(less, y);
    SortedUnique(less, InsertionSort(less, x), InsertionSort(less, y));
  }
}
