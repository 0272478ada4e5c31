/**
 Symbolic prefactors: an integer value times a product of Kronecker deltas
 that commutation has accumulated.

 `Kronecker::order()` is not part of this model. Wherever the deltas are put
 in order, it is a parameter `order`. Its result type `OrderedKronecker`
 records the one property assumed of it: it leaves the smaller index first.
 */
module Symbolic {
  import opened Sorting

  /** The constraint δ(a, b): the two indices coincide. */
  datatype Kronecker = Kronecker(a: nat, b: nat)

  type OrderedKronecker = k: Kronecker | k.a <= k.b witness Kronecker(0, 0)

  predicate IsDiagonal(k: Kronecker) {
    k.a == k.b
  }

  datatype Prefactor = Prefactor(value: int, kroneckers: seq<Kronecker>)

  /** `make_prefactor(v)`: a bare number, no deltas. */
  function MakeScalar(value: int): (r: Prefactor)
    ensures r.value == value
    ensures |r.kroneckers| == 0
  {
    Prefactor(value, [])
  }

  /** `make_prefactor(v, {δ...})`: the deltas in the given order. */
  function MakePrefactor(value: int, kroneckers: seq<Kronecker>): (r: Prefactor)
    ensures r.value == value
    ensures |r.kroneckers| == |kroneckers|
    ensures forall i :: 0 <= i < |kroneckers| ==> r.kroneckers[i] == kroneckers[i]
  {
    Prefactor(value, kroneckers)
  }

  /** `*= Kronecker`: one more delta at the end. */
  function MulKronecker(p: Prefactor, k: Kronecker): (r: Prefactor)
    ensures r.value == p.value
    ensures |r.kroneckers| == |p.kroneckers| + 1
    ensures r.kroneckers[..|p.kroneckers|] == p.kroneckers
    ensures r.kroneckers[|p.kroneckers|] == k
  {
    Prefactor(p.value, p.kroneckers + [k])
  }

  /** `*= vector<Kronecker>`: the deltas of `rhs` are copied one by one
      behind the existing ones. */
  method MulKroneckers(p: Prefactor, rhs: seq<Kronecker>) returns (r: Prefactor)
    ensures r.value == p.value
    ensures r.kroneckers == p.kroneckers + rhs
  {
    r := p;
    var i := 0;
    while i < |rhs|
      invariant 0 <= i <= |rhs|
      invariant r.value == p.value
      invariant r.kroneckers == p.kroneckers + rhs[..i]
    {
      r := MulKronecker(r, rhs[i]);
      assert rhs[..i + 1] == rhs[..i] + [rhs[i]];
      i := i + 1;
    }
    assert rhs[..i] == rhs;
  }

  /** `*= Prefactor`: deltas concatenated, values multiplied. */
  function MulPrefactor(p: Prefactor, q: Prefactor): (r: Prefactor)
    ensures r.value == p.value * q.value
    ensures |r.kroneckers| == |p.kroneckers| + |q.kroneckers|
    ensures r.kroneckers[..|p.kroneckers|] == p.kroneckers
    ensures r.kroneckers[|p.kroneckers|..] == q.kroneckers
  {
    Prefactor(p.value * q.value, p.kroneckers + q.kroneckers)
  }

  /** `*= number`: only the value is scaled. */
  function MulNumber(p: Prefactor, n: int): (r: Prefactor)
    ensures r.value == p.value * n
    ensures r.kroneckers == p.kroneckers
  {
    p.(value := p.value * n)
  }

  /** `a * b`: a copy of `a` multiplied in place by `b`; neither operand is
      changed, as both are values. */
  function Times(a: Prefactor, b: Prefactor): (r: Prefactor)
    ensures r == MulPrefactor(a, b)
    ensures |r.kroneckers| == |a.kroneckers| + |b.kroneckers|
  {
    var copy := a;
    MulPrefactor(copy, b)
  }

  /** Multiplying by a prefactor with value 1 appends its deltas exactly as
      `*= vector<Kronecker>` does. */
  method MulKroneckersAgreesWithTimes(p: Prefactor, rhs: seq<Kronecker>) returns (r: Prefactor)
    ensures r == Times(p, MakePrefactor(1, rhs))
  {
    r := MulKroneckers(p, rhs);
  }

  /** Prefactor multiplication is associative ... */
  lemma TimesAssociative(a: Prefactor, b: Prefactor, c: Prefactor)
    ensures Times(Times(a, b), c) == Times(a, Times(b, c))
  {
    assert (a.value * b.value) * c.value == a.value * (b.value * c.value);
    assert (a.kroneckers + b.kroneckers) + c.kroneckers == a.kroneckers + (b.kroneckers + c.kroneckers);
  }

  /** ... with the scalar 1 as unit on both sides. */
  lemma TimesUnit(a: Prefactor)
    ensures Times(MakeScalar(1), a) == a
    ensures Times(a, MakeScalar(1)) == a
  {
    assert [] + a.kroneckers == a.kroneckers;
    assert a.kroneckers + [] == a.kroneckers;
  }

  // ---------------------------------------------------------------------
  // Putting the deltas in order

  /** The comparator handed to `std::sort` in `order_kroneckers`, exactly as
      written: it compares `x.b` against `y.a` on its second test. */
  function KroneckerLessAsWritten(x: Kronecker, y: Kronecker): (r: bool)
    ensures x.a <= x.b && y.a <= y.b ==>
      (r <==> x.a < y.a || (x.a == y.a && IsDiagonal(x) && !IsDiagonal(y)))
  {
    if x.a < y.a then true
    else if x.b > y.a then false
    else x.b < y.b
  }

  /** The source comparator where it is used: on deltas already ordered. */
  function SourceLess(x: OrderedKronecker, y: OrderedKronecker): bool {
    KroneckerLessAsWritten(x, y)
  }

  /** The lexicographic order on (a, b) of ordered deltas. */
  function KroneckerLexLess(x: OrderedKronecker, y: OrderedKronecker): bool {
    x.a < y.a || (x.a == y.a && x.b < y.b)
  }

  /** Applies `order` to every delta, keeping the positions. */
  function OrderAll(order: Kronecker -> OrderedKronecker, ks: seq<Kronecker>): (r: seq<OrderedKronecker>)
    ensures |r| == |ks|
    ensures forall i :: 0 <= i < |ks| ==> r[i] == order(ks[i])
  {
    if ks == [] then [] else [order(ks[0])] + OrderAll(order, ks[1..])
  }

  /** `order_kroneckers` as written: each delta is ordered, then the list
      is sorted with `KroneckerLessAsWritten`. The stable insertion sort is one
      outcome `std::sort` may produce; every property stated here holds of any
      rearrangement sorted under that comparator. */
  function OrderKroneckersAsWritten(order: Kronecker -> OrderedKronecker, p: Prefactor): (r: Prefactor)
    ensures r.value == p.value
    ensures |r.kroneckers| == |p.kroneckers|
    ensures multiset(r.kroneckers) == multiset(OrderAll(order, p.kroneckers))
    ensures forall i, j :: 0 <= i < j < |r.kroneckers| ==>
      && r.kroneckers[i].a <= r.kroneckers[j].a
      && (r.kroneckers[i].a == r.kroneckers[j].a && IsDiagonal(r.kroneckers[j]) ==> IsDiagonal(r.kroneckers[i]))
  {
    var sorted := InsertionSort(SourceLess, OrderAll(order, p.kroneckers));
    AsWrittenIsStrictWeakOrder();
    InsertionSortSorted(SourceLess, OrderAll(order, p.kroneckers));
    SortedAsWrittenMeaning(sorted);
    Prefactor(p.value, sorted)
  }

  /** `order_kroneckers` as evidently intended: each delta is ordered, then
      the list is sorted lexicographically. */
  function OrderKroneckers(order: Kronecker -> OrderedKronecker, p: Prefactor): (r: Prefactor)
    ensures r.value == p.value
    ensures |r.kroneckers| == |p.kroneckers|
    ensures multiset(r.kroneckers) == multiset(OrderAll(order, p.kroneckers))
    ensures forall i :: 0 <= i < |r.kroneckers| ==> r.kroneckers[i].a <= r.kroneckers[i].b
    ensures forall i, j :: 0 <= i < j < |r.kroneckers| ==>
      r.kroneckers[i].a < r.kroneckers[j].a
      || (r.kroneckers[i].a == r.kroneckers[j].a && r.kroneckers[i].b <= r.kroneckers[j].b)
  {
    var sorted := InsertionSort(KroneckerLexLess, OrderAll(order, p.kroneckers));
    LexIsStrictTotalOrder();
    InsertionSortSorted(KroneckerLexLess, OrderAll(order, p.kroneckers));
    Prefactor(p.value, sorted)
  }

  /** On ordered deltas the source comparator means: smaller first index, or
      the same first index with a diagonal δ(x, x) before a non-diagonal one.
      It never compares the second indices of two non-diagonal deltas. */
  lemma KroneckerLessAsWrittenMeaning(x: OrderedKronecker, y: OrderedKronecker)
    ensures KroneckerLessAsWritten(x, y) <==>
      x.a < y.a || (x.a == y.a && IsDiagonal(x) && !IsDiagonal(y))
  {
  }

  /** On ordered deltas the source comparator is a strict weak order, so the
      call to `std::sort` is well defined ... */
  lemma AsWrittenIsStrictWeakOrder()
    ensures StrictWeakOrder(SourceLess)
  {
    forall x: OrderedKronecker, y: OrderedKronecker, z: OrderedKronecker
      ensures !SourceLess(x, x)
      ensures SourceLess(x, y) && SourceLess(y, z) ==> SourceLess(x, z)
      ensures !SourceLess(x, y) && !SourceLess(y, z) ==> !SourceLess(x, z)
    {
      KroneckerLessAsWrittenMeaning(x, x);
      KroneckerLessAsWrittenMeaning(x, y);
      KroneckerLessAsWrittenMeaning(y, z);
      KroneckerLessAsWrittenMeaning(x, z);
    }
  }

  /** ... but not a total one: δ(1, 2) and δ(1, 3) are equivalent under it. */
  lemma AsWrittenIsNotTotal()
    ensures !Connected(SourceLess)
  {
    var x: OrderedKronecker := Kronecker(1, 2);
    var y: OrderedKronecker := Kronecker(1, 3);
    assert x != y && !SourceLess(x, y) && !SourceLess(y, x);
  }

  /** A list of ordered deltas is sorted under the source comparator exactly
      when first indices never decrease and, among deltas with the same first
      index, the diagonal ones come first. */
  lemma SortedAsWrittenMeaning(s: seq<OrderedKronecker>)
    ensures SortedBy(SourceLess, s) <==>
      forall i, j :: 0 <= i < j < |s| ==>
        && s[i].a <= s[j].a
        && (s[i].a == s[j].a && IsDiagonal(s[j]) ==> IsDiagonal(s[i]))
  {
    forall i, j | 0 <= i < j < |s|
      ensures SourceLess(s[j], s[i]) <==>
        s[j].a < s[i].a || (s[j].a == s[i].a && IsDiagonal(s[j]) && !IsDiagonal(s[i]))
    {
      KroneckerLessAsWrittenMeaning(s[j], s[i]);
    }
  }

  /** The lexicographic order is a strict total order on ordered deltas. */
  lemma LexIsStrictTotalOrder()
    ensures StrictTotalOrder(KroneckerLexLess)
  {
    forall x: OrderedKronecker, y: OrderedKronecker, z: OrderedKronecker
      ensures !KroneckerLexLess(x, x)
      ensures KroneckerLexLess(x, y) && KroneckerLexLess(y, z) ==> KroneckerLexLess(x, z)
      ensures x != y ==> KroneckerLexLess(x, y) || KroneckerLexLess(y, x)
    {
    }
  }

  lemma {:induction false} OrderAllConcat(order: Kronecker -> OrderedKronecker, x: seq<Kronecker>, y: seq<Kronecker>)
    ensures OrderAll(order, x + y) == OrderAll(order, x) + OrderAll(order, y)
  {
    if x != [] {
      OrderAllConcat(order, x[1..], y);
      assert (x + y)[1..] == x[1..] + y;
    }
  }

  /** Taking one delta out of a list takes its ordered form out of the
      ordered list. */
  lemma OrderAllRemove(order: Kronecker -> OrderedKronecker, y: seq<Kronecker>, j: nat)
    requires j < |y|
    ensures multiset(OrderAll(order, y))
         == multiset(OrderAll(order, y[..j] + y[j + 1..])) + multiset{order(y[j])}
  {
    var front, back := y[..j], y[j + 1..];
    SplitAround(y, j);
    MultisetOrderAllConcat(order, front, [y[j]] + back);
    MultisetOrderAllConcat(order, [y[j]], back);
    MultisetOrderAllConcat(order, front, back);
    OrderAllSingle(order, y[j]);
  }

  lemma SplitAround(y: seq<Kronecker>, j: nat)
    requires j < |y|
    ensures y == y[..j] + ([y[j]] + y[j + 1..])
  {
  }

  lemma OrderAllSingle(order: Kronecker -> OrderedKronecker, k: Kronecker)
    ensures multiset(OrderAll(order, [k])) == multiset{order(k)}
  {
    assert OrderAll(order, [k]) == [order(k)];
  }

  lemma MultisetOrderAllConcat(order: Kronecker -> OrderedKronecker, x: seq<Kronecker>, y: seq<Kronecker>)
    ensures multiset(OrderAll(order, x + y)) == multiset(OrderAll(order, x)) + multiset(OrderAll(order, y))
  {
    OrderAllConcat(order, x, y);
  }

  /** Ordering each delta of two rearrangements of one list gives two
      rearrangements of one list. */
  lemma {:induction false} OrderAllPermutation(order: Kronecker -> OrderedKronecker, x: seq<Kronecker>, y: seq<Kronecker>)
    requires multiset(x) == multiset(y)
    ensures multiset(OrderAll(order, x)) == multiset(OrderAll(order, y))
    decreases |x|
  {
    if x == [] {
      assert |multiset(y)| == 0;
    } else {
      assert x[0] in multiset(y);
      var j :| 0 <= j < |y| && y[j] == x[0];
      var rest := y[..j] + y[j + 1..];
      RemoveOne(x, y, j);
      OrderAllPermutation(order, x[1..], rest);
      OrderAllRemove(order, y, j);
      OrderAllFirst(order, x);
      assert multiset(OrderAll(order, x[1..])) == multiset(OrderAll(order, rest));
    }
  }

  lemma OrderAllFirst(order: Kronecker -> OrderedKronecker, x: seq<Kronecker>)
    requires x != []
    ensures multiset(OrderAll(order, x)) == multiset(OrderAll(order, x[1..])) + multiset{order(x[0])}
  {
    assert OrderAll(order, x) == [order(x[0])] + OrderAll(order, x[1..]);
  }

  /** Taking matching elements out of two rearrangements of one list
      leaves two rearrangements of one list. */
  lemma RemoveOne(x: seq<Kronecker>, y: seq<Kronecker>, j: nat)
    requires multiset(x) == multiset(y) && 0 < |x| && j < |y| && y[j] == x[0]
    ensures multiset(x[1..]) == multiset(y[..j] + y[j + 1..])
  {
    SplitAround(y, j);
    assert multiset(y) == multiset(y[..j]) + multiset{y[j]} + multiset(y[j + 1..]);
    assert multiset(y[..j] + y[j + 1..]) == multiset(y[..j]) + multiset(y[j + 1..]);
    assert x == [x[0]] + x[1..];
    assert multiset(x) == multiset{x[0]} + multiset(x[1..]);
    assert multiset(x[1..]) == multiset(x) - multiset{x[0]};
    assert multiset(y[..j] + y[j + 1..]) == multiset(y) - multiset{y[j]};
  }

  /** The corrected ordering is canonical: two prefactors with the same
      value whose ordered deltas are rearrangements of each other, such as
      δ(2, 1) δ(1, 3) and δ(1, 3) δ(1, 2), become identical. */
  lemma OrderKroneckersCanonical(order: Kronecker -> OrderedKronecker, p: Prefactor, q: Prefactor)
    requires p.value == q.value
    requires multiset(OrderAll(order, p.kroneckers)) == multiset(OrderAll(order, q.kroneckers))
    ensures OrderKroneckers(order, p) == OrderKroneckers(order, q)
  {
    LexIsStrictTotalOrder();
    InsertionSortCanonical(KroneckerLexLess, OrderAll(order, p.kroneckers), OrderAll(order, q.kroneckers));
  }

  /** In particular, rearranging the deltas of a prefactor does not change
      its corrected ordering. */
  lemma OrderKroneckersOfRearranged(order: Kronecker -> OrderedKronecker, p: Prefactor, q: Prefactor)
    requires p.value == q.value
    requires multiset(p.kroneckers) == multiset(q.kroneckers)
    ensures OrderKroneckers(order, p) == OrderKroneckers(order, q)
  {
    OrderAllPermutation(order, p.kroneckers, q.kroneckers);
    OrderKroneckersCanonical(order, p, q);
  }

  /** Puts the smaller index first; one ordering satisfying the assumption. */
  function SortPair(k: Kronecker): (r: OrderedKronecker)
    ensures (r.a == k.a && r.b == k.b) || (r.a == k.b && r.b == k.a)
  {
    if k.a <= k.b then k else Kronecker(k.b, k.a)
  }

  /** The source ordering is not canonical. δ(1, 3) δ(1, 2) and
      δ(1, 2) δ(1, 3) are each already sorted under the source comparator, so
      `std::sort` may leave both as they are, and the two equal products keep
      different delta lists. The corrected ordering makes them identical. */
  lemma OrderKroneckersAsWrittenNotCanonical()
    ensures SortedBy<OrderedKronecker>(SourceLess, [Kronecker(1, 3), Kronecker(1, 2)])
    ensures SortedBy<OrderedKronecker>(SourceLess, [Kronecker(1, 2), Kronecker(1, 3)])
    ensures OrderKroneckersAsWritten(SortPair, Prefactor(1, [Kronecker(1, 3), Kronecker(1, 2)]))
         != OrderKroneckersAsWritten(SortPair, Prefactor(1, [Kronecker(1, 2), Kronecker(1, 3)]))
    ensures OrderKroneckers(SortPair, Prefactor(1, [Kronecker(1, 3), Kronecker(1, 2)]))
         == OrderKroneckers(SortPair, Prefactor(1, [Kronecker(1, 2), Kronecker(1, 3)]))
  {
    var p := Prefactor(1, [Kronecker(1, 3), Kronecker(1, 2)]);
    var q := Prefactor(1, [Kronecker(1, 2), Kronecker(1, 3)]);
    assert OrderAll(SortPair, p.kroneckers) == [Kronecker(1, 3), Kronecker(1, 2)];
    assert OrderAll(SortPair, q.kroneckers) == [Kronecker(1, 2), Kronecker(1, 3)];
    var l: seq<OrderedKronecker> := [Kronecker(1, 3), Kronecker(1, 2)];
    assert l[..1] == [l[0]];
    assert [l[0]][..0] == [];
    assert InsertionSort(SourceLess, l[..1]) == [l[0]];
    assert !SourceLess(l[1], l[0]);
    assert InsertionSort(SourceLess, l) == l;
    assert multiset(OrderAll(SortPair, p.kroneckers)) == multiset(OrderAll(SortPair, q.kroneckers));
    OrderKroneckersCanonical(SortPair, p, q);
  }
}
