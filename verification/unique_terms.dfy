/**
 Reduction of a term list to unique terms (`copy_as_unique_terms`).

 A working list is kept sorted under a comparator. Each incoming term is
 looked up with `lower_bound`. If the term found there has the same
 operators, the incoming prefactor is added to it. Otherwise the incoming
 term is inserted at that position. The working list is then appended to
 the caller's result.

 The comparator `TermSmaller` is not part of this model: `less` is a
 parameter comparing operator products, i.e. it is assumed to ignore
 prefactors. The properties each ordering lemma relies on are stated as
 its preconditions.
 */
module UniqueTerms {
  import opened Operators
  import opened Terms
  import opened Sorting

  /** No later operator product is strictly less than an earlier one. */
  ghost predicate SortedOps<S>(less: (seq<Operator<S>>, seq<Operator<S>>) -> bool, lst: seq<Term<S>>) {
    forall i, j :: 0 <= i < j < |lst| ==> !less(lst[j].operators, lst[i].operators)
  }

  /** Every operator product occurs at most once. */
  ghost predicate DistinctOps<S>(lst: seq<Term<S>>) {
    forall i, j :: 0 <= i < j < |lst| ==> lst[i].operators != lst[j].operators
  }

  /** The operator products that occur in `lst`. */
  ghost function OpsSet<S>(lst: seq<Term<S>>): set<seq<Operator<S>>> {
    set i | 0 <= i < |lst| :: lst[i].operators
  }

  /** Sum of all prefactors. */
  function Sum<S>(lst: seq<Term<S>>): int {
    if lst == [] then 0 else Sum(lst[..|lst| - 1]) + lst[|lst| - 1].prefactor
  }

  /** Sum of the prefactors of the terms whose operator product is `ops`. */
  function SumWith<S(==)>(lst: seq<Term<S>>, ops: seq<Operator<S>>): int {
    if lst == [] then 0
    else SumWith(lst[..|lst| - 1], ops) + (if lst[|lst| - 1].operators == ops then lst[|lst| - 1].prefactor else 0)
  }

  /** `std::lower_bound`: the first position whose term is not less than `t`. */
  function LowerBound<S>(less: (seq<Operator<S>>, seq<Operator<S>>) -> bool, lst: seq<Term<S>>, t: Term<S>): (pos: nat)
    ensures pos <= |lst|
    ensures forall i :: 0 <= i < pos ==> less(lst[i].operators, t.operators)
    ensures pos < |lst| ==> !less(lst[pos].operators, t.operators)
  {
    if lst == [] || !less(lst[0].operators, t.operators) then 0
    else 1 + LowerBound(less, lst[1..], t)
  }

  /** One pass of the loop body: `t` is appended when every term is less
      than it, added to the term at its lower bound when that term has the
      same operators, and inserted at its lower bound otherwise. */
  function Step<S(==)>(less: (seq<Operator<S>>, seq<Operator<S>>) -> bool, lst: seq<Term<S>>, t: Term<S>): (r: seq<Term<S>>)
    ensures var pos := LowerBound(less, lst, t);
      pos < |lst| && SameOperators(lst[pos], t) ==>
        && |r| == |lst|
        && r[pos].operators == lst[pos].operators
        && r[pos].prefactor == lst[pos].prefactor + t.prefactor
        && forall i :: 0 <= i < |r| && i != pos ==> r[i] == lst[i]
    ensures var pos := LowerBound(less, lst, t);
      !(pos < |lst| && SameOperators(lst[pos], t)) ==>
        && |r| == |lst| + 1
        && r[pos] == t
        && r[..pos] == lst[..pos]
        && r[pos + 1..] == lst[pos..]
  {
    var pos := LowerBound(less, lst, t);
    if pos == |lst| then
      lst + [t]
    else if SameOperators(lst[pos], t) then
      lst[pos := lst[pos].(prefactor := lst[pos].prefactor + t.prefactor)]
    else
      lst[..pos] + [t] + lst[pos..]
  }

  /** A step adds the prefactor of `t` to the total, and to the total of the
      terms with the operators of `t` only; it adds the operators of `t` to
      the operator products present; the list grows by at most one. */
  lemma StepPreserves<S(!new)>(less: (seq<Operator<S>>, seq<Operator<S>>) -> bool, lst: seq<Term<S>>, t: Term<S>)
    ensures |lst| <= |Step(less, lst, t)| <= |lst| + 1
    ensures Sum(Step(less, lst, t)) == Sum(lst) + t.prefactor
    ensures forall ops :: SumWith(Step(less, lst, t), ops) == SumWith(lst, ops) + (if ops == t.operators then t.prefactor else 0)
    ensures OpsSet(Step(less, lst, t)) == OpsSet(lst) + {t.operators}
  {
    var pos := LowerBound(less, lst, t);
    var r := Step(less, lst, t);
    if pos < |lst| && SameOperators(lst[pos], t) {
      var merged := lst[pos].(prefactor := lst[pos].prefactor + t.prefactor);
      assert r == lst[pos := merged];
      assert merged.operators == t.operators;
      SumReplace(lst, pos, merged);
      forall ops
        ensures SumWith(r, ops) == SumWith(lst, ops) + (if ops == t.operators then t.prefactor else 0)
      {
        assert SumWith(lst[pos := merged], ops)
            == SumWith(lst, ops) + (if ops == merged.operators then merged.prefactor - lst[pos].prefactor else 0);
        assert merged.prefactor - lst[pos].prefactor == t.prefactor;
        assert SumWith(r, ops) == SumWith(lst[pos := merged], ops);
      }
    } else {
      assert r == lst[..pos] + [t] + lst[pos..];
      SumSplit(lst, pos, t);
      forall ops
        ensures SumWith(r, ops) == SumWith(lst, ops) + (if ops == t.operators then t.prefactor else 0)
      {
        assert SumWith(r, ops) == SumWith(lst[..pos] + [t] + lst[pos..], ops);
      }
    }
  }

  /** The unique terms of `ts`, in the order of the working list. */
  function Reduce<S(==,!new)>(less: (seq<Operator<S>>, seq<Operator<S>>) -> bool, ts: seq<Term<S>>): (r: seq<Term<S>>)
    ensures |ts| == 0 ==> r == []
    ensures |ts| > 0 ==> 1 <= |r| <= |ts|
    ensures Sum(r) == Sum(ts)
    ensures forall ops :: SumWith(r, ops) == SumWith(ts, ops)
    ensures OpsSet(r) == OpsSet(ts)
  {
    if ts == [] then []
    else
      var n := |ts|;
      assert ts == ts[..n - 1] + [ts[n - 1]];
      OpsSetAppend(ts[..n - 1], ts[n - 1]);
      StepPreserves(less, Reduce(less, ts[..n - 1]), ts[n - 1]);
      Step(less, Reduce(less, ts[..n - 1]), ts[n - 1])
  }

  /** `copy_as_unique_terms(original, result)`: the terms already in
      `result` stay in front; the reduced terms follow. */
  method CopyAsUniqueTerms<S(==,!new)>(less: (seq<Operator<S>>, seq<Operator<S>>) -> bool,
                                  original: seq<Term<S>>, result: seq<Term<S>>)
    returns (out: seq<Term<S>>)
    ensures |out| >= |result| && out[..|result|] == result
    ensures out[|result|..] == Reduce(less, original)
    ensures |original| == 0 ==> out == result
    ensures |original| > 0 ==> |result| + 1 <= |out| <= |result| + |original|
    ensures Sum(out[|result|..]) == Sum(original)
    ensures OpsSet(out[|result|..]) == OpsSet(original)
  {
    var lst: seq<Term<S>> := [];
    var i := 0;
    while i < |original|
      invariant 0 <= i <= |original|
      invariant lst == Reduce(less, original[..i])
    {
      ghost var next := original[..i + 1];
      assert next[..i] == original[..i] && next[i] == original[i];
      assert Reduce(less, next) == Step(less, Reduce(less, next[..i]), next[i]);
      lst := Step(less, lst, original[i]);
      i := i + 1;
    }
    assert original[..i] == original;
    out := result + lst;
    assert out[..|result|] == result;
    assert out[|result|..] == lst;
    assert |out| == |result| + |lst|;
  }

  // ---------------------------------------------------------------------
  // Ordering properties

  /** With a strict weak order every term at or after the lower bound is not
      less than `t`: the sorted list is partitioned there. */
  lemma LowerBoundPartitions<S(!new)>(less: (seq<Operator<S>>, seq<Operator<S>>) -> bool, lst: seq<Term<S>>, t: Term<S>)
    requires StrictWeakOrder(less)
    requires SortedOps(less, lst)
    ensures forall j :: LowerBound(less, lst, t) <= j < |lst| ==> !less(lst[j].operators, t.operators)
  {
    var pos := LowerBound(less, lst, t);
    forall j | pos < j < |lst|
      ensures !less(lst[j].operators, t.operators)
    {
      assert !less(lst[j].operators, lst[pos].operators);
    }
  }

  /** A step keeps the working list sorted. */
  lemma StepSorted<S(!new)>(less: (seq<Operator<S>>, seq<Operator<S>>) -> bool, lst: seq<Term<S>>, t: Term<S>)
    requires StrictWeakOrder(less)
    requires SortedOps(less, lst)
    ensures SortedOps(less, Step(less, lst, t))
  {
    var pos := LowerBound(less, lst, t);
    var r := Step(less, lst, t);
    LowerBoundPartitions(less, lst, t);
    if pos < |lst| && SameOperators(lst[pos], t) {
      forall i, j | 0 <= i < j < |r|
        ensures !less(r[j].operators, r[i].operators)
      {
        assert r[i].operators == lst[i].operators && r[j].operators == lst[j].operators;
      }
    } else {
      forall i, j | 0 <= i < j < |r|
        ensures !less(r[j].operators, r[i].operators)
      {
        if i < pos && j == pos {
          assert less(lst[i].operators, t.operators);
        } else if i < pos && j > pos {
          assert r[i] == lst[i] && r[j] == lst[j - 1];
        } else if i == pos {
          assert r[j] == lst[j - 1];
        } else if i > pos {
          assert r[i] == lst[i - 1] && r[j] == lst[j - 1];
        }
      }
    }
  }

  /** With a strict total order a step never creates a second term with the
      same operator product. */
  lemma StepDistinct<S(!new)>(less: (seq<Operator<S>>, seq<Operator<S>>) -> bool, lst: seq<Term<S>>, t: Term<S>)
    requires StrictWeakOrder(less) && Connected(less)
    requires SortedOps(less, lst)
    requires DistinctOps(lst)
    ensures DistinctOps(Step(less, lst, t))
  {
    var pos := LowerBound(less, lst, t);
    var r := Step(less, lst, t);
    LowerBoundPartitions(less, lst, t);
    if pos < |lst| && SameOperators(lst[pos], t) {
      forall i, j | 0 <= i < j < |r|
        ensures r[i].operators != r[j].operators
      {
        assert r[i].operators == lst[i].operators && r[j].operators == lst[j].operators;
      }
    } else {
      forall k | 0 <= k < |lst|
        ensures lst[k].operators != t.operators
      {
        if k < pos {
          assert less(lst[k].operators, t.operators);
        } else {
          assert lst[pos].operators != t.operators;
          assert less(t.operators, lst[pos].operators);
          if k > pos {
            assert !less(lst[k].operators, lst[pos].operators);
          }
        }
      }
      forall i, j | 0 <= i < j < |r|
        ensures r[i].operators != r[j].operators
      {
        if i < pos && j == pos {
        } else if i < pos && j > pos {
          assert r[i] == lst[i] && r[j] == lst[j - 1];
        } else if i == pos {
          assert r[j] == lst[j - 1];
        } else if i > pos {
          assert r[i] == lst[i - 1] && r[j] == lst[j - 1];
        }
      }
    }
  }

  /** If `less` is a strict weak order, the reduced list is sorted. */
  lemma {:induction false} ReduceSorted<S(!new)>(less: (seq<Operator<S>>, seq<Operator<S>>) -> bool, ts: seq<Term<S>>)
    requires StrictWeakOrder(less)
    ensures SortedOps(less, Reduce(less, ts))
  {
    if ts != [] {
      var n := |ts|;
      var prev := Reduce(less, ts[..n - 1]);
      ReduceSorted(less, ts[..n - 1]);
      StepSorted(less, prev, ts[n - 1]);
      assert Reduce(less, ts) == Step(less, prev, ts[n - 1]);
    }
  }

  /** If `less` is a strict total order on operator products, no two
      reduced terms share an operator product. */
  lemma {:induction false} ReduceDistinct<S(!new)>(less: (seq<Operator<S>>, seq<Operator<S>>) -> bool, ts: seq<Term<S>>)
    requires StrictWeakOrder(less) && Connected(less)
    ensures DistinctOps(Reduce(less, ts))
  {
    if ts != [] {
      var n := |ts|;
      var prev := Reduce(less, ts[..n - 1]);
      ReduceDistinct(less, ts[..n - 1]);
      ReduceSorted(less, ts[..n - 1]);
      StepDistinct(less, prev, ts[n - 1]);
      assert Reduce(less, ts) == Step(less, prev, ts[n - 1]);
    }
  }

  /** With a strict total order every reduced term carries the sum of the
      prefactors of all input terms with its operator product. */
  lemma ReducedPrefactorIsSumOfMatches<S(!new)>(less: (seq<Operator<S>>, seq<Operator<S>>) -> bool, ts: seq<Term<S>>)
    requires StrictWeakOrder(less) && Connected(less)
    ensures forall k :: 0 <= k < |Reduce(less, ts)| ==>
      Reduce(less, ts)[k].prefactor == SumWith(ts, Reduce(less, ts)[k].operators)
  {
    var r := Reduce(less, ts);
    ReduceDistinct(less, ts);
    forall k | 0 <= k < |r|
      ensures r[k].prefactor == SumWith(ts, r[k].operators)
    {
      SumWithDistinct(r, k);
    }
  }

  /** Reducing a list whose operator products strictly increase changes
      nothing: every term is appended at the end. */
  lemma {:induction false} ReduceOfStrictlyIncreasing<S(!new)>(less: (seq<Operator<S>>, seq<Operator<S>>) -> bool, ts: seq<Term<S>>)
    requires forall i, j :: 0 <= i < j < |ts| ==> less(ts[i].operators, ts[j].operators)
    ensures Reduce(less, ts) == ts
  {
    if ts != [] {
      var n := |ts|;
      ReduceOfStrictlyIncreasing(less, ts[..n - 1]);
      assert LowerBound(less, ts[..n - 1], ts[n - 1]) == n - 1;
      assert ts[..n - 1] + [ts[n - 1]] == ts;
    }
  }

  /** With a strict total order, reducing twice is the same as reducing once. */
  lemma ReduceIdempotent<S(!new)>(less: (seq<Operator<S>>, seq<Operator<S>>) -> bool, ts: seq<Term<S>>)
    requires StrictWeakOrder(less) && Connected(less)
    ensures Reduce(less, Reduce(less, ts)) == Reduce(less, ts)
  {
    var r := Reduce(less, ts);
    ReduceSorted(less, ts);
    ReduceDistinct(less, ts);
    forall i, j | 0 <= i < j < |r|
      ensures less(r[i].operators, r[j].operators)
    {
      assert !less(r[j].operators, r[i].operators);
      assert r[i].operators != r[j].operators;
    }
    ReduceOfStrictlyIncreasing(less, r);
  }

  /** Two terms with the same operators merge into one whose prefactor is
      the sum, whatever irreflexive comparator is used. */
  lemma ReduceMergesPair<S(!new)>(less: (seq<Operator<S>>, seq<Operator<S>>) -> bool, t1: Term<S>, t2: Term<S>)
    requires Irreflexive(less)
    requires t1.operators == t2.operators
    ensures Reduce(less, [t1, t2]) == [Term(t1.prefactor + t2.prefactor, t1.operators)]
  {
    assert [t1, t2][..1] == [t1];
    assert [t1][..0] == [];
    assert Reduce(less, [t1]) == Step(less, [], t1);
    assert LowerBound(less, [], t1) == 0;
    assert Step(less, [], t1) == [t1];
    assert !less(t1.operators, t2.operators);
    assert LowerBound(less, [t1], t2) == 0;
    assert Reduce(less, [t1, t2]) == Step(less, [t1], t2);
  }

  // ---------------------------------------------------------------------
  // Sums and sets over term lists

  lemma {:induction false} SumConcat<S>(a: seq<Term<S>>, b: seq<Term<S>>)
    ensures Sum(a + b) == Sum(a) + Sum(b)
  {
    if b != [] {
      var n := |b|;
      SumConcat(a, b[..n - 1]);
      assert (a + b)[..|a + b| - 1] == a + b[..n - 1];
      assert (a + b)[|a + b| - 1] == b[n - 1];
    } else {
      assert a + b == a;
    }
  }

  lemma {:induction false} SumWithConcat<S>(a: seq<Term<S>>, b: seq<Term<S>>, ops: seq<Operator<S>>)
    ensures SumWith(a + b, ops) == SumWith(a, ops) + SumWith(b, ops)
  {
    if b != [] {
      var n := |b|;
      SumWithConcat(a, b[..n - 1], ops);
      assert (a + b)[..|a + b| - 1] == a + b[..n - 1];
      assert (a + b)[|a + b| - 1] == b[n - 1];
    } else {
      assert a + b == a;
    }
  }

  /** Sums over `a + [x] + b`. */
  lemma SumsOfThree<S>(a: seq<Term<S>>, x: Term<S>, b: seq<Term<S>>)
    ensures Sum(a + [x] + b) == Sum(a) + x.prefactor + Sum(b)
    ensures forall ops :: SumWith(a + [x] + b, ops)
                       == SumWith(a, ops) + (if ops == x.operators then x.prefactor else 0) + SumWith(b, ops)
    ensures OpsSet(a + [x] + b) == OpsSet(a) + {x.operators} + OpsSet(b)
  {
    SumConcat(a, [x]);
    SumConcat(a + [x], b);
    assert [x][..0] == [];
    forall ops
      ensures SumWith(a + [x] + b, ops)
           == SumWith(a, ops) + (if ops == x.operators then x.prefactor else 0) + SumWith(b, ops)
    {
      SumWithConcat(a, [x], ops);
      SumWithConcat(a + [x], b, ops);
    }
    OpsSetAppend(a, x);
    OpsSetConcat(a + [x], b);
  }

  /** Putting `x` between `lst[..pos]` and `lst[pos..]` adds its prefactor. */
  lemma SumSplit<S>(lst: seq<Term<S>>, pos: nat, x: Term<S>)
    requires pos <= |lst|
    ensures Sum(lst[..pos] + [x] + lst[pos..]) == Sum(lst) + x.prefactor
    ensures forall ops :: SumWith(lst[..pos] + [x] + lst[pos..], ops)
                       == SumWith(lst, ops) + (if ops == x.operators then x.prefactor else 0)
    ensures OpsSet(lst[..pos] + [x] + lst[pos..]) == OpsSet(lst) + {x.operators}
  {
    var a, b := lst[..pos], lst[pos..];
    assert lst == a + b;
    SumsOfThree(a, x, b);
    SumConcat(a, b);
    forall ops
      ensures SumWith(lst, ops) == SumWith(a, ops) + SumWith(b, ops)
    {
      SumWithConcat(a, b, ops);
    }
    OpsSetConcat(a, b);
  }

  /** Replacing `lst[pos]` by a term with the same operators changes the sum
      by the difference of the prefactors. */
  lemma SumReplace<S>(lst: seq<Term<S>>, pos: nat, x: Term<S>)
    requires pos < |lst| && x.operators == lst[pos].operators
    ensures Sum(lst[pos := x]) == Sum(lst) - lst[pos].prefactor + x.prefactor
    ensures forall ops :: SumWith(lst[pos := x], ops)
                       == SumWith(lst, ops) + (if ops == x.operators then x.prefactor - lst[pos].prefactor else 0)
    ensures OpsSet(lst[pos := x]) == OpsSet(lst)
  {
    var a, b := lst[..pos], lst[pos + 1..];
    assert lst == a + [lst[pos]] + b;
    assert lst[pos := x] == a + [x] + b;
    SumsOfThree(a, lst[pos], b);
    SumsOfThree(a, x, b);
  }

  lemma OpsSetConcat<S>(a: seq<Term<S>>, b: seq<Term<S>>)
    ensures OpsSet(a + b) == OpsSet(a) + OpsSet(b)
  {
    var ab := a + b;
    forall o | o in OpsSet(ab)
      ensures o in OpsSet(a) + OpsSet(b)
    {
      var i :| 0 <= i < |ab| && ab[i].operators == o;
      if i < |a| {
        assert a[i].operators == o;
      } else {
        assert b[i - |a|].operators == o;
      }
    }
    forall o | o in OpsSet(a) + OpsSet(b)
      ensures o in OpsSet(ab)
    {
      if o in OpsSet(a) {
        var i :| 0 <= i < |a| && a[i].operators == o;
        assert ab[i].operators == o;
      } else {
        var i :| 0 <= i < |b| && b[i].operators == o;
        assert ab[|a| + i].operators == o;
      }
    }
  }

  lemma OpsSetAppend<S>(a: seq<Term<S>>, x: Term<S>)
    ensures OpsSet(a + [x]) == OpsSet(a) + {x.operators}
  {
    OpsSetConcat(a, [x]);
    assert OpsSet([x]) == {x.operators} by {
      assert [x][0].operators == x.operators;
    }
  }

  /** In a list without repeated operator products, the terms matching
      `lst[k]` sum to the prefactor of `lst[k]` alone. */
  lemma {:induction false} SumWithDistinct<S>(lst: seq<Term<S>>, k: nat)
    requires k < |lst|
    requires DistinctOps(lst)
    ensures SumWith(lst, lst[k].operators) == lst[k].prefactor
  {
    var n := |lst|;
    if k == n - 1 {
      SumWithAbsent(lst[..n - 1], lst[k].operators);
    } else {
      SumWithDistinct(lst[..n - 1], k);
    }
  }

  lemma {:induction false} SumWithAbsent<S>(lst: seq<Term<S>>, ops: seq<Operator<S>>)
    requires forall i :: 0 <= i < |lst| ==> lst[i].operators != ops
    ensures SumWith(lst, ops) == 0
  {
    if lst != [] {
      SumWithAbsent(lst[..|lst| - 1], ops);
    }
  }
}
