/**
 Terms: a prefactor times an ordered product of fermionic operators.

 The order of the operators is physically significant. A term with no
 operators is a pure scalar. Prefactors are integers here, so that the sums
 formed when terms are merged are exact.
 */
module Terms {
  import opened Operators

  datatype Term<S> = Term(prefactor: int, operators: seq<Operator<S>>)

  /** The same operator with its kind swapped: c becomes c^† and back. */
  function Flip<S>(op: Operator<S>): (r: Operator<S>)
    ensures r.creator == !op.creator && r.index == op.index && r.spin == op.spin
  {
    op.(creator := !op.creator)
  }

  /** Copies `ops` back to front, then flips every copied operator. */
  function ReverseFlip<S>(ops: seq<Operator<S>>): (r: seq<Operator<S>>)
    ensures |r| == |ops|
    ensures forall k :: 0 <= k < |r| ==> r[k] == Flip(ops[|ops| - 1 - k])
  {
    if ops == [] then []
    else [Flip(ops[|ops| - 1])] + ReverseFlip(ops[..|ops| - 1])
  }

  /** Hermitian conjugate of the operator product. The prefactor is copied
      as it is: conjugating it is left to the caller. */
  function Conjugate<S>(t: Term<S>): (r: Term<S>)
    ensures r.prefactor == t.prefactor
    ensures |r.operators| == |t.operators|
    ensures forall k :: 0 <= k < |r.operators| ==>
      var op := t.operators[|t.operators| - 1 - k];
      && r.operators[k].creator == !op.creator
      && r.operators[k].index == op.index
      && r.operators[k].spin == op.spin
  {
    Term(t.prefactor, ReverseFlip(t.operators))
  }

  function MakeTerm<S>(prefactor: int, operators: seq<Operator<S>>): (r: Term<S>)
    ensures r.prefactor == prefactor
    ensures |r.operators| == |operators|
    ensures forall k :: 0 <= k < |operators| ==> r.operators[k] == operators[k]
  {
    Term(prefactor, operators)
  }

  /** The two operator products agree position by position; prefactors are
      not looked at. */
  function SameOperators<S(==)>(a: Term<S>, b: Term<S>): (r: bool)
    ensures r <==> |a.operators| == |b.operators|
                   && forall k :: 0 <= k < |a.operators| ==> OperatorEqual(a.operators[k], b.operators[k])
  {
    a.operators == b.operators
  }

  function TermEqual<S(==)>(a: Term<S>, b: Term<S>): (r: bool)
    ensures r <==> a.prefactor == b.prefactor && SameOperators(a, b)
    ensures r <==> a == b
  {
    a.prefactor == b.prefactor && a.operators == b.operators
  }

  function TermNotEqual<S(==)>(a: Term<S>, b: Term<S>): (r: bool)
    ensures r <==> a.prefactor != b.prefactor || !SameOperators(a, b)
    ensures r <==> !TermEqual(a, b)
  {
    a.prefactor != b.prefactor || a.operators != b.operators
  }

  /** Equal terms always have the same operators. */
  lemma EqualImpliesSameOperators<S>(a: Term<S>, b: Term<S>)
    requires TermEqual(a, b)
    ensures SameOperators(a, b)
  {
  }

  /** Conjugating twice gives back the original term. */
  lemma {:induction false} ConjugateInvolution<S>(t: Term<S>)
    ensures Conjugate(Conjugate(t)) == t
  {
    var c := Conjugate(t);
    var cc := Conjugate(c);
    var n := |t.operators|;
    forall k | 0 <= k < n
      ensures cc.operators[k] == t.operators[k]
    {
      assert c.operators[n - 1 - k].creator == !t.operators[k].creator;
    }
    assert cc.operators == t.operators;
  }

  /** A pure scalar stays a pure scalar with the same prefactor. */
  lemma ConjugateOfScalar<S>(t: Term<S>)
    requires t.operators == []
    ensures Conjugate(t) == t
  {
  }

  /** Every creator turns into an annihilator and vice versa, so the number
      of creators is complemented. */
  lemma ConjugateCountsCreators<S>(t: Term<S>)
    ensures CountCreators(Conjugate(t).operators) == |t.operators| - CountCreators(t.operators)
  {
    CountCreatorsReverseFlip(t.operators);
  }

  /** Number of creators in an operator product. */
  function CountCreators<S>(ops: seq<Operator<S>>): (r: nat)
    ensures r <= |ops|
  {
    if ops == [] then 0
    else (if ops[|ops| - 1].creator then 1 else 0) + CountCreators(ops[..|ops| - 1])
  }

  lemma {:induction false} CountCreatorsReverseFlip<S>(ops: seq<Operator<S>>)
    ensures CountCreators(ReverseFlip(ops)) == |ops| - CountCreators(ops)
  {
    if ops != [] {
      var n := |ops|;
      var r := ReverseFlip(ops);
      CountCreatorsReverseFlip(ops[..n - 1]);
      CountCreatorsFront(r);
      assert r[1..] == ReverseFlip(ops[..n - 1]);
    }
  }

  /** Counting from the front gives the same number as counting from the back. */
  lemma {:induction false} CountCreatorsFront<S>(ops: seq<Operator<S>>)
    requires ops != []
    ensures CountCreators(ops) == (if ops[0].creator then 1 else 0) + CountCreators(ops[1..])
  {
    var n := |ops|;
    if n > 1 {
      CountCreatorsFront(ops[..n - 1]);
      assert ops[..n - 1][1..] == ops[1..][..n - 2];
    } else {
      assert ops[..n - 1] == [];
      assert ops[1..] == [];
    }
  }
}
