/**
 Operator bases of the real-space Hubbard model.

 A lattice is given by the site indices it enumerates, in order. The
 one-operator basis holds c^†_{i,↑} for every site i. The three-operator
 basis holds those N entries first, followed by every product
 c^†_{i1,↑} c^†_{i2,↓} c_{i3,↓}, with i1 varying slowest and i3 fastest.

 The prefactor of each basis entry is left to the caller: it is the
 parameter `p` here.
 */
module Basis {
  import opened Operators
  import opened Terms
  import opened Arith

  datatype Basis1Operator = Basis1Operator(n: nat, terms: seq<Term<bool>>)

  datatype Basis3Operator = Basis3Operator(n: nat, nSquared: nat, terms: seq<Term<bool>>)

  /** The one-operator entry c^†_{s,↑}. */
  function OneOp(p: int, s: nat): Term<bool> {
    Term(p, [Operator(true, s, true)])
  }

  /** The three-operator entry c^†_{s1,↑} c^†_{s2,↓} c_{s3,↓}. */
  function ThreeOp(p: int, s1: nat, s2: nat, s3: nat): Term<bool> {
    Term(p, [Operator(true, s1, true), Operator(true, s2, false), Operator(false, s3, false)])
  }

  // ---------------------------------------------------------------------
  // Enumeration of triples

  /** Position of the triple (a, b, c) in a nested enumeration over
      [0, n)^3 with `a` outermost, n^2 a + n b + c. It is written with `Mul`
      so that proofs about the enumeration only see the products they ask
      for through `OffsetIsProduct`. */
  function Offset(n: nat, a: nat, b: nat, c: nat): nat {
    Mul(Mul(n, n), a) + Mul(n, b) + c
  }

  lemma OffsetIsProduct(n: nat, a: nat, b: nat, c: nat)
    ensures Offset(n, a, b, c) == n * n * a + n * b + c
  {
    MulIsProduct(n, n);
    MulIsProduct(n * n, a);
    MulIsProduct(n, b);
  }

  /** The triple at position `k` of that enumeration. */
  function Decode(n: nat, k: nat): (r: (nat, nat, nat))
    requires n > 0
  {
    (k / (n * n), (k / n) % n, k % n)
  }

  lemma OffsetBound(n: nat, a: nat, b: nat, c: nat)
    requires a < n && b < n && c < n
    ensures Offset(n, a, b, c) < n * n * n
  {
    OffsetIsProduct(n, a, b, c);
    DigitBound(n, b, c);
    Distrib(a, 1, n * n);
    MulLe(a + 1, n, n * n);
  }

  /** Decoding the position of a triple gives the triple back. */
  lemma DecodeOffset(n: nat, a: nat, b: nat, c: nat)
    requires a < n && b < n && c < n
    ensures Decode(n, Offset(n, a, b, c)) == (a, b, c)
  {
    OffsetTopDigit(n, a, b, c);
    OffsetLowDigit(n, a, b, c);
    var high: nat := n * a + b;
    DivModUnique(high, n, a, b);
  }

  /** Dividing a position by n^2 gives the outermost component. */
  lemma OffsetTopDigit(n: nat, a: nat, b: nat, c: nat)
    requires b < n && c < n
    ensures Offset(n, a, b, c) / (n * n) == a
  {
    OffsetIsProduct(n, a, b, c);
    Horner(n, a, b, c);
    DigitBound(n, b, c);
    DivModUnique(Offset(n, a, b, c), n * n, a, n * b + c);
  }

  /** Dividing a position by n gives n a + b with remainder c. */
  lemma OffsetLowDigit(n: nat, a: nat, b: nat, c: nat)
    requires c < n
    ensures Offset(n, a, b, c) / n == n * a + b && Offset(n, a, b, c) % n == c
  {
    OffsetIsProduct(n, a, b, c);
    Horner(n, a, b, c);
    DivModUnique(Offset(n, a, b, c), n, n * a + b, c);
  }

  /** Every position below n^3 is the position of a triple in range. */
  lemma OffsetDecode(n: nat, k: nat)
    requires n > 0 && k < n * n * n
    ensures Decode(n, k).0 < n && Decode(n, k).1 < n && Decode(n, k).2 < n
    ensures Offset(n, Decode(n, k).0, Decode(n, k).1, Decode(n, k).2) == k
  {
    var nn: nat := n * n;
    var a: nat, m: nat := k / nn, k % nn;
    assert k == a * nn + m;
    if a >= n {
      MulLe(n, a, nn);
      assert false;
    }
    var b, c := m / n, m % n;
    assert m == b * n + c;
    if b >= n {
      MulLe(n, b, n);
      assert false;
    }
    OffsetIsProduct(n, a, b, c);
    assert Offset(n, a, b, c) == k;
    DecodeOffset(n, a, b, c);
  }

  /** Positions of distinct triples differ. */
  lemma OffsetInjective(n: nat, a: nat, b: nat, c: nat, a': nat, b': nat, c': nat)
    requires a < n && b < n && c < n && a' < n && b' < n && c' < n
    requires Offset(n, a, b, c) == Offset(n, a', b', c')
    ensures a == a' && b == b' && c == c'
  {
    DecodeOffset(n, a, b, c);
    DecodeOffset(n, a', b', c');
  }

  // ---------------------------------------------------------------------
  // Construction

  /** `Basis1Operator(lattice)`: one entry per site, in lattice order. */
  method BuildBasis1(p: int, sites: seq<nat>) returns (b: Basis1Operator)
    ensures b.n == |sites|
    ensures |b.terms| == |sites|
    ensures forall k :: 0 <= k < |sites| ==> b.terms[k] == OneOp(p, sites[k])
  {
    var terms: seq<Term<bool>> := [];
    var k := 0;
    while k < |sites|
      invariant 0 <= k <= |sites|
      invariant |terms| == k
      invariant forall j :: 0 <= j < k ==> terms[j] == OneOp(p, sites[j])
    {
      terms := terms + [OneOp(p, sites[k])];
      k := k + 1;
    }
    b := Basis1Operator(|sites|, terms);
  }

  /** `get_3op_index(i1, i2, i3)`: where the triple (i1, i2, i3) sits in a
      three-operator basis. */
  function Get3OpIndex(b: Basis3Operator, i1: nat, i2: nat, i3: nat): (r: nat)
    ensures b.nSquared == b.n * b.n && i1 < b.n && i2 < b.n && i3 < b.n ==>
      b.n <= r < b.n + b.n * b.n * b.n
    ensures b.nSquared == b.n * b.n ==> r == b.n + Offset(b.n, i1, i2, i3)
  {
    OffsetIsProduct(b.n, i1, i2, i3);
    if b.nSquared == b.n * b.n && i1 < b.n && i2 < b.n && i3 < b.n then
      OffsetBound(b.n, i1, i2, i3);
      b.n + b.nSquared * i1 + b.n * i2 + i3
    else
      b.n + b.nSquared * i1 + b.n * i2 + i3
  }

  /** The one-operator entries occupy the first n places. */
  ghost predicate OneOpsFilled(p: int, sites: seq<nat>, terms: seq<Term<bool>>) {
    |sites| <= |terms| && forall k :: 0 <= k < |sites| ==> terms[k] == OneOp(p, sites[k])
  }

  /** Every triple whose position lies below `|terms| - n` is in place. */
  ghost predicate ThreeOpsFilled(p: int, sites: seq<nat>, terms: seq<Term<bool>>) {
    var n := |sites|;
    forall a: nat, b: nat, c: nat {:trigger Offset(n, a, b, c)} :: a < n && b < n && c < n && n + Offset(n, a, b, c) < |terms| ==>
      terms[n + Offset(n, a, b, c)] == ThreeOp(p, sites[a], sites[b], sites[c])
  }

  /** Appending any term keeps the one-operator entries in place. */
  lemma AppendKeepsOneOps(p: int, sites: seq<nat>, terms: seq<Term<bool>>, t: Term<bool>)
    requires OneOpsFilled(p, sites, terms)
    ensures OneOpsFilled(p, sites, terms + [t])
  {
    forall k | 0 <= k < |sites|
      ensures (terms + [t])[k] == OneOp(p, sites[k])
    {
      assert (terms + [t])[k] == terms[k];
    }
  }

  /** Appending the triple that comes next keeps every triple in place. */
  lemma AppendTriple(p: int, sites: seq<nat>, terms: seq<Term<bool>>, i1: nat, i2: nat, i3: nat)
    requires i1 < |sites| && i2 < |sites| && i3 < |sites|
    requires |terms| == |sites| + Offset(|sites|, i1, i2, i3)
    requires ThreeOpsFilled(p, sites, terms)
    ensures ThreeOpsFilled(p, sites, terms + [ThreeOp(p, sites[i1], sites[i2], sites[i3])])
  {
    var n := |sites|;
    var next := terms + [ThreeOp(p, sites[i1], sites[i2], sites[i3])];
    forall a: nat, b: nat, c: nat | a < n && b < n && c < n && n + Offset(n, a, b, c) < |next|
      ensures next[n + Offset(n, a, b, c)] == ThreeOp(p, sites[a], sites[b], sites[c])
    {
      var pos := n + Offset(n, a, b, c);
      if pos < |terms| {
        assert next[pos] == terms[pos];
      } else {
        OffsetInjective(n, a, b, c, i1, i2, i3);
      }
    }
  }

  /** The position after the last triple with first components a, b is
      the position of the first triple with a, b + 1; likewise one level up. */
  lemma OffsetCarry(n: nat, a: nat, b: nat)
    ensures Offset(n, a, b, n) == Offset(n, a, b + 1, 0)
    ensures Offset(n, a, n, 0) == Offset(n, a + 1, 0, 0)
    ensures Offset(n, 0, 0, 0) == 0 && Offset(n, n, 0, 0) == n * n * n
  {
    OffsetIsProduct(n, a, b, n);
    OffsetIsProduct(n, a, b + 1, 0);
    OffsetIsProduct(n, a, n, 0);
    OffsetIsProduct(n, a + 1, 0, 0);
    OffsetIsProduct(n, 0, 0, 0);
    OffsetIsProduct(n, n, 0, 0);
    Distrib(b, 1, n);
    Distrib(a, 1, n * n);
  }

  /** `Basis3Operator(lattice)`: the one-operator entries, then the
      triples in nested lattice order. */
  method BuildBasis3(p: int, sites: seq<nat>) returns (b: Basis3Operator)
    ensures b.n == |sites| && b.nSquared == b.n * b.n
    ensures |b.terms| == b.n + b.n * b.n * b.n
    ensures forall k :: 0 <= k < b.n ==> b.terms[k] == OneOp(p, sites[k])
    ensures forall i1: nat, i2: nat, i3: nat :: i1 < b.n && i2 < b.n && i3 < b.n ==>
      b.terms[Get3OpIndex(b, i1, i2, i3)] == ThreeOp(p, sites[i1], sites[i2], sites[i3])
    ensures (forall k :: 0 <= k < |sites| ==> sites[k] == k) ==>
      forall i1: nat, i2: nat, i3: nat :: i1 < b.n && i2 < b.n && i3 < b.n ==>
        b.terms[Get3OpIndex(b, i1, i2, i3)] == ThreeOp(p, i1, i2, i3)
  {
    var n := |sites|;
    var terms: seq<Term<bool>> := [];
    var k := 0;
    while k < n
      invariant 0 <= k <= n
      invariant |terms| == k
      invariant forall j :: 0 <= j < k ==> terms[j] == OneOp(p, sites[j])
    {
      terms := terms + [OneOp(p, sites[k])];
      k := k + 1;
    }
    terms := AppendAllTriples(p, sites, terms);
    b := Basis3Operator(n, n * n, terms);
    ThreeOpsAtIndex(p, sites, b);
  }

  /** The loop over i1 (and within it i2 and i3). */
  method AppendAllTriples(p: int, sites: seq<nat>, terms: seq<Term<bool>>)
    returns (out: seq<Term<bool>>)
    requires |terms| == |sites|
    requires OneOpsFilled(p, sites, terms)
    ensures |out| == |sites| + |sites| * |sites| * |sites|
    ensures OneOpsFilled(p, sites, out) && ThreeOpsFilled(p, sites, out)
  {
    var n := |sites|;
    OffsetCarry(n, 0, 0);
    out := terms;
    var i1 := 0;
    while i1 < n
      invariant 0 <= i1 <= n
      invariant |out| == n + Offset(n, i1, 0, 0)
      invariant OneOpsFilled(p, sites, out) && ThreeOpsFilled(p, sites, out)
    {
      out := AppendTriplesWith(p, sites, out, i1);
      i1 := i1 + 1;
    }
    OffsetCarry(n, i1, 0);
  }

  /** The loop over i2 (and within it i3) for one value of i1. */
  method AppendTriplesWith(p: int, sites: seq<nat>, terms: seq<Term<bool>>, i1: nat)
    returns (out: seq<Term<bool>>)
    requires i1 < |sites|
    requires |terms| == |sites| + Offset(|sites|, i1, 0, 0)
    requires OneOpsFilled(p, sites, terms) && ThreeOpsFilled(p, sites, terms)
    ensures |out| == |sites| + Offset(|sites|, i1 + 1, 0, 0)
    ensures OneOpsFilled(p, sites, out) && ThreeOpsFilled(p, sites, out)
  {
    var n := |sites|;
    out := terms;
    var i2 := 0;
    while i2 < n
      invariant 0 <= i2 <= n
      invariant |out| == n + Offset(n, i1, i2, 0)
      invariant OneOpsFilled(p, sites, out) && ThreeOpsFilled(p, sites, out)
    {
      out := AppendTriplesWithPair(p, sites, out, i1, i2);
      i2 := i2 + 1;
    }
    OffsetCarry(n, i1, i2);
  }

  /** The loop over i3 for one pair (i1, i2). */
  method AppendTriplesWithPair(p: int, sites: seq<nat>, terms: seq<Term<bool>>, i1: nat, i2: nat)
    returns (out: seq<Term<bool>>)
    requires i1 < |sites| && i2 < |sites|
    requires |terms| == |sites| + Offset(|sites|, i1, i2, 0)
    requires OneOpsFilled(p, sites, terms) && ThreeOpsFilled(p, sites, terms)
    ensures |out| == |sites| + Offset(|sites|, i1, i2 + 1, 0)
    ensures OneOpsFilled(p, sites, out) && ThreeOpsFilled(p, sites, out)
  {
    var n := |sites|;
    out := terms;
    var i3 := 0;
    while i3 < n
      invariant 0 <= i3 <= n
      invariant |out| == n + Offset(n, i1, i2, i3)
      invariant OneOpsFilled(p, sites, out) && ThreeOpsFilled(p, sites, out)
    {
      var t := ThreeOp(p, sites[i1], sites[i2], sites[i3]);
      AppendKeepsOneOps(p, sites, out, t);
      AppendTriple(p, sites, out, i1, i2, i3);
      out := out + [t];
      i3 := i3 + 1;
    }
    OffsetCarry(n, i1, i2);
  }

  /** Once every triple is in place, `get_3op_index` finds each of them. */
  lemma ThreeOpsAtIndex(p: int, sites: seq<nat>, b: Basis3Operator)
    requires b.n == |sites| && b.nSquared == b.n * b.n
    requires |b.terms| == b.n + b.n * b.n * b.n
    requires ThreeOpsFilled(p, sites, b.terms)
    ensures forall i1: nat, i2: nat, i3: nat :: i1 < b.n && i2 < b.n && i3 < b.n ==>
      b.terms[Get3OpIndex(b, i1, i2, i3)] == ThreeOp(p, sites[i1], sites[i2], sites[i3])
    ensures (forall k :: 0 <= k < |sites| ==> sites[k] == k) ==>
      forall i1: nat, i2: nat, i3: nat :: i1 < b.n && i2 < b.n && i3 < b.n ==>
        b.terms[Get3OpIndex(b, i1, i2, i3)] == ThreeOp(p, i1, i2, i3)
  {
    forall i1: nat, i2: nat, i3: nat | i1 < b.n && i2 < b.n && i3 < b.n
      ensures b.terms[Get3OpIndex(b, i1, i2, i3)] == ThreeOp(p, sites[i1], sites[i2], sites[i3])
    {
      OffsetBound(b.n, i1, i2, i3);
    }
  }

  /** `get_3op_index` hits every slot after the one-operator entries
      exactly once. */
  lemma Get3OpIndexOnto(b: Basis3Operator, k: nat)
    requires b.n > 0 && b.nSquared == b.n * b.n
    requires b.n <= k < b.n + b.n * b.n * b.n
    ensures var t := Decode(b.n, k - b.n);
      t.0 < b.n && t.1 < b.n && t.2 < b.n && Get3OpIndex(b, t.0, t.1, t.2) == k
  {
    OffsetDecode(b.n, k - b.n);
  }

  lemma Get3OpIndexInjective(b: Basis3Operator, i1: nat, i2: nat, i3: nat, j1: nat, j2: nat, j3: nat)
    requires b.nSquared == b.n * b.n
    requires i1 < b.n && i2 < b.n && i3 < b.n && j1 < b.n && j2 < b.n && j3 < b.n
    requires Get3OpIndex(b, i1, i2, i3) == Get3OpIndex(b, j1, j2, j3)
    ensures i1 == j1 && i2 == j2 && i3 == j3
  {
    OffsetInjective(b.n, i1, i2, i3, j1, j2, j3);
  }

  /** The enumeration runs with i3 fastest, then i2, then i1. */
  lemma Get3OpIndexOrder(b: Basis3Operator, i1: nat, i2: nat, i3: nat)
    requires b.nSquared == b.n * b.n
    ensures i3 + 1 < b.n ==> Get3OpIndex(b, i1, i2, i3 + 1) == Get3OpIndex(b, i1, i2, i3) + 1
    ensures i3 + 1 == b.n && i2 + 1 < b.n ==>
      Get3OpIndex(b, i1, i2 + 1, 0) == Get3OpIndex(b, i1, i2, i3) + 1
    ensures i3 + 1 == b.n && i2 + 1 == b.n ==>
      Get3OpIndex(b, i1 + 1, 0, 0) == Get3OpIndex(b, i1, i2, i3) + 1
  {
    var n := b.n;
    assert n * (i2 + 1) == n * i2 + n;
    assert n * n * (i1 + 1) == n * n * i1 + n * n;
    assert n * (n - 1) == n * n - n;
  }

  // ---------------------------------------------------------------------
  // Conjugate bases

  /** `get_conjugate` as the code reads: the copy of the basis is returned,
      because the value returned by the `const` member `conjugate()` is
      dropped on every entry. */
  function Basis1ConjugateAsWritten(b: Basis1Operator): (r: Basis1Operator)
    ensures r.n == b.n && r.terms == b.terms
    ensures forall k :: 0 <= k < |b.terms| ==>
      CountCreators(r.terms[k].operators) == CountCreators(b.terms[k].operators)
  {
    b
  }

  function Basis3ConjugateAsWritten(b: Basis3Operator): (r: Basis3Operator)
    ensures r.n == b.n && r.nSquared == b.nSquared && r.terms == b.terms
    ensures forall k :: 0 <= k < |b.terms| ==>
      CountCreators(r.terms[k].operators) == CountCreators(b.terms[k].operators)
  {
    b
  }

  /** Entry-wise conjugates. */
  function ConjugateAll(ts: seq<Term<bool>>): (r: seq<Term<bool>>)
    ensures |r| == |ts|
    ensures forall k :: 0 <= k < |ts| ==> r[k] == Conjugate(ts[k])
  {
    seq(|ts|, k requires 0 <= k < |ts| => Conjugate(ts[k]))
  }

  /** The conjugate basis the code evidently intends: every entry replaced
      by its Hermitian conjugate. */
  function Basis1Conjugate(b: Basis1Operator): (r: Basis1Operator)
    ensures r.n == b.n && |r.terms| == |b.terms|
    ensures forall k :: 0 <= k < |b.terms| ==> r.terms[k] == Conjugate(b.terms[k])
    ensures forall k :: 0 <= k < |b.terms| ==>
      CountCreators(r.terms[k].operators) == |b.terms[k].operators| - CountCreators(b.terms[k].operators)
  {
    var r := Basis1Operator(b.n, ConjugateAll(b.terms));
    assert forall k :: 0 <= k < |b.terms| ==> r.terms[k] == Conjugate(b.terms[k]);
    forall k | 0 <= k < |b.terms|
      ensures CountCreators(r.terms[k].operators) == |b.terms[k].operators| - CountCreators(b.terms[k].operators)
    {
      ConjugateCountsCreators(b.terms[k]);
    }
    r
  }

  function Basis3Conjugate(b: Basis3Operator): (r: Basis3Operator)
    ensures r.n == b.n && r.nSquared == b.nSquared && |r.terms| == |b.terms|
    ensures forall k :: 0 <= k < |b.terms| ==> r.terms[k] == Conjugate(b.terms[k])
    ensures forall k :: 0 <= k < |b.terms| ==>
      CountCreators(r.terms[k].operators) == |b.terms[k].operators| - CountCreators(b.terms[k].operators)
  {
    var r := Basis3Operator(b.n, b.nSquared, ConjugateAll(b.terms));
    forall k | 0 <= k < |b.terms|
      ensures CountCreators(r.terms[k].operators) == |b.terms[k].operators| - CountCreators(b.terms[k].operators)
    {
      ConjugateCountsCreators(b.terms[k]);
    }
    r
  }

  lemma ConjugateAllInvolution(ts: seq<Term<bool>>)
    ensures ConjugateAll(ConjugateAll(ts)) == ts
  {
    forall k | 0 <= k < |ts|
      ensures ConjugateAll(ConjugateAll(ts))[k] == ts[k]
    {
      ConjugateInvolution(ts[k]);
    }
  }

  /** Conjugating a basis twice gives it back. */
  lemma Basis1ConjugateInvolution(b: Basis1Operator)
    ensures Basis1Conjugate(Basis1Conjugate(b)) == b
  {
    ConjugateAllInvolution(b.terms);
  }

  lemma Basis3ConjugateInvolution(b: Basis3Operator)
    ensures Basis3Conjugate(Basis3Conjugate(b)) == b
  {
    ConjugateAllInvolution(b.terms);
  }

  /** The conjugate of c^†_{s,↑} is c_{s,↑}. */
  lemma ConjugateOneOp(p: int, s: nat)
    ensures Conjugate(OneOp(p, s)) == Term(p, [Operator(false, s, true)])
  {
  }

  /** The conjugate of c^†_{s1,↑} c^†_{s2,↓} c_{s3,↓} is
      c^†_{s3,↓} c_{s2,↓} c_{s1,↑}. */
  lemma ConjugateThreeOp(p: int, s1: nat, s2: nat, s3: nat)
    ensures Conjugate(ThreeOp(p, s1, s2, s3))
         == Term(p, [Operator(true, s3, false), Operator(false, s2, false), Operator(false, s1, true)])
  {
  }

  /** The code as written returns every entry unchanged. A term with an
      odd number of operators is never its own conjugate (conjugation
      complements the number of creators), and every basis entry has one
      or three operators, so on any such entry the result differs from the
      conjugate basis. */
  lemma Basis1ConjugateAsWrittenIsNotConjugate(b: Basis1Operator, k: nat)
    requires k < |b.terms| && |b.terms[k].operators| % 2 == 1
    ensures Basis1ConjugateAsWritten(b).terms[k] == b.terms[k]
    ensures Basis1ConjugateAsWritten(b).terms[k] != Basis1Conjugate(b).terms[k]
  {
    var t := b.terms[k];
    assert CountCreators(Basis1Conjugate(b).terms[k].operators) == |t.operators| - CountCreators(t.operators);
  }

  lemma Basis3ConjugateAsWrittenIsNotConjugate(b: Basis3Operator, k: nat)
    requires k < |b.terms| && |b.terms[k].operators| % 2 == 1
    ensures Basis3ConjugateAsWritten(b).terms[k] == b.terms[k]
    ensures Basis3ConjugateAsWritten(b).terms[k] != Basis3Conjugate(b).terms[k]
  {
    var t := b.terms[k];
    assert CountCreators(Basis3Conjugate(b).terms[k].operators) == |t.operators| - CountCreators(t.operators);
  }
}
