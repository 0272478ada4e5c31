/**
 Fermionic creation and annihilation operators.

 An operator is the triple (creator, index, spin). Site indices are natural
 numbers; the spin type is a parameter, instantiated either with `bool` or
 with the one-valued `NoSpin` tag used by spin-less models.
 */
module Operators {

  /** The spin tag of spin-less models: every two tags are equal. */
  datatype NoSpin = NoSpin

  /** `creator` distinguishes c^† (true) from c (false). */
  datatype Operator<S> = Operator(creator: bool, index: nat, spin: S)

  /** Equality of two spin tags; there is only one tag, so it always holds. */
  function NoSpinEqual(a: NoSpin, b: NoSpin): (r: bool)
    ensures r
    ensures r <==> a == b
  {
    true
  }

  /** Inequality of two spin tags; never holds. */
  function NoSpinNotEqual(a: NoSpin, b: NoSpin): (r: bool)
    ensures !r
    ensures r <==> !NoSpinEqual(a, b)
  {
    false
  }

  /** Field-wise comparison: kind, then spin, then index. */
  function OperatorEqual<S(==)>(a: Operator<S>, b: Operator<S>): (r: bool)
    ensures r <==> a == b
  {
    a.creator == b.creator && a.spin == b.spin && a.index == b.index
  }

  /** Field-wise disagreement: some field differs. */
  function OperatorNotEqual<S(==)>(a: Operator<S>, b: Operator<S>): (r: bool)
    ensures r <==> !OperatorEqual(a, b)
    ensures r <==> a != b
  {
    a.creator != b.creator || a.spin != b.spin || a.index != b.index
  }

  function MakeCreator<S>(index: nat, spin: S): (r: Operator<S>)
    ensures r.creator && r.index == index && r.spin == spin
  {
    Operator(true, index, spin)
  }

  function MakeAnnihilator<S>(index: nat, spin: S): (r: Operator<S>)
    ensures !r.creator && r.index == index && r.spin == spin
  {
    Operator(false, index, spin)
  }

  /** Spin-less creator: the spin field holds the `NoSpin` tag. */
  function MakeSpinlessCreator(index: nat): (r: Operator<NoSpin>)
    ensures r.creator && r.index == index
  {
    Operator(true, index, NoSpin)
  }

  /** Spin-less annihilator: the spin field holds the `NoSpin` tag. */
  function MakeSpinlessAnnihilator(index: nat): (r: Operator<NoSpin>)
    ensures !r.creator && r.index == index
  {
    Operator(false, index, NoSpin)
  }

  /** Every operator equals itself. */
  lemma OperatorEqualReflexive<S>(a: Operator<S>)
    ensures OperatorEqual(a, a) && !OperatorNotEqual(a, a)
  {
  }

  /** A creator and an annihilator on the same site and spin always differ. */
  lemma CreatorIsNotAnnihilator<S>(index: nat, spin: S)
    ensures OperatorNotEqual(MakeCreator(index, spin), MakeAnnihilator(index, spin))
    ensures !OperatorEqual(MakeCreator(index, spin), MakeAnnihilator(index, spin))
  {
  }

  /** Two spin-less operators agree exactly when kind and index agree;
      the spin field never tells them apart. */
  lemma SpinlessEqualIff(a: Operator<NoSpin>, b: Operator<NoSpin>)
    ensures OperatorEqual(a, b) <==> a.creator == b.creator && a.index == b.index
  {
    assert NoSpinEqual(a.spin, b.spin);
  }

  /** Spin-less constructors: two of them build equal operators exactly when
      they are the same constructor on the same site. */
  lemma SpinlessConstructorsEqualIff(i: nat, j: nat)
    ensures OperatorEqual(MakeSpinlessCreator(i), MakeSpinlessCreator(j)) <==> i == j
    ensures OperatorEqual(MakeSpinlessAnnihilator(i), MakeSpinlessAnnihilator(j)) <==> i == j
    ensures !OperatorEqual(MakeSpinlessCreator(i), MakeSpinlessAnnihilator(j))
  {
  }
}
