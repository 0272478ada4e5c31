# Fermionic operator algebra of ieompp / hubbard, in Dafny

This project models the value-level algebra that the `ieompp` and `hubbard`
C++ libraries use to derive equations of motion for Hubbard-type models:

- **Operators** (`Operators`): a fermionic creator or annihilator `(creator, index, spin)`.
  Equality is structural. The spin type is a parameter, and `NoSpin` is the one-valued tag of spin-less models.
- **Terms** (`Terms`): a prefactor times an ordered product of operators.
  The module covers Hermitian conjugation, `make_term`, `same_operators`, `==` and `!=`.
- **Symbolic prefactors** (`Symbolic`): a value times a list of Kronecker deltas.
  Every `*=`, `*`, `make_prefactor` and `order_kroneckers` is modelled.
- **Sorting** (`Sorting`): order relations and the stable sort that stands in for `std::sort`.
- **Unique-term reduction** (`UniqueTerms`): `copy_as_unique_terms`.
  It inserts into a sorted working list at the `lower_bound` position.
  Terms with identical operator products are merged by adding their prefactors.
- **Operator bases** (`Basis`): `Basis1Operator` and `Basis3Operator`, their enumeration order, `get_3op_index` and `get_conjugate`.
- **Square lattice** (`Square`): the integer geometry of the periodic square discretisation.
  This covers `num`/`first`/`last`, iteration, `index`, `neighbours` and `unique_neighbours`.
- **Arith** (`Arith`): the division and multiplication facts that the index arithmetic relies on.

Site indices are `nat` and prefactor values are `int`, so sums and products are exact.
Operations that mutate in place in C++ (`*=`, `order_kroneckers`, `copy_as_unique_terms`) are functions or methods that return the updated value.
The `const` operations (`conjugate`, `operator*`, `get_conjugate`) cannot modify their operands, because Dafny datatypes are immutable values.

Two pieces of the core call code that is not part of this model:

- the term comparator `TermSmaller` from `term_comparison.hpp`;
- `Kronecker::order` from `kronecker.hpp`.

Both are parameters. The reduction takes `less`, a comparator on operator products.
Every ordering lemma names in its `requires` what it assumes of `less` (strict weak order, connectedness).
`order_kroneckers` takes `order`, whose result type `OrderedKronecker` states the one assumption made about it: it puts the smaller index first.

Three places in the code do not do what the surrounding code shows was meant. The model keeps each one as written and next to it the corrected version:

- The comparator in `order_kroneckers` (include/ieompp/symbolic/prefactor.hpp:68-76) compares `a` with `a` on its first test and `b` with `b` on its last, but `b` with `a` on the middle one. As a result, two non-diagonal deltas with the same first index are never ordered against each other (Findings, row 1).
- `get_conjugate` (include/ieompp/models/hubbard_real_space/basis.hpp:40-42 and 88-90) calls `conjugate()` on every entry of the copy. That shows the intent to conjugate each entry, but the result is discarded and the copy is returned unchanged (Findings, rows 2 and 3).
- `neighbours` (include/ieompp/discretization/detail/square_impl.hpp:50-54) mixes `num_x` and `num_y` in a way that inverts `index` only on square lattices (Findings, row 4).

`Basis1Operator` entries are modelled as the single creators c^†_{i,↑} and `Basis3Operator` triples as c^†_{i1,↑} c^†_{i2,↓} c_{i3,↓}, each with prefactor `p`. That is the evident intent of the brace initialisers at basis.hpp:30, 65 and 70-71, which target `prefactor` as written (see "## Left out").

## Model

| member | source | states |
|---|---|---|
| `Operators.NoSpinEqual` | include/hubbard/algebra/detail/operator_impl.hpp:8-12 | any two spin-less tags compare equal |
| `Operators.NoSpinNotEqual` | include/hubbard/algebra/detail/operator_impl.hpp:14-17 | `!=` on spin-less tags is always false, the negation of `==` |
| `Operators.OperatorEqual` | include/hubbard/algebra/detail/operator_impl.hpp:19-25 | operator `==` holds exactly when creator flag, spin and index all agree, i.e. the operators are the same value |
| `Operators.OperatorNotEqual` | include/hubbard/algebra/detail/operator_impl.hpp:27-33 | operator `!=` is exactly the negation of `==` for every pair |
| `Operators.MakeCreator` | include/hubbard/algebra/detail/operator_impl.hpp:35-39 | `make_creator(i, s)` is a creator with index i and spin s |
| `Operators.MakeSpinlessCreator` | include/hubbard/algebra/detail/operator_impl.hpp:41-45 | the spin-less creator is a creator at the given index |
| `Operators.MakeAnnihilator` | include/hubbard/algebra/detail/operator_impl.hpp:47-51 | `make_annihilator(i, s)` is an annihilator with index i and spin s |
| `Operators.MakeSpinlessAnnihilator` | include/hubbard/algebra/detail/operator_impl.hpp:53-57 | the spin-less annihilator is an annihilator at the given index |
| `Operators.OperatorEqualReflexive` | include/hubbard/algebra/detail/operator_impl.hpp:19-33 | every operator is `==` to itself and not `!=` to itself |
| `Operators.CreatorIsNotAnnihilator` | include/hubbard/algebra/detail/operator_impl.hpp:35-51 | the creator and annihilator on one site and spin are always different |
| `Operators.SpinlessEqualIff` | include/hubbard/algebra/detail/operator_impl.hpp:8-25 | two spin-less operators are equal iff creator flag and index match; the spin never separates them |
| `Operators.SpinlessConstructorsEqualIff` | include/hubbard/algebra/detail/operator_impl.hpp:41-57 | two spin-less constructors build equal operators iff same kind and same site; a creator never equals an annihilator |
| `Terms.Flip` | include/ieompp/algebra/term.hpp:30 | flipping negates the creator flag and keeps index and spin |
| `Terms.ReverseFlip` | include/ieompp/algebra/term.hpp:28-30 | position k of the result is the flipped operator from position n-1-k |
| `Terms.Conjugate` | include/ieompp/algebra/term.hpp:25-32 | the conjugate keeps the prefactor unconjugated and the length; operator k is operator n-1-k with the creator flag negated |
| `Terms.ConjugateInvolution` | include/ieompp/algebra/term.hpp:25-32 | conjugating twice gives the original term back |
| `Terms.ConjugateOfScalar` | include/ieompp/algebra/term.hpp:27-29 | a term without operators is its own conjugate |
| `Terms.ConjugateCountsCreators` | include/ieompp/algebra/term.hpp:28-30 | conjugation turns the number of creators c into n - c |
| `Terms.CountCreatorsReverseFlip` | include/ieompp/algebra/term.hpp:28-30 | reversing and flipping complements the creator count |
| `Terms.MakeTerm` | include/ieompp/algebra/term.hpp:35-42 | `make_term(p, ops)` has prefactor p and exactly `ops`, in order |
| `Terms.SameOperators` | include/hubbard/algebra/term.hpp:34-40 | true iff the two operator products have equal length and are element-wise equal in order; the prefactors are ignored |
| `Terms.TermEqual` | include/hubbard/algebra/term.hpp:43-52 | true iff the prefactors are equal and the operators are the same; it coincides with value equality |
| `Terms.TermNotEqual` | include/hubbard/algebra/term.hpp:54-62 | true iff the prefactors differ or the operators differ; exactly the negation of `==` |
| `Terms.EqualImpliesSameOperators` | include/hubbard/algebra/term.hpp:34-52 | equal terms always have the same operators |
| `Sorting.Insert` | include/ieompp/symbolic/prefactor.hpp:67-76 | inserting keeps every element and adds one |
| `Sorting.InsertionSort` | include/ieompp/symbolic/prefactor.hpp:67-76 | the sort returns a permutation of its input |
| `Sorting.InsertSorted` | include/ieompp/symbolic/prefactor.hpp:67-76 | under a strict partial order, inserting into a sorted list keeps it sorted |
| `Sorting.InsertionSortSorted` | include/ieompp/symbolic/prefactor.hpp:67-76 | under a strict partial order the sort's output is sorted |
| `Sorting.SortedUnique` | include/ieompp/symbolic/prefactor.hpp:67-76 | under a strict total order two sorted permutations of each other are equal |
| `Sorting.InsertionSortCanonical` | include/ieompp/symbolic/prefactor.hpp:67-76 | under a strict total order, permutations of one list sort to the same list |
| `Symbolic.MakeScalar` | include/ieompp/symbolic/prefactor.hpp:80-86 | `make_prefactor(v)` has value v and no deltas |
| `Symbolic.MakePrefactor` | include/ieompp/symbolic/prefactor.hpp:81-85 | `make_prefactor(v, {...})` has value v and the given deltas in order |
| `Symbolic.MulKronecker` | include/ieompp/symbolic/prefactor.hpp:25-29 | `*= δ` keeps the value and the old deltas and puts δ last |
| `Symbolic.MulKroneckers` | include/ieompp/symbolic/prefactor.hpp:31-35 | `*= [δ...]` keeps the value and appends all of the new deltas, in order, after the old ones |
| `Symbolic.MulPrefactor` | include/ieompp/symbolic/prefactor.hpp:37-45 | `*= q` multiplies the values; the old deltas come first and then q's |
| `Symbolic.MulNumber` | include/ieompp/symbolic/prefactor.hpp:47-52 | `*= number` scales the value only and leaves the deltas untouched |
| `Symbolic.Times` | include/ieompp/symbolic/prefactor.hpp:54-60 | `a * b` equals "copy a, then `*= b`" and has \|a\| + \|b\| deltas |
| `Symbolic.MulKroneckersAgreesWithTimes` | include/ieompp/symbolic/prefactor.hpp:31-60 | appending a delta list equals multiplying by a prefactor of value 1 with those deltas |
| `Symbolic.TimesAssociative` | include/ieompp/symbolic/prefactor.hpp:37-60 | prefactor multiplication is associative |
| `Symbolic.TimesUnit` | include/ieompp/symbolic/prefactor.hpp:54-86 | `make_prefactor(1)` is a two-sided unit of multiplication |
| `Symbolic.OrderAll` | include/ieompp/symbolic/prefactor.hpp:64-66 | every delta is replaced by its ordered form, position by position |
| `Symbolic.OrderKroneckersAsWritten` | include/ieompp/symbolic/prefactor.hpp:62-77 | `order_kroneckers` keeps the value and yields a permutation of the ordered deltas. First indices never decrease, and within one first index diagonal deltas come first |
| `Symbolic.KroneckerLessAsWritten` | include/ieompp/symbolic/prefactor.hpp:68-76 | the comparator lambda as written; on ordered deltas it holds iff the first index is smaller, or the first indices agree and only the left delta is diagonal |
| `Symbolic.KroneckerLessAsWrittenMeaning` | include/ieompp/symbolic/prefactor.hpp:68-76 | on ordered deltas the comparator means "smaller first index, or the same first index with a diagonal delta before a non-diagonal one" |
| `Symbolic.AsWrittenIsStrictWeakOrder` | include/ieompp/symbolic/prefactor.hpp:68-76 | on ordered deltas the comparator is a strict weak order, as `std::sort` requires |
| `Symbolic.AsWrittenIsNotTotal` | include/ieompp/symbolic/prefactor.hpp:72-75 | δ(1,2) and δ(1,3) are distinct yet neither is less than the other |
| `Symbolic.SortedAsWrittenMeaning` | include/ieompp/symbolic/prefactor.hpp:67-76 | a list is sorted under the comparator iff first indices never decrease and diagonals lead their group |
| `Symbolic.LexIsStrictTotalOrder` | include/ieompp/symbolic/prefactor.hpp:67-76 | the lexicographic order on ordered deltas is a strict total order |
| `Symbolic.OrderKroneckers` | include/ieompp/symbolic/prefactor.hpp:62-77 | corrected ordering: value kept, deltas a permutation of the ordered ones, each with a <= b, lexicographically sorted |
| `Symbolic.OrderAllConcat` | include/ieompp/symbolic/prefactor.hpp:64-66 | ordering each delta commutes with concatenation |
| `Symbolic.OrderAllRemove` | include/ieompp/symbolic/prefactor.hpp:64-66 | removing one delta removes its ordered form from the ordered multiset |
| `Symbolic.MultisetOrderAllConcat` | include/ieompp/symbolic/prefactor.hpp:64-66 | the ordered multiset of a concatenation is the sum of the parts' |
| `Symbolic.OrderAllPermutation` | include/ieompp/symbolic/prefactor.hpp:64-66 | ordering each delta of two rearranged lists gives rearranged lists |
| `Symbolic.OrderKroneckersCanonical` | include/ieompp/symbolic/prefactor.hpp:62-77 | with the corrected ordering, equal values and rearranged ordered deltas give identical prefactors, e.g. δ(2,1)δ(1,3) and δ(1,3)δ(1,2) |
| `Symbolic.OrderKroneckersOfRearranged` | include/ieompp/symbolic/prefactor.hpp:62-77 | in particular, rearranging the raw deltas of a prefactor leaves its corrected ordering unchanged |
| `Symbolic.SortPair` | include/ieompp/symbolic/prefactor.hpp:64-66 | one admissible `order`: the same pair with the smaller index first |
| `Symbolic.OrderKroneckersAsWrittenNotCanonical` | include/ieompp/symbolic/prefactor.hpp:67-76 | δ(1,3)δ(1,2) and δ(1,2)δ(1,3) are both sorted under the comparator. The as-written results differ while the corrected ones coincide |
| `UniqueTerms.LowerBound` | include/ieompp/algebra/unique_term_list.hpp:22 | `lower_bound` returns the first position whose term is not less than t, and every earlier term is less |
| `UniqueTerms.Step` | include/ieompp/algebra/unique_term_list.hpp:22-30 | a same-operators term at the lower bound absorbs t's prefactor and the length is unchanged. Otherwise t lands at the lower bound, and the terms before and after it are kept |
| `UniqueTerms.StepPreserves` | include/ieompp/algebra/unique_term_list.hpp:22-30 | a step adds t's prefactor to the total and to the total of t's operator product only. It adds t's operator product to the set present, and grows the list by at most one |
| `UniqueTerms.Reduce` | include/ieompp/algebra/unique_term_list.hpp:19-31 | empty input gives nothing, otherwise 1 to \|original\| terms. The prefactor total, the total per operator product and the set of operator products all equal those of the input |
| `UniqueTerms.CopyAsUniqueTerms` | include/ieompp/algebra/unique_term_list.hpp:14-33 | `result` keeps its contents, and the reduced terms are appended behind them. Nothing is appended for empty input, otherwise 1 to \|original\| terms. The sum and the operator products are those of the input |
| `UniqueTerms.LowerBoundPartitions` | include/ieompp/algebra/unique_term_list.hpp:22 | on a list sorted by a strict weak order, no term at or after the lower bound is less than t |
| `UniqueTerms.StepSorted` | include/ieompp/algebra/unique_term_list.hpp:22-30 | with a strict weak order a step keeps the working list sorted |
| `UniqueTerms.StepDistinct` | include/ieompp/algebra/unique_term_list.hpp:22-30 | with a strict weak order total on distinct products, a step creates no second term with the same operators |
| `UniqueTerms.ReduceSorted` | include/ieompp/algebra/unique_term_list.hpp:21-31 | with a strict weak order the working list is sorted after every step |
| `UniqueTerms.ReduceDistinct` | include/ieompp/algebra/unique_term_list.hpp:21-31 | with a comparator total on distinct products, no two reduced terms share an operator product |
| `UniqueTerms.ReducedPrefactorIsSumOfMatches` | include/ieompp/algebra/unique_term_list.hpp:27-28 | with a comparator that is a strict weak order and total on distinct products, each reduced term's prefactor is the sum of the prefactors of all input terms with its operators |
| `UniqueTerms.ReduceOfStrictlyIncreasing` | include/ieompp/algebra/unique_term_list.hpp:23-26 | a strictly increasing input is appended term by term and comes back unchanged |
| `UniqueTerms.ReduceIdempotent` | include/ieompp/algebra/unique_term_list.hpp:14-33 | with a total comparator, reducing an already reduced list changes nothing |
| `UniqueTerms.ReduceMergesPair` | include/ieompp/algebra/unique_term_list.hpp:27-28 | two terms with the same operators merge into one carrying the summed prefactor |
| `UniqueTerms.SumConcat` | include/ieompp/algebra/unique_term_list.hpp:28 | the prefactor total of a concatenation is the sum of the parts' totals |
| `UniqueTerms.SumWithConcat` | include/ieompp/algebra/unique_term_list.hpp:28 | the same holds for the total of one operator product |
| `UniqueTerms.SumsOfThree` | include/ieompp/algebra/unique_term_list.hpp:30 | totals and operator sets of `a + [x] + b` decompose into the parts |
| `UniqueTerms.SumSplit` | include/ieompp/algebra/unique_term_list.hpp:30 | inserting x at a position adds x's prefactor and operator product |
| `UniqueTerms.SumReplace` | include/ieompp/algebra/unique_term_list.hpp:28 | replacing a term by one with the same operators shifts the totals by the prefactor difference and keeps the operator set |
| `UniqueTerms.OpsSetConcat` | include/ieompp/algebra/unique_term_list.hpp:32 | the operator products of a concatenation are the union of the parts' |
| `UniqueTerms.OpsSetAppend` | include/ieompp/algebra/unique_term_list.hpp:24 | appending a term adds exactly its operator product |
| `UniqueTerms.SumWithDistinct` | include/ieompp/algebra/unique_term_list.hpp:27-28 | in a list without repeated products, the total for a term's product is that term's prefactor |
| `UniqueTerms.SumWithAbsent` | include/ieompp/algebra/unique_term_list.hpp:27-28 | a product that occurs nowhere has total 0 |
| `Basis.BuildBasis1` | include/ieompp/models/hubbard_real_space/basis.hpp:21-32 | the basis has N = lattice size entries, and entry k is the single creator c^†_{site k, ↑} |
| `Basis.BuildBasis3` | include/ieompp/models/hubbard_real_space/basis.hpp:56-75 | there are N + N^3 entries: the N one-operator entries first, then the triple c^†_{i1,↑} c^†_{i2,↓} c_{i3,↓} at `get_3op_index(i1, i2, i3)`. For the lattice 0..N-1 the sites are i1, i2, i3 themselves |
| `Basis.Get3OpIndex` | include/ieompp/models/hubbard_real_space/basis.hpp:77-80 | for indices in [0, N), the index lies in [N, N + N^3) and is N plus the triple's position in nested order |
| `Basis.Get3OpIndexInjective` | include/ieompp/models/hubbard_real_space/basis.hpp:77-80 | distinct triples in [0, N)^3 get distinct indices |
| `Basis.Get3OpIndexOnto` | include/ieompp/models/hubbard_real_space/basis.hpp:77-80 | every slot in [N, N + N^3) is the index of a triple in range |
| `Basis.Get3OpIndexOrder` | include/ieompp/models/hubbard_real_space/basis.hpp:67-80 | the enumeration advances i3 fastest, then i2, then i1 |
| `Basis.DecodeOffset` | include/ieompp/models/hubbard_real_space/basis.hpp:79 | decoding a triple's position gives the triple back |
| `Basis.OffsetDecode` | include/ieompp/models/hubbard_real_space/basis.hpp:79 | every position below N^3 decodes to a triple in range that encodes back to it |
| `Basis.OffsetBound` | include/ieompp/models/hubbard_real_space/basis.hpp:79 | triples in range have positions below N^3 |
| `Basis.OffsetInjective` | include/ieompp/models/hubbard_real_space/basis.hpp:79 | distinct triples have distinct positions |
| `Basis.AppendTriple` | include/ieompp/models/hubbard_real_space/basis.hpp:70-71 | appending the next triple keeps every entry so far in place |
| `Basis.AppendKeepsOneOps` | include/ieompp/models/hubbard_real_space/basis.hpp:64-66 | appending any entry leaves the N one-operator entries in place |
| `Basis.AppendTriplesWithPair` | include/ieompp/models/hubbard_real_space/basis.hpp:69-72 | one run of the innermost loop moves the length from the position of (i1, i2, 0) to that of (i1, i2 + 1, 0) and keeps every entry in place |
| `Basis.AppendTriplesWith` | include/ieompp/models/hubbard_real_space/basis.hpp:68-73 | one run of the middle loop moves the length from the position of (i1, 0, 0) to that of (i1 + 1, 0, 0) and keeps every entry in place |
| `Basis.AppendAllTriples` | include/ieompp/models/hubbard_real_space/basis.hpp:67-74 | the outer loop appends exactly N^3 triples after the one-operator entries, each at its position in nested order |
| `Basis.OffsetCarry` | include/ieompp/models/hubbard_real_space/basis.hpp:67-72 | the position after the last triple (a, b, N-1) is that of (a, b + 1, 0), after (a, N-1, N-1) comes (a + 1, 0, 0), and the enumeration spans 0 .. N^3 - 1 |
| `Basis.ThreeOpsAtIndex` | include/ieompp/models/hubbard_real_space/basis.hpp:77-80 | once every triple is in place, `get_3op_index` finds each one; on the lattice 0..N-1 the triple's sites are its indices |
| `Basis.OffsetIsProduct` | include/ieompp/models/hubbard_real_space/basis.hpp:79 | the nested-order position of (a, b, c) is N^2 a + N b + c |
| `Basis.OffsetTopDigit` | include/ieompp/models/hubbard_real_space/basis.hpp:79 | dividing the position by N^2 gives the outermost index |
| `Basis.OffsetLowDigit` | include/ieompp/models/hubbard_real_space/basis.hpp:79 | dividing the position by N gives N a + b, with remainder c |
| `Basis.Basis1ConjugateAsWritten` | include/ieompp/models/hubbard_real_space/basis.hpp:34-45 | `get_conjugate` as written returns the copy: same N and the same entries, so every entry keeps its creator count where a conjugate would complement it |
| `Basis.Basis3ConjugateAsWritten` | include/ieompp/models/hubbard_real_space/basis.hpp:82-93 | the same for the three-operator basis: same N, N^2 and entries, creator counts unchanged |
| `Basis.ConjugateAll` | include/ieompp/models/hubbard_real_space/basis.hpp:40-42 | the entries in the same number, each one conjugated |
| `Basis.Basis1Conjugate` | include/ieompp/models/hubbard_real_space/basis.hpp:34-45 | corrected `get_conjugate`: same N and size, entry k is the Hermitian conjugate of entry k, so its creator count is complemented |
| `Basis.Basis3Conjugate` | include/ieompp/models/hubbard_real_space/basis.hpp:82-93 | corrected `get_conjugate`: same N, N^2 and size, entry k is the Hermitian conjugate of entry k, so its creator count is complemented |
| `Basis.ConjugateAllInvolution` | include/ieompp/models/hubbard_real_space/basis.hpp:40-42 | conjugating all entries twice gives them back |
| `Basis.Basis1ConjugateInvolution` | include/ieompp/models/hubbard_real_space/basis.hpp:34-45 | the corrected conjugate basis of the conjugate basis is the basis |
| `Basis.Basis3ConjugateInvolution` | include/ieompp/models/hubbard_real_space/basis.hpp:82-93 | the same for the three-operator basis |
| `Basis.ConjugateOneOp` | include/ieompp/models/hubbard_real_space/basis.hpp:30 | the conjugate of c^†_{s,↑} is c_{s,↑} |
| `Basis.ConjugateThreeOp` | include/ieompp/models/hubbard_real_space/basis.hpp:70-71 | the conjugate of c^†_{s1,↑} c^†_{s2,↓} c_{s3,↓} is c^†_{s3,↓} c_{s2,↓} c_{s1,↑} |
| `Basis.Basis1ConjugateAsWrittenIsNotConjugate` | include/ieompp/models/hubbard_real_space/basis.hpp:36-42 | the code returns each entry unchanged, which differs from its conjugate for every odd-length entry |
| `Basis.Basis3ConjugateAsWrittenIsNotConjugate` | include/ieompp/models/hubbard_real_space/basis.hpp:84-90 | the same for the three-operator basis |
| `Arith.DivModUnique` | include/ieompp/discretization/detail/square_impl.hpp:50-51 | a quotient and a remainder in range determine division and remainder |
| `Arith.DigitBound` | include/ieompp/models/hubbard_real_space/basis.hpp:79 | two base-n digits make a number below n^2 |
| `Square.MakeSquare` | include/ieompp/discretization/detail/square_impl.hpp:11-37 | the constructors need positive extents and set num = numX * numY > 0, first = 0, last = num - 1 |
| `Square.Range` | include/ieompp/discretization/detail/square_impl.hpp:165-205 | the iterator range lo .. hi-1 has hi - lo entries, entry k being lo + k |
| `Square.SitesOfValid` | include/ieompp/discretization/detail/square_impl.hpp:165-205 | iteration visits exactly 0 .. num-1, once each and in order |
| `Square.Index` | include/ieompp/discretization/detail/square_impl.hpp:39-44 | `index(i, j)` of a row below numY and a column below numX is a site |
| `Square.CellBound` | include/ieompp/discretization/detail/square_impl.hpp:43 | a row-major position of a cell in range is below rows * cols |
| `Square.IndexDecompose` | include/ieompp/discretization/detail/square_impl.hpp:43 | `index` is inverted by dividing by numX and taking the remainder |
| `Square.DecomposeIndex` | include/ieompp/discretization/detail/square_impl.hpp:43 | every site decomposes into an in-range cell whose `index` it is |
| `Square.NeighboursAsWritten` | include/ieompp/discretization/detail/square_impl.hpp:46-55 | `neighbours` returns four indices. They are sites whenever num_x <= num_y (`Square.NeighboursAsWrittenInRangeNarrow`), though not the adjacent sites unless num_x == num_y. They can fall outside 0 .. num-1 when num_x > num_y, e.g. 7 and 9 for site 5 on 3 x 2 |
| `Square.UniqueNeighboursAsWritten` | include/ieompp/discretization/detail/square_impl.hpp:57-65 | `unique_neighbours` returns two indices, entries 2 and 3 of `neighbours`: sites whenever num_x <= num_y, possibly outside 0 .. num-1 when num_x > num_y (9 for site 5 on 3 x 2) |
| `Square.UniqueNeighboursAreLastTwo` | include/ieompp/discretization/detail/square_impl.hpp:53-64 | `unique_neighbours(idx)` is entries 2 and 3 of `neighbours(idx)` |
| `Square.NeighboursAsWrittenOutOfRange` | include/ieompp/discretization/detail/square_impl.hpp:50-53 | on a 3 x 2 lattice, site 5's second neighbour is 7, which is not a site |
| `Square.PrevNextInverse` | include/ieompp/discretization/detail/square_impl.hpp:53-54 | periodic steps back and forward stay in range and undo each other |
| `Square.NeighbourCellsInRange` | include/ieompp/discretization/detail/square_impl.hpp:52-54 | the four cells next to a cell in range are sites |
| `Square.Neighbours` | include/ieompp/discretization/detail/square_impl.hpp:46-55 | corrected neighbours: four of them, all sites on any valid lattice |
| `Square.UniqueNeighbours` | include/ieompp/discretization/detail/square_impl.hpp:57-65 | corrected unique neighbours are entries 2 and 3 of the corrected neighbours |
| `Square.NeighboursAsWrittenOnSquare` | include/ieompp/discretization/detail/square_impl.hpp:46-65 | when numX == numY the code's neighbours and unique neighbours are the row-major ones |
| `Square.NeighboursAsWrittenInRange` | include/ieompp/discretization/detail/square_impl.hpp:46-55 | for numX == numY == n and idx < n^2, every neighbour is below n^2 |
| `Square.NeighboursAsWrittenInRangeNarrow` | include/ieompp/discretization/detail/square_impl.hpp:50-54 | whenever numX <= numY, every index the code computes for a site is again a site |
| `Square.NeighbourOpposite` | include/ieompp/discretization/detail/square_impl.hpp:52-54 | corrected neighbours: stepping to a neighbour and back in the opposite direction returns to the start (for the code's neighbours this holds on square lattices, by `Square.NeighboursAsWrittenOnSquare`) |
| `Square.NeighboursSymmetric` | include/ieompp/discretization/detail/square_impl.hpp:46-55 | corrected neighbours: on any valid lattice, a is a neighbour of b iff b is a neighbour of a |
| `Square.NeighboursAsWrittenSymmetric` | include/ieompp/discretization/detail/square_impl.hpp:46-55 | on a square lattice the code's neighbour relation is symmetric |

## Left out

- `TermSmaller` (`term_comparison.hpp`) is not part of this model. The reduction takes `less` on operator products, so it is assumed to ignore prefactors.
  If the real comparator broke ties by prefactor, `lower_bound` could step past a term with the same operators and insert a duplicate.
- `Kronecker::order` (`kronecker.hpp`) is not part of this model. It is the parameter `order`, assumed to put the smaller index first.
- `std::sort` is modelled by one admissible outcome, a stable insertion sort.
  The properties of `Symbolic.OrderKroneckersAsWritten` hold for every arrangement sorted under the comparator, but which one `std::sort` returns is unspecified.
- `Symbolic.OrderKroneckersAsWritten`: its contract says what the comparator guarantees (first indices non-decreasing, diagonals first). It does not pin down the order of non-diagonal deltas with the same first index, because the code leaves that order unspecified.
- `UniqueTerms.CopyAsUniqueTerms`: sortedness and distinctness of the appended terms hold only under assumptions about the comparator. They are proved in `UniqueTerms.ReduceSorted` and `UniqueTerms.ReduceDistinct` rather than stated on the method.
- The `std::list` working list is a sequence.
- Self-aliased `*=` (`p *= p.kroneckers`, prefactor.hpp:33, and `p *= p`, prefactor.hpp:40-41) copies from a vector into a `back_inserter` on the same vector. If `push_back` reallocates, the source iterators are invalidated, so the source's behaviour is undefined. `Symbolic.MulKroneckers` and `Symbolic.MulPrefactor` model it as appending a copy of the deltas as they were before the call.
- `Basis.BuildBasis1`, `Basis.BuildBasis3`: N is the length of the site list the loops visit. The code takes N from `lattice.size()` (basis.hpp:24 and 59) and assumes it equals the number of sites `for (auto i : lattice)` visits. For `Square` that holds by `Square.SitesOfValid`. For other lattices it is an assumption.
- `lower_bound` is modelled by its result (first position not less than t), not by its binary search.
- Prefactor values are integers. The drivers use `double` and complex numbers, and floating-point rounding is not modelled.
- Index types are unbounded naturals. Wrap-around of `size_t`/`uint64_t` (for example in `N * N * N` or `num_x * num_y`) is not modelled.
- `Basis.BuildBasis1`, `Basis.BuildBasis3`: the model builds the evidently intended one- and three-operator products with prefactor `p`. As written, `Monomial{{{true, i, true}}}` (basis.hpp:30 and 65) and the triple at basis.hpp:70-71 pass a single braced clause. Both term types declare `prefactor` before `operators` (include/ieompp/algebra/term.hpp:22-23, include/hubbard/algebra/term.hpp:29-32), so that clause initialises `prefactor` and leaves `operators` empty. For a scalar prefactor such as `double` or `Complex` the line does not compile. The code's own tests put the prefactor first.
- The `reserve` calls in the basis constructors are capacity hints with no effect on contents.
- OpenMP `parallel for` in `get_conjugate` is modelled as a sequential map, because the iterations are independent.
- `static_assert` and the `IsOneOperatorBasis`/`IsThreeOperatorBasis` traits are compile-time only.
- The `assert`s in the square constructors are preconditions of `Square.MakeSquare`.
- The floating-point parts of the square lattice are out of scope: `closest`, `operator[]`, `operator()`, the real extents and the lattice vectors.
- All `operator<<` renderings (Operator, Term, Prefactor) are text output only.
- The drivers, the dispersion, the Hamiltonian declarations and the tests are outside the modelled core.

## Findings

| source | as written | input that shows it | evidently intended | confidence | as-written member | corrected member |
|---|---|---|---|---|---|---|
| include/ieompp/symbolic/prefactor.hpp:72-75 | the second test compares the left delta's second index with the right delta's first index, so non-diagonal deltas with the same first index are never ordered | the products δ(1,3)δ(1,2) and δ(1,2)δ(1,3) are both already sorted, so equal prefactors keep different delta lists | sort lexicographically by (a, b), so that rearranged deltas give identical prefactors | not executed; high | `Symbolic.OrderKroneckersAsWrittenNotCanonical` | `Symbolic.OrderKroneckersCanonical` |
| include/ieompp/models/hubbard_real_space/basis.hpp:41 | the value returned by the `const` member `conjugate()` is discarded, so the copied basis is returned unchanged | any basis with lattice size at least 1: entry 0 stays c^†_{s,↑} instead of c_{s,↑} | assign each conjugated entry back into the copy | not executed; high | `Basis.Basis1ConjugateAsWrittenIsNotConjugate` | `Basis.Basis1Conjugate` |
| include/ieompp/models/hubbard_real_space/basis.hpp:89 | the same discarded `conjugate()` result in the three-operator basis | any basis with lattice size at least 1: entry 0 stays c^†_{s,↑} | assign each conjugated entry back into the copy | not executed; high | `Basis.Basis3ConjugateAsWrittenIsNotConjugate` | `Basis.Basis3Conjugate` |
| include/ieompp/discretization/detail/square_impl.hpp:50-54 | the row is taken as idx / num_y and the column as idx % num_x. The row wraps against num_x and the column against num_y, which inverts `index` only when num_x == num_y | num_x = 3, num_y = 2, idx = 5: the second neighbour is 7, but only 6 sites exist | row idx / num_x wrapping against num_y, column idx % num_x wrapping against num_x, consistent with `index` | not executed; medium (rectangular lattices may never be used) | `Square.NeighboursAsWrittenOutOfRange` | `Square.NeighboursSymmetric` |
