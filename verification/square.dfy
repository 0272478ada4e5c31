/**
 Integer geometry of the periodic square discretisation.

 Sites are numbered 0 .. num-1 with `index(i, j) = i * numX + j`.
 `neighbours(idx)` lists the four sites next to `idx` with periodic wrap:
 up, left, down and right; `unique_neighbours(idx)` lists the last two.

 The code decomposes `idx` as `(idx / numY, idx % numX)` and wraps the
 first coordinate against `numX` and the second against `numY`. That only
 inverts `index` when `numX == numY`. The model keeps that arithmetic as
 written and also gives the row-major version consistent with `index`
 (rows wrap against `numY`, columns against `numX`), which the properties
 for non-square lattices are proved about.
 */
module Square {
  import opened Arith

  datatype Square = Square(numX: nat, numY: nat, num: nat, first: nat, last: nat)

  /** The constructors: both extents must be positive. */
  function MakeSquare(numX: nat, numY: nat): (s: Square)
    requires numX > 0 && numY > 0
    ensures s.numX == numX && s.numY == numY
    ensures s.num == numX * numY && s.num > 0
    ensures s.first == 0 && s.last + 1 == s.num
  {
    MulLe(1, numX, numY);
    Square(numX, numY, numX * numY, 0, numX * numY - 1)
  }

  /** What the constructors establish. */
  predicate Valid(s: Square) {
    s.numX > 0 && s.numY > 0 && s.num == s.numX * s.numY && s.first == 0 && s.last + 1 == s.num
  }

  /** The half-open range lo .. hi-1. */
  function Range(lo: nat, hi: nat): (r: seq<nat>)
    ensures |r| == if lo <= hi then hi - lo else 0
    ensures forall k :: 0 <= k < |r| ==> r[k] == lo + k
    decreases hi - lo
  {
    if lo >= hi then [] else [lo] + Range(lo + 1, hi)
  }

  /** The sites visited by iterating from `begin()` to `end()`. */
  function Sites(s: Square): seq<nat> {
    Range(s.first, s.last + 1)
  }

  /** Iteration visits every site 0 .. num-1 once, in increasing order. */
  lemma SitesOfValid(s: Square)
    requires Valid(s)
    ensures |Sites(s)| == s.num
    ensures forall k :: 0 <= k < s.num ==> Sites(s)[k] == k
    ensures forall idx: nat :: idx in Sites(s) <==> idx < s.num
  {
    var r := Sites(s);
    forall idx: nat | idx < s.num
      ensures idx in r
    {
      assert r[idx] == idx;
    }
  }

  /** `index(i, j)`. */
  function Index(s: Square, i: nat, j: nat): (r: nat)
    ensures Valid(s) && i < s.numY && j < s.numX ==> r < s.num
  {
    if Valid(s) && i < s.numY && j < s.numX then
      CellBound(i, j, s.numY, s.numX);
      i * s.numX + j
    else
      i * s.numX + j
  }

  lemma CellBound(i: nat, j: nat, rows: nat, cols: nat)
    requires i < rows && j < cols
    ensures i * cols + j < rows * cols
  {
    Distrib(i, 1, cols);
    MulLe(i + 1, rows, cols);
  }

  /** `index` is inverted by row-major decomposition. */
  lemma IndexDecompose(s: Square, i: nat, j: nat)
    requires j < s.numX
    ensures Index(s, i, j) / s.numX == i && Index(s, i, j) % s.numX == j
  {
    DivModUnique(Index(s, i, j), s.numX, i, j);
  }

  /** Row-major decomposition is inverted by `index`. */
  lemma DecomposeIndex(s: Square, idx: nat)
    requires Valid(s) && idx < s.num
    ensures idx / s.numX < s.numY && idx % s.numX < s.numX
    ensures Index(s, idx / s.numX, idx % s.numX) == idx
  {
    if idx / s.numX >= s.numY {
      MulLe(s.numY, idx / s.numX, s.numX);
      assert false;
    }
  }

  // ---------------------------------------------------------------------
  // Neighbours as the code computes them

  /** `neighbours(idx)`: up, left, down, right. */
  function NeighboursAsWritten(s: Square, idx: nat): (r: seq<nat>)
    requires s.numX > 0 && s.numY > 0
    ensures |r| == 4
  {
    var i := idx / s.numY;
    var j := idx % s.numX;
    [ Index(s, if i == 0 then s.numX - 1 else i - 1, j),
      Index(s, i, if j == 0 then s.numY - 1 else j - 1),
      Index(s, if i == s.numX - 1 then 0 else i + 1, j),
      Index(s, i, if j == s.numY - 1 then 0 else j + 1) ]
  }

  /** `unique_neighbours(idx)`: down and right. */
  function UniqueNeighboursAsWritten(s: Square, idx: nat): (r: seq<nat>)
    requires s.numX > 0 && s.numY > 0
    ensures |r| == 2
  {
    var i := idx / s.numY;
    var j := idx % s.numX;
    [ Index(s, if i == s.numX - 1 then 0 else i + 1, j),
      Index(s, i, if j == s.numY - 1 then 0 else j + 1) ]
  }

  /** The unique neighbours are the last two neighbours. */
  lemma UniqueNeighboursAreLastTwo(s: Square, idx: nat)
    requires s.numX > 0 && s.numY > 0
    ensures UniqueNeighboursAsWritten(s, idx) == NeighboursAsWritten(s, idx)[2..4]
  {
  }

  /** On a 3 x 2 lattice the second neighbour of the last site is 7, which
      is not a site. */
  lemma NeighboursAsWrittenOutOfRange()
    ensures var s := MakeSquare(3, 2);
      Valid(s) && 5 < s.num && NeighboursAsWritten(s, 5)[1] == 7 && 7 >= s.num
  {
    var s := MakeSquare(3, 2);
    assert 5 / 2 == 2 && 5 % 3 == 2;
  }

  // ---------------------------------------------------------------------
  // Row-major neighbours, consistent with `index`

  /** One step back with periodic wrap in 0 .. m-1. */
  function Prev(x: nat, m: nat): nat
    requires m > 0
  {
    if x == 0 then m - 1 else x - 1
  }

  /** One step forward with periodic wrap in 0 .. m-1. */
  function Next(x: nat, m: nat): nat
    requires m > 0
  {
    if x == m - 1 then 0 else x + 1
  }

  lemma PrevNextInverse(x: nat, m: nat)
    requires x < m
    ensures Prev(x, m) < m && Next(x, m) < m
    ensures Next(Prev(x, m), m) == x && Prev(Next(x, m), m) == x
  {
  }

  /** The four cells next to a cell in range are in range. */
  lemma NeighbourCellsInRange(s: Square, i: nat, j: nat)
    requires Valid(s) && i < s.numY && j < s.numX
    ensures Index(s, Prev(i, s.numY), j) < s.num && Index(s, i, Prev(j, s.numX)) < s.num
    ensures Index(s, Next(i, s.numY), j) < s.num && Index(s, i, Next(j, s.numX)) < s.num
  {
    PrevNextInverse(i, s.numY);
    PrevNextInverse(j, s.numX);
  }

  /** Up, left, down, right of the site in row `idx / numX`, column
      `idx % numX`; rows wrap against `numY`, columns against `numX`. */
  function Neighbours(s: Square, idx: nat): (r: seq<nat>)
    requires Valid(s)
    ensures |r| == 4
    ensures idx < s.num ==> forall k :: 0 <= k < 4 ==> r[k] < s.num
  {
    var i := idx / s.numX;
    var j := idx % s.numX;
    var r := [Index(s, Prev(i, s.numY), j), Index(s, i, Prev(j, s.numX)),
              Index(s, Next(i, s.numY), j), Index(s, i, Next(j, s.numX))];
    if idx < s.num then
      DecomposeIndex(s, idx);
      NeighbourCellsInRange(s, i, j);
      r
    else
      r
  }

  /** The two neighbours each bond is counted from: down and right. */
  function UniqueNeighbours(s: Square, idx: nat): (r: seq<nat>)
    requires Valid(s)
    ensures r == Neighbours(s, idx)[2..4]
  {
    var i := idx / s.numX;
    var j := idx % s.numX;
    [Index(s, Next(i, s.numY), j), Index(s, i, Next(j, s.numX))]
  }

  /** On a square lattice the code's arithmetic is the row-major one. */
  lemma NeighboursAsWrittenOnSquare(s: Square, idx: nat)
    requires Valid(s) && s.numX == s.numY
    ensures NeighboursAsWritten(s, idx) == Neighbours(s, idx)
    ensures UniqueNeighboursAsWritten(s, idx) == UniqueNeighbours(s, idx)
  {
  }

  /** For `numX == numY == n` and `idx < n^2` every neighbour is a site. */
  lemma NeighboursAsWrittenInRange(s: Square, idx: nat)
    requires Valid(s) && s.numX == s.numY && idx < s.num
    ensures forall k :: 0 <= k < 4 ==> NeighboursAsWritten(s, idx)[k] < s.num
  {
    NeighboursAsWrittenOnSquare(s, idx);
  }

  /** A cell whose row is below `cols` and whose column is below `rows`
      still has a row-major position below rows * cols when cols <= rows. */
  lemma TransposedCellBound(r: nat, c: nat, rows: nat, cols: nat)
    requires r < cols && c < rows && cols <= rows
    ensures r * cols + c < rows * cols
  {
    MulLe(r, cols - 1, cols);
    Distrib(cols, 1, cols);
    Distrib(rows, cols, cols);
    MulLe(1, cols, rows - cols);
  }

  /** Whenever numX <= numY every neighbour the code computes is a site,
      though unless numX == numY not always the adjacent one. */
  lemma NeighboursAsWrittenInRangeNarrow(s: Square, idx: nat)
    requires Valid(s) && s.numX <= s.numY && idx < s.num
    ensures forall k :: 0 <= k < 4 ==> NeighboursAsWritten(s, idx)[k] < s.num
  {
    var i: nat, j: nat := idx / s.numY, idx % s.numX;
    if i >= s.numX {
      MulLe(s.numX, i, s.numY);
      assert false;
    }
    var up: nat := if i == 0 then s.numX - 1 else i - 1;
    var down: nat := if i == s.numX - 1 then 0 else i + 1;
    var left: nat := if j == 0 then s.numY - 1 else j - 1;
    var right: nat := if j == s.numY - 1 then 0 else j + 1;
    TransposedCellBound(up, j, s.numY, s.numX);
    TransposedCellBound(i, left, s.numY, s.numX);
    TransposedCellBound(down, j, s.numY, s.numX);
    TransposedCellBound(i, right, s.numY, s.numX);
  }

  /** Stepping to a neighbour and back in the opposite direction returns
      to the start: entries 0 and 2, and entries 1 and 3, undo each
      other. */
  lemma NeighbourOpposite(s: Square, idx: nat, k: nat)
    requires Valid(s) && idx < s.num && k < 4
    ensures Neighbours(s, Neighbours(s, idx)[k])[(k + 2) % 4] == idx
  {
    var i, j := idx / s.numX, idx % s.numX;
    DecomposeIndex(s, idx);
    PrevNextInverse(i, s.numY);
    PrevNextInverse(j, s.numX);
    var a := Neighbours(s, idx)[k];
    var ai, aj :=
      if k == 0 then Prev(i, s.numY) else if k == 2 then Next(i, s.numY) else i,
      if k == 1 then Prev(j, s.numX) else if k == 3 then Next(j, s.numX) else j;
    assert a == Index(s, ai, aj);
    IndexDecompose(s, ai, aj);
  }

  /** Neighbourhood is symmetric on every valid lattice. */
  lemma NeighboursSymmetric(s: Square, a: nat, b: nat)
    requires Valid(s) && a < s.num && b < s.num
    ensures a in Neighbours(s, b) <==> b in Neighbours(s, a)
  {
    if a in Neighbours(s, b) {
      var k :| 0 <= k < 4 && Neighbours(s, b)[k] == a;
      NeighbourOpposite(s, b, k);
    }
    if b in Neighbours(s, a) {
      var k :| 0 <= k < 4 && Neighbours(s, a)[k] == b;
      NeighbourOpposite(s, a, k);
    }
  }

  /** On a square lattice the code's neighbour relation is symmetric. */
  lemma NeighboursAsWrittenSymmetric(s: Square, a: nat, b: nat)
    requires Valid(s) && s.numX == s.numY && a < s.num && b < s.num
    ensures a in NeighboursAsWritten(s, b) <==> b in NeighboursAsWritten(s, a)
  {
    NeighboursAsWrittenOnSquare(s, a);
    NeighboursAsWrittenOnSquare(s, b);
    NeighboursSymmetric(s, a, b);
  }
}
