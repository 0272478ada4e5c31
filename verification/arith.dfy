/**
 Facts about natural-number multiplication, division and remainder used by
 the index arithmetic of the bases and the lattice.
 */
module Arith {

  /** Multiplication by repeated addition. The verifier unfolds it one step
      at a time, so a proof sees x * y only where it calls `MulIsProduct`. */
  function Mul(x: nat, y: nat): nat {
    if y == 0 then 0 else Mul(x, y - 1) + x
  }

  lemma {:induction false} MulIsProduct(x: nat, y: nat)
    ensures Mul(x, y) == x * y
  {
    if y > 0 {
      MulIsProduct(x, y - 1);
      assert x * (y - 1) + x == x * y;
    }
  }

  lemma MulLe(a: nat, b: nat, c: nat)
    requires a <= b
    ensures a * c <= b * c
  {
  }

  lemma Distrib(a: int, b: int, c: int)
    ensures (a - b) * c == a * c - b * c
    ensures (a + b) * c == a * c + b * c
  {
  }

  /** Division by a positive `d` is determined by the quotient and a
      remainder in range. */
  lemma DivModUnique(x: nat, d: nat, q: nat, r: nat)
    requires d > 0 && r < d && x == q * d + r
    ensures x / d == q && x % d == r
  {
    var q', r' := x / d, x % d;
    assert x == q' * d + r';
    if q' < q {
      Distrib(q, q', d);
      MulLe(1, q - q', d);
      assert false;
    } else if q' > q {
      Distrib(q', q, d);
      MulLe(1, q' - q, d);
      assert false;
    }
  }

  /** Two base-n digits make a number below n^2. */
  lemma DigitBound(n: nat, b: nat, c: nat)
    requires b < n && c < n
    ensures n * b + c < n * n
  {
    Distrib(b, 1, n);
    MulLe(b + 1, n, n);
  }

  /** Two ways of grouping the base-n number with digits a, b, c. */
  lemma Horner(n: nat, a: nat, b: nat, c: nat)
    ensures n * n * a + n * b + c == (n * a + b) * n + c
    ensures n * n * a + n * b + c == a * (n * n) + (n * b + c)
  {
    assert (n * a + b) * n == n * a * n + b * n;
    assert n * a * n == n * n * a;
  }
}
