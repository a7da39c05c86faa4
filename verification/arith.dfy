/** Facts about Euclidean division shared by the index computations of the model. */
module Arith {

  /** A nonzero multiple of a positive number is at least that number in magnitude. */
  lemma MultipleBounds(d: int, k: int)
    requires d >= 1
    ensures k >= 1 ==> d * k >= d
    ensures k <= -1 ==> d * k <= 0 - d
  {
    if k >= 1 {
      assert d * k == d * (k - 1) + d;
    } else if k <= -1 {
      assert d * k == d * (k + 1) - d;
    }
  }

  /** A number below 256 survives the round trip through a byte. */
  lemma ByteRoundTrip(r: nat)
    requires r < 256
    ensures (r as bv8) as nat == r
  {
    if r < 128 {
      if r < 64 { } else { }
    } else {
      if r < 192 { } else { }
    }
  }

  /** Quotient and remainder are the unique pair with `y = q·d + r` and `0 <= r < d`. */
  lemma DivModUnique(y: int, d: int, q: int, r: int)
    requires d >= 1 && y == q * d + r && 0 <= r < d
    ensures y / d == q && y % d == r
  {
    var q' := y / d;
    assert y == d * q' + y % d;
    assert d * (q - q') == y % d - r;
    MultipleBounds(d, q - q');
  }

  /** Division by a positive number: quotient times divisor plus remainder. */
  lemma DivisionOf(y: nat, d: nat)
    requires d >= 1
    ensures y / d >= 0 && 0 <= y % d < d && y == (y / d) * d + y % d
  {
  }

  /** A number below `c·d` has quotient below c. */
  lemma QuotientBelow(n: nat, d: nat, c: nat)
    requires d >= 1 && n < c * d
    ensures n / d < c
  {
    var q := n / d;
    assert n == q * d + n % d;
    MultipleBounds(d, q - c + 1);
    assert d * (q - c + 1) == q * d - c * d + d;
  }

  /** The cell `(j, i)` of a `rows`×`cols` matrix read row by row lies inside it. */
  lemma CellInside(rows: nat, cols: nat, j: nat, i: nat)
    requires j < rows && i < cols
    ensures j * cols + i < rows * cols
  {
    assert rows * cols == (j + 1) * cols + (rows - j - 1) * cols;
  }

  /** Two to the power d. */
  function Pow2(d: nat): (r: nat)
    ensures r >= 1
  {
    if d == 0 then 1 else 2 * Pow2(d - 1)
  }

  /** Powers of two grow with the exponent. */
  lemma {:induction false} PowMonotone(a: nat, b: nat)
    requires a <= b
    ensures Pow2(a) <= Pow2(b)
    decreases b - a
  {
    if a < b {
      PowMonotone(a + 1, b);
    }
  }

  /** From `2^2` on, powers of two are multiples of four. */
  lemma Pow2Quarters(d: nat)
    requires d >= 2
    ensures Pow2(d) >= 4 && Pow2(d) % 4 == 0
  {
    PowMonotone(2, d);
    assert Pow2(d) == 4 * Pow2(d - 2);
  }
}
