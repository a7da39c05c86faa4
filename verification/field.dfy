/**
 * Arithmetic in the prime field the OLE roles work over, written as
 * integers reduced modulo a modulus p.  Only the ring laws are used by the
 * OLE proofs, so the modulus is left as a parameter.
 */
module PrimeField {
  import opened Arith

  type Modulus = p: int | p >= 2 witness 2

  /** Field addition: the element of `0..p` congruent to `a + b`. */
  function Add(p: Modulus, a: int, b: int): (r: int)
    ensures 0 <= r < p && (r - (a + b)) % p == 0
  {
    Residue(p, a + b);
    (a + b) % p
  }

  /** Field multiplication: the element of `0..p` congruent to `a · b`. */
  function Mul(p: Modulus, a: int, b: int): (r: int)
    ensures 0 <= r < p && (r - a * b) % p == 0
  {
    Residue(p, a * b);
    (a * b) % p
  }

  /** Field negation: the element of `0..p` congruent to `-a`, so `a + Neg(a)` is a multiple of p. */
  function Neg(p: Modulus, a: int): (r: int)
    ensures 0 <= r < p && (r + a) % p == 0
  {
    Residue(p, -a);
    (-a) % p
  }

  /** A number and its remainder differ by a multiple of the modulus. */
  lemma Residue(p: Modulus, x: int)
    ensures (x % p - x) % p == 0
  {
    var q := x / p;
    assert x == q * p + x % p;
    ModShift(p, 0, -q);
    assert x % p - x == 0 + (-q) * p;
  }

  lemma ModShift(p: Modulus, x: int, k: int)
    ensures (x + k * p) % p == x % p
  {
    var d := x / p;
    assert x == p * d + x % p;
    assert x + k * p == (d + k) * p + x % p;
    DivModUnique(x + k * p, p, d + k, x % p);
  }

  lemma ModAddLeft(p: Modulus, a: int, b: int)
    ensures (a % p + b) % p == (a + b) % p
  {
    var q := a / p;
    assert a == q * p + a % p;
    ModShift(p, a % p + b, q);
  }

  lemma ModMulLeft(p: Modulus, a: int, b: int)
    ensures ((a % p) * b) % p == (a * b) % p
  {
    var q := a / p;
    assert a == q * p + a % p;
    assert a * b == (a % p) * b + (q * b) * p;
    ModShift(p, (a % p) * b, q * b);
  }

  lemma ModMulRight(p: Modulus, a: int, b: int)
    ensures (a * (b % p)) % p == (a * b) % p
  {
    var q := b / p;
    assert b == q * p + b % p;
    assert a * b == a * (b % p) + (a * q) * p;
    ModShift(p, a * (b % p), a * q);
  }

  lemma ModAddBoth(p: Modulus, a: int, b: int)
    ensures (a % p + b % p) % p == (a + b) % p
  {
    ModAddLeft(p, a, b % p);
    ModAddLeft(p, b, a);
  }

  lemma ModNeg(p: Modulus, a: int)
    ensures (-(a % p)) % p == (-a) % p
  {
    var q := a / p;
    assert a == q * p + a % p;
    assert -(a % p) == -a + q * p;
    ModShift(p, -a, q);
  }

  /** Negating a sum of a negation and a product of a negation undoes both negations. */
  lemma NegNegSum(p: Modulus, x: int, a: int, v: int)
    ensures Neg(p, Add(p, Neg(p, x), Mul(p, Neg(p, a), v))) == (x + a * v) % p
  {
    ModMulLeft(p, -a, v);
    assert (-a) * v == -(a * v);
    ModAddBoth(p, -x, -(a * v));
    ModNeg(p, -x + -(a * v));
  }

  /** Adding a reduced product is adding the product, modulo p. */
  lemma AddMul(p: Modulus, y: int, b: int, u: int)
    ensures Add(p, y, Mul(p, b, u)) == (y + b * u) % p
  {
    ModAddLeft(p, b * u, y);
    assert (b * u) % p + y == y + (b * u) % p;
    assert b * u + y == y + b * u;
  }

  /** Adding congruent terms gives congruent sums. */
  lemma AddCong(p: Modulus, x: int, m: int, n: int)
    requires m % p == n % p
    ensures (x + m) % p == (x + n) % p
  {
    ModAddBoth(p, x, m);
    ModAddBoth(p, x, n);
  }

  lemma Distrib(a: int, b: int, c: int)
    ensures a * (b + c) == a * b + a * c
  {
  }
}
