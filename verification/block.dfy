/**
 * The 128-bit `Block` of mpz-core: sixteen bytes with bytewise XOR and AND,
 * a least-significant bit used for point-and-permute, the `sigma` half-swap
 * and the bit reversal.  Bits are numbered in lsb0 order: bit `i` is bit
 * `i % 8` of byte `i / 8`.
 */
module Blocks {
  import opened Arith

  type Block = b: seq<bv8> | |b| == 16
    witness [0, 0, 0, 0, 0, 0, 0, 0, 0, 0, 0, 0, 0, 0, 0, 0]

  /** `Block::ZERO`. */
  const Zero: Block := [0, 0, 0, 0, 0, 0, 0, 0, 0, 0, 0, 0, 0, 0, 0, 0]

  /** `Block::ONES`. */
  const Ones: Block :=
    [0xff, 0xff, 0xff, 0xff, 0xff, 0xff, 0xff, 0xff, 0xff, 0xff, 0xff, 0xff, 0xff, 0xff, 0xff, 0xff]

  /** Bytewise XOR (`BitXor for Block`). */
  function Xor(a: Block, b: Block): Block {
    seq(16, i requires 0 <= i < 16 => a[i] ^ b[i])
  }

  /** Bytewise AND (`BitAnd for Block`). */
  function And(a: Block, b: Block): Block {
    seq(16, i requires 0 <= i < 16 => a[i] & b[i])
  }

  /** Bit `k` (lsb0) of one byte. */
  predicate ByteBit(x: bv8, k: nat)
    requires k < 8
  {
    (x >> k) & 1 == 1
  }

  /** Bit `i` of a block in lsb0 order (`GetBit<Lsb0> for Block`). */
  predicate Bit(b: Block, i: nat)
    requires i < 128
  {
    ByteBit(b[i / 8], i % 8)
  }

  /** `lsb`: the value of bit 0, as 0 or 1. */
  function Lsb(b: Block): (r: nat)
    ensures r < 2
    ensures r == 1 <==> Bit(b, 0)
  {
    if b[0] & 1 == 1 then 1 else 0
  }

  /** `set_lsb`: ORs 1 into byte 0. */
  function SetLsb(b: Block): Block {
    b[0 := b[0] | 1]
  }

  /**
   * After `set_lsb` the lsb is 1, every other bit is unchanged, and a block
   * whose lsb was already set is returned as it was.
   */
  lemma SetLsbSpec(b: Block)
    ensures Lsb(SetLsb(b)) == 1
    ensures forall i :: 1 <= i < 128 ==> (Bit(SetLsb(b), i) <==> Bit(b, i))
    ensures Lsb(b) == 1 ==> SetLsb(b) == b
  {
    var r := SetLsb(b);
    forall k | 1 <= k < 8 ensures ByteBit(r[0], k) <==> ByteBit(b[0], k) {
      OrOneKeepsHighBits(b[0], k);
    }
    forall i | 1 <= i < 128 ensures Bit(r, i) <==> Bit(b, i) {
      if i / 8 == 0 {
        assert 1 <= i % 8;
      }
    }
  }

  lemma OrOneKeepsHighBits(x: bv8, k: nat)
    requires 1 <= k < 8
    ensures ByteBit(x | 1, k) <==> ByteBit(x, k)
  {
    if k == 1 {} else if k == 2 {} else if k == 3 {} else if k == 4 {}
    else if k == 5 {} else if k == 6 {} else {}
  }

  /** `SELECT_MASK[b]`: `ZERO` for 0 and `ONES` for 1. */
  function SelectMask(b: nat): Block
    requires b < 2
  {
    if b == 0 then Zero else Ones
  }

  /** `SELECT_MASK[b] & x` is `x` when `b` is 1 and `ZERO` when `b` is 0. */
  lemma SelectMaskAnd(b: nat, x: Block)
    requires b < 2
    ensures And(SelectMask(b), x) == (if b == 1 then x else Zero)
    ensures And(x, SelectMask(b)) == (if b == 1 then x else Zero)
  {
    if b == 1 {
      assert forall i :: 0 <= i < 16 ==> And(SelectMask(b), x)[i] == x[i];
      assert forall i :: 0 <= i < 16 ==> And(x, SelectMask(b))[i] == x[i];
    } else {
      assert forall i :: 0 <= i < 16 ==> And(SelectMask(b), x)[i] == 0;
      assert forall i :: 0 <= i < 16 ==> And(x, SelectMask(b))[i] == 0;
    }
  }

  // XOR algebra.

  lemma XorComm(a: Block, b: Block)
    ensures Xor(a, b) == Xor(b, a)
  {
    assert forall i :: 0 <= i < 16 ==> Xor(a, b)[i] == Xor(b, a)[i];
  }

  lemma XorAssoc(a: Block, b: Block, c: Block)
    ensures Xor(Xor(a, b), c) == Xor(a, Xor(b, c))
  {
    assert forall i :: 0 <= i < 16 ==> Xor(Xor(a, b), c)[i] == Xor(a, Xor(b, c))[i];
  }

  lemma XorSelf(a: Block)
    ensures Xor(a, a) == Zero
  {
    assert forall i :: 0 <= i < 16 ==> Xor(a, a)[i] == Zero[i];
  }

  lemma XorZero(a: Block)
    ensures Xor(a, Zero) == a
    ensures Xor(Zero, a) == a
  {
    assert forall i :: 0 <= i < 16 ==> Xor(a, Zero)[i] == a[i];
    assert forall i :: 0 <= i < 16 ==> Xor(Zero, a)[i] == a[i];
  }

  /** XORing the same block twice cancels: `(a ^ b) ^ b == a`. */
  lemma XorCancel(a: Block, b: Block)
    ensures Xor(Xor(a, b), b) == a
    ensures Xor(b, Xor(b, a)) == a
  {
    XorAssoc(a, b, b);
    XorSelf(b);
    XorZero(a);
    XorAssoc(b, b, a);
  }

  /** The lsb of a XOR is the XOR of the lsbs. */
  lemma LsbXor(a: Block, b: Block)
    ensures Lsb(Xor(a, b)) == (Lsb(a) + Lsb(b)) % 2
  {
    var x := a[0];
    var y := b[0];
    assert Xor(a, b)[0] == x ^ y;
    assert ((x ^ y) & 1 == 1) <==> ((x & 1 == 1) != (y & 1 == 1));
  }

  // Sigma.

  /** Bytewise XOR of two byte strings of the same length. */
  function XorBytes(x: seq<bv8>, y: seq<bv8>): (r: seq<bv8>)
    requires |x| == |y|
    ensures |r| == |x|
  {
    seq(|x|, i requires 0 <= i < |x| => x[i] ^ y[i])
  }

  /** XORing with the same bytes twice cancels, from either side. */
  lemma XorBytesCancel(x: seq<bv8>, y: seq<bv8>)
    requires |x| == |y|
    ensures XorBytes(y, XorBytes(x, y)) == x
    ensures XorBytes(XorBytes(x, y), x) == y
  {
    var z := XorBytes(x, y);
    forall i | 0 <= i < |x| ensures XorBytes(y, z)[i] == x[i] && XorBytes(z, x)[i] == y[i] {
      ByteXorCancel(x[i], y[i]);
    }
  }

  /** XOR with the same byte twice cancels. */
  lemma ByteXorCancel(x: bv8, y: bv8)
    ensures y ^ (x ^ y) == x && (x ^ y) ^ x == y
  {
  }

  /**
   * `sigma`: with `x0` the low eight bytes and `x1` the high eight bytes,
   * the result is `x1 || (x0 ^ x1)`.
   */
  function Sigma(a: Block): Block {
    a[8..] + XorBytes(a[..8], a[8..])
  }

  /** Sigma is linear over XOR. */
  lemma SigmaLinear(a: Block, b: Block)
    ensures Sigma(Xor(a, b)) == Xor(Sigma(a), Sigma(b))
  {
    var l, r := Sigma(Xor(a, b)), Xor(Sigma(a), Sigma(b));
    forall i | 0 <= i < 16 ensures l[i] == r[i] {
      if i < 8 {
        assert l[i] == a[i + 8] ^ b[i + 8];
      } else {
        assert l[i] == (a[i - 8] ^ b[i - 8]) ^ (a[i] ^ b[i]);
        assert r[i] == (a[i - 8] ^ a[i]) ^ (b[i - 8] ^ b[i]);
      }
    }
  }

  /** Applying sigma three times gives back the block. */
  lemma SigmaOrderThree(a: Block)
    ensures Sigma(Sigma(Sigma(a))) == a
  {
    var lo, hi := a[..8], a[8..];
    var mix := XorBytes(lo, hi);
    var s1 := Sigma(a);
    assert s1 == hi + mix;
    assert s1[..8] == hi && s1[8..] == mix;
    XorBytesCancel(lo, hi);
    var s2 := Sigma(s1);
    assert s2 == mix + lo;
    assert s2[..8] == mix && s2[8..] == lo;
    assert Sigma(s2) == lo + hi;
    assert lo + hi == a;
  }

  // Bit reversal.

  /** The bits of one byte in reverse order. */
  function RevByte(x: bv8): bv8 {
    ((x & 0x01) << 7) | ((x & 0x02) << 5) | ((x & 0x04) << 3) | ((x & 0x08) << 1) |
    ((x & 0x10) >> 1) | ((x & 0x20) >> 3) | ((x & 0x40) >> 5) | ((x & 0x80) >> 7)
  }

  lemma RevByteBit(x: bv8, k: nat)
    requires k < 8
    ensures ByteBit(RevByte(x), k) <==> ByteBit(x, 7 - k)
  {
    if k == 0 {} else if k == 1 {} else if k == 2 {} else if k == 3 {}
    else if k == 4 {} else if k == 5 {} else if k == 6 {} else {}
  }

  lemma RevByteInvolution(x: bv8)
    ensures RevByte(RevByte(x)) == x
  {
  }

  /**
   * `reverse_bits`: the block is read as a little-endian `u128`, its bits
   * are reversed and it is written back little-endian.
   */
  function ReverseBits(b: Block): Block {
    seq(16, j requires 0 <= j < 16 => RevByte(b[15 - j]))
  }

  /** Bit `i` of the reversed block is bit `127 - i` of the input. */
  lemma ReverseBitsSpec(b: Block)
    ensures forall i :: 0 <= i < 128 ==> (Bit(ReverseBits(b), i) <==> Bit(b, 127 - i))
  {
    var r := ReverseBits(b);
    forall i | 0 <= i < 128 ensures Bit(r, i) <==> Bit(b, 127 - i) {
      RevByteBit(b[15 - i / 8], i % 8);
      assert (127 - i) / 8 == 15 - i / 8 && (127 - i) % 8 == 7 - i % 8;
    }
  }

  /** Reversing the bits twice gives back the block. */
  lemma ReverseBitsInvolution(b: Block)
    ensures ReverseBits(ReverseBits(b)) == b
  {
    var r2 := ReverseBits(ReverseBits(b));
    forall j | 0 <= j < 16 ensures r2[j] == b[j] {
      RevByteInvolution(b[j]);
    }
  }

  // Big-endian encoding of gate ids into tweak blocks.

  /** The `len` low bytes of `n`, most significant first (`to_be_bytes`). */
  function BeBytes(n: nat, len: nat): (r: seq<bv8>)
    ensures |r| == len
  {
    if len == 0 then [] else BeBytes(n / 256, len - 1) + [(n % 256) as bv8]
  }

  /** The number a big-endian byte string denotes. */
  function FromBeBytes(s: seq<bv8>): nat {
    if s == [] then 0 else FromBeBytes(s[..|s| - 1]) * 256 + s[|s| - 1] as nat
  }

  function Pow256(len: nat): (r: nat)
    ensures r > 0
  {
    if len == 0 then 1 else 256 * Pow256(len - 1)
  }

  /** Decoding the big-endian bytes of a number below `256^len` gives it back. */
  lemma {:induction false} BeBytesRoundTrip(n: nat, len: nat)
    requires n < Pow256(len)
    ensures FromBeBytes(BeBytes(n, len)) == n
  {
    if len > 0 {
      var s := BeBytes(n, len);
      var q, r := n / 256, n % 256;
      assert s[..|s| - 1] == BeBytes(q, len - 1);
      ByteRoundTrip(r);
      assert s[|s| - 1] as nat == r;
      DivBound(n, Pow256(len - 1));
      BeBytesRoundTrip(q, len - 1);
      assert FromBeBytes(s) == FromBeBytes(BeBytes(q, len - 1)) * 256 + r;
    }
  }

  lemma DivBound(n: nat, p: nat)
    requires n < 256 * p
    ensures n / 256 < p
  {
  }

  /** `Block::new((gid as u128).to_be_bytes())`. */
  function TweakBlock(gid: nat): Block {
    BeBytes(gid, 16)
  }

  /** 2^128: the gate ids a 128-bit tweak can tell apart. */
  const U128Bound: nat := 0x1_0000_0000_0000_0000_0000_0000_0000_0000

  lemma U128BoundPow()
    ensures Pow256(16) == U128Bound
  {
    assert Pow256(1) == 0x100;
    assert Pow256(2) == 0x10000;
    assert Pow256(3) == 0x1000000;
    assert Pow256(4) == 0x100000000;
    assert Pow256(5) == 0x10000000000;
    assert Pow256(6) == 0x1000000000000;
    assert Pow256(7) == 0x100000000000000;
    assert Pow256(8) == 0x10000000000000000;
    assert Pow256(9) == 0x1000000000000000000;
    assert Pow256(10) == 0x100000000000000000000;
    assert Pow256(11) == 0x10000000000000000000000;
    assert Pow256(12) == 0x1000000000000000000000000;
    assert Pow256(13) == 0x100000000000000000000000000;
    assert Pow256(14) == 0x10000000000000000000000000000;
    assert Pow256(15) == 0x1000000000000000000000000000000;
    assert Pow256(16) == 0x100000000000000000000000000000000;
  }

  /** Distinct gate ids below 2^128 give distinct tweak blocks. */
  lemma TweakBlockInjective(g1: nat, g2: nat)
    requires g1 < U128Bound && g2 < U128Bound && g1 != g2
    ensures TweakBlock(g1) != TweakBlock(g2)
  {
    U128BoundPow();
    BeBytesRoundTrip(g1, 16);
    BeBytesRoundTrip(g2, 16);
    assert FromBeBytes(TweakBlock(g1)) != FromBeBytes(TweakBlock(g2));
  }
}
