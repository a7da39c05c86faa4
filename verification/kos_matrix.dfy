/**
 * The arithmetic both ends of the KOS15 oblivious-transfer extension share:
 * the IKNP extension matrices, the keys derived from their rows, and the
 * encryption of message pairs under those keys.
 *
 * A matrix has `Csp` rows, one per base OT, each `rw` bytes wide; byte `p`
 * lies in row `p / rw`, column byte `p % rw`.  Transposing it bitwise gives
 * `8 * rw` rows of 128 bits, one block per extended OT.  The bytes the
 * base-OT rngs emit are parameters (`nat -> bv8`, indexed by matrix
 * position).
 */
module KosMatrix {
  import opened Arith
  import opened Blocks
  import opened Transpose
  import IdealCot
  import GarbleCore

  /** The computational security parameter: the number of base OTs. */
  const Csp: nat := 128
  /** The statistical security parameter. */
  const Ssp: nat := 128

  /** `extension_matrix_size`: the byte length of the receiver's `us` for `count` OTs. */
  function ExtensionMatrixSize(count: nat): (n: nat)
    ensures n == 16 * count
  {
    count * Csp / 8
  }

  /** The base-OT row that byte `p` lies in. */
  function RowOf(p: nat, rw: nat): (i: nat)
    requires p < Csp * rw
    ensures i < Csp
  {
    QuotientBelow(p, rw, Csp);
    p / rw
  }

  /** The byte position of byte `p` inside its row. */
  function ColOf(p: nat, rw: nat): (k: nat)
    requires p < Csp * rw
    ensures k < rw
  {
    p % rw
  }

  /** Row `i`, byte `k` of a matrix with rows of `rw` bytes. */
  lemma Position(rw: nat, i: nat, k: nat)
    requires i < Csp && k < rw
    ensures 0 <= i * rw && i * rw + k < Csp * rw
    ensures RowOf(i * rw + k, rw) == i && ColOf(i * rw + k, rw) == k
  {
    CellInside(Csp, rw, i, k);
    DivModUnique(i * rw + k, rw, i, k);
  }

  // The receiver's side of the extension.

  /** The receiver's matrix `t`: row `i` is what the first rng of base OT `i` emits. */
  function ReceiverTs(pad0: nat -> bv8, rw: nat): (t: seq<bv8>)
    ensures |t| == Csp * rw
  {
    seq(Csp * rw, p requires 0 <= p < Csp * rw => pad0(p))
  }

  /**
   * The receiver's `us`: row `i` is `t_i ^ u_i ^ r`, `u_i` being what the
   * second rng of base OT `i` emits and `r` the choice vector, packed.
   */
  function ReceiverUs(pad0: nat -> bv8, pad1: nat -> bv8, r: seq<bv8>): (us: seq<bv8>)
    ensures |us| == Csp * |r|
  {
    seq(Csp * |r|, p requires 0 <= p < Csp * |r| => pad0(p) ^ pad1(p) ^ r[ColOf(p, |r|)])
  }

  /** The receiver's random choices: the bits of its choice bytes, lsb0. */
  function ChoiceBits(r: seq<bv8>): (c: seq<bool>)
    ensures |c| == 8 * |r|
    ensures forall j :: 0 <= j < |c| ==> j / 8 < |r| && c[j] == ByteBit(r[j / 8], j % 8)
  {
    seq(8 * |r|, j requires 0 <= j < 8 * |r| => ByteBit(r[j / 8], j % 8))
  }

  // The sender's side.

  /**
   * The sender's matrix `q`: row `i` is what its rng `i` emits, xored with
   * the receiver's row `u_i` when bit `i` of delta is set.
   */
  function SenderMatrix(delta: Block, spad: nat -> bv8, us: seq<bv8>, rw: nat): (q: seq<bv8>)
    requires |us| == Csp * rw
    ensures |q| == Csp * rw
  {
    seq(Csp * rw, p requires 0 <= p < Csp * rw => spad(p) ^ (if Bit(delta, RowOf(p, rw)) then us[p] else 0))
  }

  /**
   * Base OT gave the sender, for row `i`, the receiver's rng chosen by bit
   * `i` of delta.
   */
  ghost predicate HonestPads(delta: Block, spad: nat -> bv8, pad0: nat -> bv8, pad1: nat -> bv8, rw: nat)
  {
    forall p :: 0 <= p < Csp * rw ==> spad(p) == if Bit(delta, RowOf(p, rw)) then pad1(p) else pad0(p)
  }

  /** The extended rows: the matrix transposed bitwise, cut into blocks. */
  function Extended(m: seq<bv8>, rw: nat): (rows: seq<Block>)
    requires |m| == Csp * rw
    ensures |rows| == 8 * rw
  {
    DivModUnique(|m|, Csp, rw, 0);
    DivModUnique(|m|, 16, 8 * rw, 0);
    RowBlocks(Transposed(m, Csp))
  }

  /** `chunks_exact(NROWS / 8)`: consecutive 16-byte rows. */
  function RowBlocks(t: seq<bv8>): (rows: seq<Block>)
    requires |t| % 16 == 0
    ensures |rows| == |t| / 16
  {
    seq(|t| / 16, j requires 0 <= j < |t| / 16 => t[16 * j .. 16 * j + 16])
  }

  /** 128 rows are a power of two, as the transposition demands. */
  lemma CspIsPow2()
    ensures IsPow2(Csp)
  {
    assert IsPow2(1) && IsPow2(2) && IsPow2(4) && IsPow2(8);
    assert IsPow2(16) && IsPow2(32) && IsPow2(64);
  }

  /** Each byte of `q` is the byte of `t` plus, in the rows delta selects, the choice byte. */
  lemma ColumnCorrelation(delta: Block, spad: nat -> bv8, pad0: nat -> bv8, pad1: nat -> bv8, r: seq<bv8>, p: nat)
    requires HonestPads(delta, spad, pad0, pad1, |r|) && p < Csp * |r|
    ensures SenderMatrix(delta, spad, ReceiverUs(pad0, pad1, r), |r|)[p]
            == ReceiverTs(pad0, |r|)[p] ^ (if Bit(delta, RowOf(p, |r|)) then r[ColOf(p, |r|)] else 0)
  {
    var x, y, c := pad0(p), pad1(p), r[ColOf(p, |r|)];
    assert y ^ (x ^ y ^ c) == x ^ c;
  }

  /**
   * Bit `b` of extended row `8 * jq + jr` is bit `jr` of byte `jq` in
   * matrix row `b`.
   */
  lemma ExtendedBit(m: seq<bv8>, rw: nat, jq: nat, jr: nat, b: nat)
    requires |m| == Csp * rw && jq < rw && jr < 8 && b < 128
    ensures 8 * jq + jr < 8 * rw && b * rw + jq < |m|
    ensures Bit(Extended(m, rw)[8 * jq + jr], b) == ByteBit(m[b * rw + jq], jr)
  {
    Position(rw, b, jq);
    var j := 8 * jq + jr;
    DivModUnique(|m|, Csp, rw, 0);
    var t := Transposed(m, Csp);
    var n := 128 * j + b;
    DivisionOf(b, 8);
    DivModUnique(n, 8, 16 * j + b / 8, b % 8);
    assert Bit(Extended(m, rw)[j], b) == DataBit(t, n);
    TransposedBit(m, Csp, n);
    TIndexIs(Csp, 8 * rw, n, j, b);
    var k := b * (8 * rw) + j;
    assert TBit(m, Csp, n) == DataBit(m, k);
    EightRows(b, rw);
    DivModUnique(k, 8, b * rw + jq, jr);
  }

  lemma EightRows(b: nat, rw: nat)
    ensures b * (8 * rw) == 8 * (b * rw)
  {
  }

  /** XOR acts on each bit. */
  lemma ByteBitXor(x: bv8, y: bv8, t: nat)
    requires t < 8
    ensures ByteBit(x ^ y, t) == (ByteBit(x, t) != ByteBit(y, t))
  {
    if t == 0 {} else if t == 1 {} else if t == 2 {} else if t == 3 {}
    else if t == 4 {} else if t == 5 {} else if t == 6 {} else {}
  }

  lemma BitXor(a: Block, b: Block, i: nat)
    requires i < 128
    ensures Bit(Xor(a, b), i) == (Bit(a, i) != Bit(b, i))
  {
    var k := i / 8;
    assert Xor(a, b)[k] == a[k] ^ b[k];
    ByteBitXor(a[k], b[k], i % 8);
  }

  /** Two blocks with the same bits are the same block. */
  lemma BlocksFromBits(a: Block, b: Block)
    requires forall i :: 0 <= i < 128 ==> Bit(a, i) == Bit(b, i)
    ensures a == b
  {
    forall n | 0 <= n < 8 * |a|
      ensures DataBit(a, n) == DataBit(b, n)
    {
      assert Bit(a, n) == Bit(b, n);
    }
    BitsDetermineBytes(a, b);
  }

  /** One extended row: `t_j` is `q_j`, plus delta when choice `j` is set. */
  lemma RowCorrelation(delta: Block, spad: nat -> bv8, pad0: nat -> bv8, pad1: nat -> bv8, r: seq<bv8>, j: nat)
    requires HonestPads(delta, spad, pad0, pad1, |r|) && j < 8 * |r|
    ensures var q := Extended(SenderMatrix(delta, spad, ReceiverUs(pad0, pad1, r), |r|), |r|)[j];
            var t := Extended(ReceiverTs(pad0, |r|), |r|)[j];
            t == if ChoiceBits(r)[j] then Xor(q, delta) else q
  {
    var rw := |r|;
    var qm := SenderMatrix(delta, spad, ReceiverUs(pad0, pad1, r), rw);
    var tm := ReceiverTs(pad0, rw);
    var q := Extended(qm, rw)[j];
    var t := Extended(tm, rw)[j];
    var c := ChoiceBits(r)[j];
    var want := if c then Xor(q, delta) else q;
    var jq, jr := j / 8, j % 8;
    DivisionOf(j, 8);
    QuotientBelow(j, 8, rw);
    assert c == ByteBit(r[jq], jr);
    forall b | 0 <= b < 128
      ensures Bit(t, b) == Bit(want, b)
    {
      RowBit(delta, spad, pad0, pad1, r, jq, jr, b);
      BitXor(q, delta, b);
    }
    BlocksFromBits(t, want);
  }

  /** Bit `b` of row `8 * jq + jr`: the rows differ where delta and the choice bit are both set. */
  lemma RowBit(delta: Block, spad: nat -> bv8, pad0: nat -> bv8, pad1: nat -> bv8, r: seq<bv8>, jq: nat, jr: nat, b: nat)
    requires HonestPads(delta, spad, pad0, pad1, |r|) && jq < |r| && jr < 8 && b < 128
    ensures 8 * jq + jr < 8 * |r|
    ensures var j := 8 * jq + jr;
            Bit(Extended(SenderMatrix(delta, spad, ReceiverUs(pad0, pad1, r), |r|), |r|)[j], b)
            == (Bit(Extended(ReceiverTs(pad0, |r|), |r|)[j], b) != (Bit(delta, b) && ByteBit(r[jq], jr)))
  {
    var rw := |r|;
    var qm := SenderMatrix(delta, spad, ReceiverUs(pad0, pad1, r), rw);
    var tm := ReceiverTs(pad0, rw);
    Position(rw, b, jq);
    var p := b * rw + jq;
    ExtendedBit(qm, rw, jq, jr, b);
    ExtendedBit(tm, rw, jq, jr, b);
    ColumnCorrelation(delta, spad, pad0, pad1, r, p);
    ByteBitXor(tm[p], if Bit(delta, b) then r[jq] else 0, jr);
  }

  /**
   * The IKNP extension produces correlated OTs: the receiver's rows are the
   * sender's rows correlated by delta under the receiver's choices, which
   * is what the ideal correlated-OT functionality hands out.
   */
  lemma ExtensionIsCorrelated(delta: Block, spad: nat -> bv8, pad0: nat -> bv8, pad1: nat -> bv8, r: seq<bv8>)
    requires HonestPads(delta, spad, pad0, pad1, |r|)
    ensures Extended(ReceiverTs(pad0, |r|), |r|)
            == IdealCot.Correlate(delta, Extended(SenderMatrix(delta, spad, ReceiverUs(pad0, pad1, r), |r|), |r|), ChoiceBits(r))
  {
    var qs := Extended(SenderMatrix(delta, spad, ReceiverUs(pad0, pad1, r), |r|), |r|);
    var ts := Extended(ReceiverTs(pad0, |r|), |r|);
    var cor := IdealCot.Correlate(delta, qs, ChoiceBits(r));
    forall j | 0 <= j < |ts|
      ensures ts[j] == cor[j]
    {
      RowCorrelation(delta, spad, pad0, pad1, r, j);
    }
  }

  // Packing bits into bytes.

  /** `Vec::<u8>::from_lsb0_iter`: bits packed lsb0, the last byte padded with zeros. */
  function PackBits(bits: seq<bool>): (r: seq<bv8>)
    ensures |r| == (|bits| + 7) / 8
  {
    seq((|bits| + 7) / 8, m requires 0 <= m < (|bits| + 7) / 8 => PackByte(ByteOfBits(bits, m)))
  }

  /** The eight bits that go into byte `m`, false past the end. */
  function ByteOfBits(bits: seq<bool>, m: nat): (b: seq<bool>)
    ensures |b| == 8
  {
    seq(8, t requires 0 <= t < 8 => 8 * m + t < |bits| && bits[8 * m + t])
  }

  /** Unpacking lsb0 gives every packed bit back, and zeros after them. */
  lemma PackedBit(bits: seq<bool>, j: nat)
    requires j < 8 * ((|bits| + 7) / 8)
    ensures j / 8 < |PackBits(bits)|
    ensures ChoiceBits(PackBits(bits))[j] == (j < |bits| && bits[j])
  {
    var m, t := j / 8, j % 8;
    DivisionOf(j, 8);
    QuotientBelow(j, 8, (|bits| + 7) / 8);
    PackByteBit(ByteOfBits(bits, m), t);
  }

  /** Packing the bits of a choice vector gives the choice vector back. */
  lemma PackChoiceBits(r: seq<bv8>)
    ensures PackBits(ChoiceBits(r)) == r
  {
    var bits := ChoiceBits(r);
    var p := PackBits(bits);
    assert |p| == |r|;
    forall m | 0 <= m < |r|
      ensures p[m] == r[m]
    {
      forall t | 0 <= t < 8
        ensures ByteBit(p[m], t) == ByteBit(r[m], t)
      {
        PackedChoiceBit(r, m, t);
      }
      SameBitsSameByte(p[m], r[m]);
    }
  }

  lemma PackedChoiceBit(r: seq<bv8>, m: nat, t: nat)
    requires m < |r| && t < 8
    ensures m < |PackBits(ChoiceBits(r))|
    ensures ByteBit(PackBits(ChoiceBits(r))[m], t) == ByteBit(r[m], t)
  {
    var bits := ChoiceBits(r);
    DivModUnique(8 * m + t, 8, m, t);
    assert ByteOfBits(bits, m)[t] == bits[8 * m + t];
    PackByteBit(ByteOfBits(bits, m), t);
  }

  // Keys and messages.

  /** A pair of blocks: a key pair, a message pair or a ciphertext pair. */
  datatype BlockPair = BlockPair(b0: Block, b1: Block)

  /** The block a bit selects from a pair. */
  function Pick(p: BlockPair, c: bool): Block {
    if c then p.b1 else p.b0
  }

  /** The blocks the bits select, pair by pair. */
  function Picks(ps: seq<BlockPair>, cs: seq<bool>): (bs: seq<Block>)
    requires |ps| == |cs|
    ensures |bs| == |ps|
  {
    seq(|ps|, j requires 0 <= j < |ps| => Pick(ps[j], cs[j]))
  }

  /**
   * The sender's key pairs: row `j` gives `tccr(counter + j, q_j)` and
   * `tccr(counter + j, q_j ^ delta)`.
   */
  function SenderKeyPairs(tccr: GarbleCore.Hash, delta: Block, counter: nat, qs: seq<Block>): (ks: seq<BlockPair>)
    ensures |ks| == |qs|
  {
    seq(|qs|, j requires 0 <= j < |qs| =>
      BlockPair(tccr(TweakBlock(counter + j), qs[j]), tccr(TweakBlock(counter + j), Xor(qs[j], delta))))
  }

  /** Key pairs of consecutive rows come at consecutive tweaks. */
  lemma SenderKeyPairsAppend(tccr: GarbleCore.Hash, delta: Block, c: nat, a: seq<Block>, b: seq<Block>)
    ensures SenderKeyPairs(tccr, delta, c, a) + SenderKeyPairs(tccr, delta, c + |a|, b)
            == SenderKeyPairs(tccr, delta, c, a + b)
  {
    var lhs := SenderKeyPairs(tccr, delta, c, a) + SenderKeyPairs(tccr, delta, c + |a|, b);
    var rhs := SenderKeyPairs(tccr, delta, c, a + b);
    forall j | 0 <= j < |rhs|
      ensures lhs[j] == rhs[j]
    {
      if j >= |a| {
        assert (a + b)[j] == b[j - |a|];
        assert c + |a| + (j - |a|) == c + j;
      }
    }
  }

  /** Taking the first `k` pairs leaves the pairs of the remaining rows, at tweaks from `c + k`. */
  lemma SenderKeyPairsSplit(tccr: GarbleCore.Hash, delta: Block, c: nat, a: seq<Block>, k: nat)
    requires k <= |a|
    ensures SenderKeyPairs(tccr, delta, c, a)[..k] == SenderKeyPairs(tccr, delta, c, a[..k])
    ensures SenderKeyPairs(tccr, delta, c, a)[k..] == SenderKeyPairs(tccr, delta, c + k, a[k..])
  {
    assert a == a[..k] + a[k..];
    SenderKeyPairsAppend(tccr, delta, c, a[..k], a[k..]);
  }

  /** The receiver's keys: row `j` gives `tccr(counter + j, t_j)`. */
  function ReceiverKeys(tccr: GarbleCore.Hash, counter: nat, ts: seq<Block>): (ks: seq<Block>)
    ensures |ks| == |ts|
  {
    seq(|ts|, j requires 0 <= j < |ts| => tccr(TweakBlock(counter + j), ts[j]))
  }

  lemma ReceiverKeysAppend(tccr: GarbleCore.Hash, c: nat, a: seq<Block>, b: seq<Block>)
    ensures ReceiverKeys(tccr, c, a) + ReceiverKeys(tccr, c + |a|, b) == ReceiverKeys(tccr, c, a + b)
  {
    var lhs := ReceiverKeys(tccr, c, a) + ReceiverKeys(tccr, c + |a|, b);
    var rhs := ReceiverKeys(tccr, c, a + b);
    forall j | 0 <= j < |rhs|
      ensures lhs[j] == rhs[j]
    {
      if j >= |a| {
        assert (a + b)[j] == b[j - |a|];
        assert c + |a| + (j - |a|) == c + j;
      }
    }
  }

  lemma ReceiverKeysSplit(tccr: GarbleCore.Hash, c: nat, a: seq<Block>, k: nat)
    requires k <= |a|
    ensures ReceiverKeys(tccr, c, a)[..k] == ReceiverKeys(tccr, c, a[..k])
    ensures ReceiverKeys(tccr, c, a)[k..] == ReceiverKeys(tccr, c + k, a[k..])
  {
    assert a == a[..k] + a[k..];
    ReceiverKeysAppend(tccr, c, a[..k], a[k..]);
  }

  /**
   * From correlated rows, the receiver's key is the sender's key its
   * choice selects, and hashing its row with delta gives the other one.
   */
  lemma ReceiverHoldsChosenKey(tccr: GarbleCore.Hash, delta: Block, counter: nat, qs: seq<Block>, rs: seq<bool>, j: nat)
    requires |qs| == |rs| && j < |qs|
    ensures var ts := IdealCot.Correlate(delta, qs, rs);
            var pair := SenderKeyPairs(tccr, delta, counter, qs)[j];
            ReceiverKeys(tccr, counter, ts)[j] == Pick(pair, rs[j]) &&
            tccr(TweakBlock(counter + j), Xor(ts[j], delta)) == Pick(pair, !rs[j])
  {
    if rs[j] {
      XorCancel(qs[j], delta);
    }
  }

  /** One OT's ciphertexts: a set flip bit swaps the keys. */
  function EncryptPair(k: BlockPair, m: BlockPair, flip: bool): BlockPair {
    if flip then BlockPair(Xor(k.b1, m.b0), Xor(k.b0, m.b1))
    else BlockPair(Xor(k.b0, m.b0), Xor(k.b1, m.b1))
  }

  /** The ciphertext pairs; zipping keys, messages and flip bits stops at the shortest. */
  function Encrypt(keys: seq<BlockPair>, msgs: seq<BlockPair>, flips: seq<bool>): (cts: seq<BlockPair>)
    ensures |cts| == IdealCot.Min(|keys|, IdealCot.Min(|msgs|, |flips|))
    ensures forall j :: 0 <= j < |cts| ==> cts[j] == EncryptPair(keys[j], msgs[j], flips[j])
  {
    var n := IdealCot.Min(|keys|, IdealCot.Min(|msgs|, |flips|));
    seq(n, j requires 0 <= j < n => EncryptPair(keys[j], msgs[j], flips[j]))
  }

  /** The pairs laid out one after another, as the payload carries them. */
  function Flatten(ps: seq<BlockPair>): (bs: seq<Block>)
    ensures |bs| == 2 * |ps|
  {
    seq(2 * |ps|, i requires 0 <= i < 2 * |ps| => Pick(ps[i / 2], i % 2 == 1))
  }

  /** `chunks(2)` of an even-length payload. */
  function Pairs(bs: seq<Block>): (ps: seq<BlockPair>)
    requires |bs| % 2 == 0
    ensures |ps| == |bs| / 2
  {
    seq(|bs| / 2, j requires 0 <= j < |bs| / 2 => BlockPair(bs[2 * j], bs[2 * j + 1]))
  }

  /** Cutting a flattened payload into pairs gives the pairs back, and the other way round. */
  lemma PairsFlatten(ps: seq<BlockPair>)
    ensures Pairs(Flatten(ps)) == ps
  {
    var f := Flatten(ps);
    forall j | 0 <= j < |ps|
      ensures Pairs(f)[j] == ps[j]
    {
      DivModUnique(2 * j, 2, j, 0);
      DivModUnique(2 * j + 1, 2, j, 1);
    }
  }

  lemma FlattenPairs(bs: seq<Block>)
    requires |bs| % 2 == 0
    ensures Flatten(Pairs(bs)) == bs
  {
    var ps := Pairs(bs);
    forall i | 0 <= i < |bs|
      ensures Flatten(ps)[i] == bs[i]
    {
      DivisionOf(i, 2);
    }
  }

  /** The receiver's plaintexts: its key xored with the ciphertext its choice selects. */
  function Decrypt(keys: seq<Block>, choices: seq<bool>, cts: seq<BlockPair>): (ms: seq<Block>)
    requires |keys| == |choices| == |cts|
    ensures |ms| == |keys|
  {
    seq(|keys|, j requires 0 <= j < |keys| => Xor(keys[j], Pick(cts[j], choices[j])))
  }

  /**
   * Oblivious transfer is correct: when the receiver holds the key its
   * random choice `r` selects and the sender flips by `r ^ b`, decrypting
   * with the chosen bit `b` yields the message `b` selects.
   */
  lemma TransferCorrect(pairs: seq<BlockPair>, rs: seq<bool>, bs: seq<bool>, msgs: seq<BlockPair>, flips: seq<bool>)
    requires |pairs| == |rs| == |bs| == |msgs| <= |flips|
    requires forall j :: 0 <= j < |pairs| ==> flips[j] == (rs[j] != bs[j])
    ensures |Encrypt(pairs, msgs, flips)| == |pairs|
    ensures Decrypt(Picks(pairs, rs), bs, Encrypt(pairs, msgs, flips)) == Picks(msgs, bs)
  {
    var cts := Encrypt(pairs, msgs, flips);
    forall j | 0 <= j < |pairs|
      ensures Xor(Pick(pairs[j], rs[j]), Pick(cts[j], bs[j])) == Pick(msgs[j], bs[j])
    {
      var k := Pick(pairs[j], rs[j]);
      var m := Pick(msgs[j], bs[j]);
      assert Pick(cts[j], bs[j]) == Xor(k, m);
      XorAssoc(k, k, m);
      XorSelf(k);
      XorZero(m);
    }
  }

  /**
   * The receiver's recomputation of one ciphertext pair from a purported
   * message pair: its own key on the side of its choice, and the other
   * key, `tccr(tweak, t ^ delta)`, on the other side.
   */
  function RecomputePair(tccr: GarbleCore.Hash, delta: Block, tweak: nat, c: bool, t: Block, key: Block, m: BlockPair): BlockPair {
    var other := tccr(TweakBlock(tweak), Xor(t, delta));
    if c then BlockPair(Xor(m.b0, other), Xor(m.b1, key))
    else BlockPair(Xor(m.b0, key), Xor(m.b1, other))
  }

  /** The recomputed ciphertexts; the zip stops at the shortest input. */
  function Recompute(tccr: GarbleCore.Hash, delta: Block, counter: nat, cs: seq<bool>, ts: seq<Block>,
                     keys: seq<Block>, msgs: seq<BlockPair>): (cts: seq<BlockPair>)
    ensures |cts| == IdealCot.Min(|cs|, IdealCot.Min(|ts|, IdealCot.Min(|keys|, |msgs|)))
  {
    var n := IdealCot.Min(|cs|, IdealCot.Min(|ts|, IdealCot.Min(|keys|, |msgs|)));
    seq(n, j requires 0 <= j < n => RecomputePair(tccr, delta, counter + j, cs[j], ts[j], keys[j], msgs[j]))
  }

  /**
   * Verification accepts an honest sender: for correlated rows, the
   * recomputed ciphertexts of the true messages are the ones the sender
   * produced with the flip `r ^ b`.
   */
  lemma RecomputeHonest(tccr: GarbleCore.Hash, delta: Block, counter: nat, qs: seq<Block>, rs: seq<bool>,
                        bs: seq<bool>, msgs: seq<BlockPair>, flips: seq<bool>)
    requires |qs| == |rs| == |bs| == |msgs| <= |flips|
    requires forall j :: 0 <= j < |qs| ==> flips[j] == (rs[j] != bs[j])
    ensures var ts := IdealCot.Correlate(delta, qs, rs);
            Recompute(tccr, delta, counter, bs, ts, ReceiverKeys(tccr, counter, ts), msgs)
            == Encrypt(SenderKeyPairs(tccr, delta, counter, qs), msgs, flips)
  {
    var ts := IdealCot.Correlate(delta, qs, rs);
    var pairs := SenderKeyPairs(tccr, delta, counter, qs);
    var lhs := Recompute(tccr, delta, counter, bs, ts, ReceiverKeys(tccr, counter, ts), msgs);
    var rhs := Encrypt(pairs, msgs, flips);
    forall j | 0 <= j < |qs|
      ensures lhs[j] == rhs[j]
    {
      ReceiverHoldsChosenKey(tccr, delta, counter, qs, rs, j);
      var p := pairs[j];
      XorComm(msgs[j].b0, p.b0);
      XorComm(msgs[j].b0, p.b1);
      XorComm(msgs[j].b1, p.b0);
      XorComm(msgs[j].b1, p.b1);
    }
  }
}
