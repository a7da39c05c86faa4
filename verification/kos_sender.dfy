/**
 * The KOS15 sender after base setup: it turns the receiver's extension
 * messages into unchecked rows `q`, runs the consistency check, derives
 * key pairs from the checked rows and hands them out per transfer.
 *
 * The bytes its base-OT rngs emit, the fixed-key `tccr` hash and the
 * outcome of the GF(2^128) consistency comparison are parameters.
 */
module KosSender {
  import opened Wrappers
  import opened Blocks
  import opened Arith
  import opened Transpose
  import opened KosMatrix
  import GarbleCore
  import IdealCot

  datatype SenderError =
    | InvalidState
    | InvalidCount(count: nat)
    | InvalidExtend
    | ConsistencyCheckFailed
    | InsufficientSetup(expected: nat, actual: nat)
    | IdMismatch(expected: nat, got: nat)
    | CountMismatch(expected: nat, got: nat)
    /** A panic of the source (`expect` on the transposition). */
    | Panic

  /** The receiver's correction of its random choices: transfer id, count and packed flip bits. */
  datatype Derandomize = Derandomize(id: nat, count: nat, flip: seq<bv8>)

  datatype SenderPayload = SenderPayload(id: nat, ciphertexts: seq<Block>)

  class Sender {
    /** The fixed-key hash the keys are derived with. */
    const tccr: GarbleCore.Hash
    /** The sender's base-OT choice bits. */
    const delta: Block
    var keys: seq<BlockPair>
    var uncheckedQs: seq<Block>
    var counter: nat
    var transferId: nat
    var extended: bool
    /** The checked rows the pending keys were derived from. */
    ghost var pendingQs: seq<Block>

    /**
     * Every pending key pair comes from a checked row, at the tweaks just
     * below `counter`; before the first successful check there are none.
     */
    ghost predicate Valid()
      reads this
    {
      |pendingQs| == |keys| <= counter &&
      keys == SenderKeyPairs(tccr, delta, counter - |keys|, pendingQs) &&
      (!extended ==> counter == 0 && keys == [])
    }

    /** `setup`: no keys, no unchecked rows, counters at zero. */
    constructor Setup(tccr: GarbleCore.Hash, delta: Block)
      ensures Valid() && this.tccr == tccr && this.delta == delta
      ensures keys == [] && uncheckedQs == [] && counter == 0 && transferId == 0 && !extended
    {
      this.tccr := tccr;
      this.delta := delta;
      keys := [];
      uncheckedQs := [];
      counter := 0;
      transferId := 0;
      extended := false;
      pendingQs := [];
    }

    /**
     * `extend`: refuses once a check has succeeded, a count that is not a
     * multiple of 64, and a `us` of the wrong size; otherwise appends the
     * `count` rows of the transposed matrix `q` to the unchecked rows.  A
     * zero count passes the checks and then makes the transposition panic.
     * `spad` is what the base-OT rngs emit.
     */
    method Extend(count: nat, us: seq<bv8>, spad: nat -> bv8) returns (r: Result<(), SenderError>)
      requires Valid()
      modifies this
      ensures Valid()
      ensures old(extended) ==> r == Err(InvalidState)
      ensures !old(extended) && count % 64 != 0 ==> r == Err(InvalidCount(count))
      ensures !old(extended) && count % 64 == 0 && |us| != ExtensionMatrixSize(count) ==> r == Err(InvalidExtend)
      ensures !old(extended) && count == 0 && us == [] ==> r == Err(Panic)
      ensures r.Ok? <==> !old(extended) && count % 64 == 0 && count > 0 && |us| == ExtensionMatrixSize(count)
      ensures r.Err? ==> unchanged(this)
      ensures r.Ok? ==> |us| == Csp * (count / 8) &&
                        uncheckedQs == old(uncheckedQs) + Extended(SenderMatrix(delta, spad, us, count / 8), count / 8)
      ensures r.Ok? ==> |uncheckedQs| == old(|uncheckedQs|) + count
      ensures keys == old(keys) && counter == old(counter) && transferId == old(transferId) && extended == old(extended)
    {
      if extended {
        return Err(InvalidState);
      }
      if count % 64 != 0 {
        return Err(InvalidCount(count));
      }
      if |us| != ExtensionMatrixSize(count) {
        return Err(InvalidExtend);
      }
      var rw := count / 8;
      DivisionOf(count, 64);
      DivModUnique(count, 8, 8 * (count / 64), 0);
      var q := SenderMatrix(delta, spad, us, rw);
      var matrix := new bv8[|q|](i requires 0 <= i < |q| => q[i]);
      assert matrix[..] == q;
      CspIsPow2();
      DivModUnique(matrix.Length, Csp, rw, 0);
      var t := TransposeBits(matrix, Csp);
      if t.Err? {
        return Err(Panic);
      }
      DivModUnique(matrix.Length, 16, 8 * rw, 0);
      uncheckedQs := uncheckedQs + RowBlocks(matrix[..]);
      return Ok(());
    }

    /**
     * `check`: with fewer than `CSP + SSP` unchecked rows it refuses and
     * changes nothing.  Otherwise the unchecked rows are taken; when the
     * receiver's check message does not match (`consistent` false) they are
     * lost and the call fails.  On success the last `CSP + SSP` rows are
     * sacrificed, the rest become key pairs at tweaks from `counter` on,
     * `counter` advances past them and further extension is disabled.
     */
    method Check(consistent: bool) returns (r: Result<(), SenderError>)
      requires Valid()
      modifies this
      ensures Valid()
      ensures old(|uncheckedQs|) < Csp + Ssp ==>
                r == Err(InsufficientSetup(Csp + Ssp, old(|uncheckedQs|))) && unchanged(this)
      ensures old(|uncheckedQs|) >= Csp + Ssp ==> uncheckedQs == [] && transferId == old(transferId)
      ensures old(|uncheckedQs|) >= Csp + Ssp && !consistent ==>
                r == Err(ConsistencyCheckFailed) &&
                keys == old(keys) && counter == old(counter) && extended == old(extended)
      ensures old(|uncheckedQs|) >= Csp + Ssp && consistent ==>
                var rows := old(uncheckedQs)[..old(|uncheckedQs|) - (Csp + Ssp)];
                r == Ok(()) && extended &&
                keys == old(keys) + SenderKeyPairs(tccr, delta, old(counter), rows) &&
                counter == old(counter) + |rows|
    {
      if |uncheckedQs| < Csp + Ssp {
        return Err(InsufficientSetup(Csp + Ssp, |uncheckedQs|));
      }
      var taken := uncheckedQs;
      uncheckedQs := [];
      if !consistent {
        return Err(ConsistencyCheckFailed);
      }
      var rows := taken[..|taken| - (Csp + Ssp)];
      var derived := SenderKeyPairs(tccr, delta, counter, rows);
      var base := counter - |keys|;
      assert base + |pendingQs| == counter;
      SenderKeyPairsAppend(tccr, delta, base, pendingQs, rows);
      counter := counter + |derived|;
      keys := keys + derived;
      pendingQs := pendingQs + rows;
      extended := true;
      assert counter - |keys| == base;
      assert keys == SenderKeyPairs(tccr, delta, base, pendingQs);
      return Ok(());
    }

    /**
     * `keys`: refuses to hand out more keys than are pending; otherwise the
     * oldest `count` key pairs leave the pool under the current transfer id,
     * and the id advances.
     */
    method Keys(count: nat) returns (r: Result<SenderKeys, SenderError>)
      requires Valid()
      modifies this
      ensures Valid()
      ensures count > old(|keys|) ==> r == Err(InsufficientSetup(count, old(|keys|))) && unchanged(this)
      ensures count <= old(|keys|) ==>
                r.Ok? && fresh(r.value) &&
                r.value.id == old(transferId) && r.value.derandomize.None? &&
                r.value.keys == old(keys)[..count] &&
                r.value.keys == SenderKeyPairs(tccr, delta, old(counter - |keys|), old(pendingQs)[..count]) &&
                keys == old(keys)[count..] && transferId == old(transferId) + 1 &&
                counter == old(counter) && extended == old(extended) && uncheckedQs == old(uncheckedQs)
    {
      if count > |keys| {
        return Err(InsufficientSetup(count, |keys|));
      }
      var id := transferId;
      transferId := transferId + 1;
      var base := counter - |keys|;
      SenderKeyPairsSplit(tccr, delta, base, pendingQs, count);
      var handed := new SenderKeys(id, keys[..count]);
      keys := keys[count..];
      pendingQs := pendingQs[count..];
      assert counter - |keys| == base + count;
      assert keys == SenderKeyPairs(tccr, delta, base + count, pendingQs);
      return Ok(handed);
    }
  }

  /** The keys reserved for one transfer. */
  class SenderKeys {
    const id: nat
    const keys: seq<BlockPair>
    var derandomize: Option<Derandomize>

    constructor (id: nat, keys: seq<BlockPair>)
      ensures this.id == id && this.keys == keys && derandomize.None?
    {
      this.id := id;
      this.keys := keys;
      derandomize := None;
    }

    /**
     * `derandomize`: accepts the receiver's correction only for this
     * transfer's id and key count.
     */
    method Derandomize(d: Derandomize) returns (r: Result<(), SenderError>)
      modifies this
      ensures d.id != id ==> r == Err(IdMismatch(id, d.id)) && unchanged(this)
      ensures d.id == id && d.count != |keys| ==> r == Err(CountMismatch(|keys|, d.count)) && unchanged(this)
      ensures d.id == id && d.count == |keys| ==> r == Ok(()) && derandomize == Some(d)
    {
      if d.id != id {
        return Err(IdMismatch(id, d.id));
      }
      if d.count != |keys| {
        return Err(CountMismatch(|keys|, d.count));
      }
      derandomize := Some(d);
      return Ok(());
    }

    /** The flip bits: the correction's, or all zeros (`keys.len() / 8 + 1` bytes). */
    function FlipBits(): (f: seq<bool>)
      reads this
      ensures derandomize.None? ==> |f| > |keys| && forall j :: 0 <= j < |f| ==> !f[j]
    {
      ChoiceBits(if derandomize.Some? then derandomize.value.flip else Zeros(|keys| / 8 + 1))
    }

    /**
     * `encrypt_blocks`: refuses unless there is one message pair per key
     * pair.  Message `c` of pair `j` is masked by key `c ^ flip_j`, so the
     * holder of that key, and only the key, unmasks it; without a
     * correction every pair is encrypted.  A correction with fewer flip
     * bits than keys shortens the payload to its bits.
     */
    function EncryptBlocks(msgs: seq<BlockPair>): (r: Result<SenderPayload, SenderError>)
      reads this
      ensures |msgs| != |keys| <==> r == Err(InsufficientSetup(|msgs|, |keys|))
      ensures r.Ok? ==>
                var n := IdealCot.Min(|keys|, |FlipBits()|);
                var cts := r.value.ciphertexts;
                r.value.id == id && |cts| == 2 * n &&
                (derandomize.None? ==> n == |keys|) &&
                forall j :: 0 <= j < n ==>
                  Xor(cts[2 * j], Pick(keys[j], FlipBits()[j])) == msgs[j].b0 &&
                  Xor(cts[2 * j + 1], Pick(keys[j], !FlipBits()[j])) == msgs[j].b1
    {
      if |msgs| != |keys| then Err(InsufficientSetup(|msgs|, |keys|))
      else
        var cts := Encrypt(keys, msgs, FlipBits());
        EncryptUnmasks(keys, msgs, FlipBits());
        Ok(SenderPayload(id, Flatten(cts)))
    }
  }

  /** `vec![0; n]`. */
  function Zeros(n: nat): (z: seq<bv8>)
    ensures |z| == n && forall k :: 0 <= k < n ==> z[k] == 0
  {
    seq(n, k => 0)
  }

  /** Each flattened ciphertext unmasks with the key the flip bit selects. */
  lemma EncryptUnmasks(keys: seq<BlockPair>, msgs: seq<BlockPair>, flips: seq<bool>)
    requires |keys| == |msgs|
    ensures var cts := Flatten(Encrypt(keys, msgs, flips));
            forall j :: 0 <= j < |Encrypt(keys, msgs, flips)| ==>
              Xor(cts[2 * j], Pick(keys[j], flips[j])) == msgs[j].b0 &&
              Xor(cts[2 * j + 1], Pick(keys[j], !flips[j])) == msgs[j].b1
  {
    var e := Encrypt(keys, msgs, flips);
    var cts := Flatten(e);
    forall j | 0 <= j < |e|
      ensures Xor(cts[2 * j], Pick(keys[j], flips[j])) == msgs[j].b0
      ensures Xor(cts[2 * j + 1], Pick(keys[j], !flips[j])) == msgs[j].b1
    {
      DivModUnique(2 * j, 2, j, 0);
      DivModUnique(2 * j + 1, 2, j, 1);
      Unmask(Pick(keys[j], flips[j]), msgs[j].b0);
      Unmask(Pick(keys[j], !flips[j]), msgs[j].b1);
    }
  }

  /** A block masked by a key unmasks with the same key. */
  lemma Unmask(k: Block, m: Block)
    ensures Xor(Xor(k, m), k) == m
  {
    XorComm(k, m);
    XorCancel(m, k);
  }
}
