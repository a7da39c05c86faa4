/**
 * The KOS15 receiver after base setup: it extends with random choices,
 * keeps the rows `t` that the consistency check later releases as keys,
 * corrects its random choices into the real ones, decrypts the sender's
 * payloads and, when it keeps a tape, checks purported messages against
 * what it received.
 *
 * The bytes its base-OT rngs emit, its random choice bytes, the
 * fixed-key `tccr` hash and the ciphertext digest are parameters.
 */
module KosReceiver {
  import opened Wrappers
  import opened Blocks
  import opened Arith
  import opened Transpose
  import opened KosMatrix
  import GarbleCore
  import IdealCot

  datatype ReceiverError =
    | CountMismatch(expected: nat, got: nat)
    | InvalidPayload
    | TapeNotRecorded
    | InvalidPayloadIndex
    | InconsistentPayload
    /** A panic of the source (an `expect`, an underflow, a slice out of range). */
    | Panic

  /** The extension message: the rounded-up count and the matrix `u`. */
  datatype ExtendMsg = ExtendMsg(count: nat, us: seq<bv8>)

  /**
   * What the tape keeps of one payload: the OT counter it started at, the
   * packed choices, the rows `t`, the keys and the ciphertext digest.
   */
  datatype PayloadRecord = PayloadRecord(counter: nat, choices: seq<bv8>, ts: seq<Block>,
                                         keys: seq<Block>, digest: seq<bv8>)

  /** The digest the tape compares: the hash of a stream of ciphertext blocks. */
  type Digest = seq<Block> -> seq<bv8>

  /** A record's keys were derived from its rows at the tweaks from its counter on. */
  predicate RecordValid(tccr: GarbleCore.Hash, rec: PayloadRecord) {
    |rec.ts| == |rec.keys| && rec.keys == ReceiverKeys(tccr, rec.counter, rec.ts)
  }

  /** Every record is of a payload received before `payloadCounter`, with keys derived from its rows. */
  predicate TapeValid(tccr: GarbleCore.Hash, payloadCounter: nat, records: map<nat, PayloadRecord>) {
    forall i :: i in records ==> i < payloadCounter && RecordValid(tccr, records[i])
  }

  /** `(count + 63) & !63`: the least multiple of 64 that is not below `count`. */
  function RoundUp64(count: nat): (c: nat)
    ensures c % 64 == 0 && count <= c < count + 64
  {
    (count + 63) / 64 * 64
  }

  /**
   * `setup_choice ^ new_choice` for the zipped prefix, packed lsb0 first.
   */
  function FlipOf(setup: seq<bool>, choices: seq<bool>): (flip: seq<bv8>)
    requires |choices| <= |setup|
    ensures |flip| == (|choices| + 7) / 8
  {
    PackBits(seq(|choices|, j requires 0 <= j < |choices| => setup[j] != choices[j]))
  }

  /**
   * The sender reads the flip as `setup ^ choice` for every corrected
   * position, and as no flip on the padding of the last byte.
   */
  lemma FlipBitsOfFlip(setup: seq<bool>, choices: seq<bool>, j: nat)
    requires |choices| <= |setup| && j < 8 * ((|choices| + 7) / 8)
    ensures j / 8 < |FlipOf(setup, choices)|
    ensures ChoiceBits(FlipOf(setup, choices))[j] == (j < |choices| && setup[j] != choices[j])
  {
    var xs := seq(|choices|, i requires 0 <= i < |choices| => setup[i] != choices[i]);
    PackedBit(xs, j);
  }

  /**
   * `verify` on one record: recompute the ciphertexts of the purported
   * messages from the complementary keys and compare their digest.
   */
  predicate RecordMatches(tccr: GarbleCore.Hash, digest: Digest, rec: PayloadRecord, delta: Block, msgs: seq<BlockPair>) {
    digest(Flatten(Recompute(tccr, delta, rec.counter, ChoiceBits(rec.choices), rec.ts, rec.keys, msgs))) == rec.digest
  }

  class Receiver {
    /** The fixed-key hash the keys are derived with. */
    const tccr: GarbleCore.Hash
    const digest: Digest
    /** The tape of payload records, kept only when the sender commits. */
    var tape: Option<map<nat, PayloadRecord>>
    var ts: seq<Block>
    var keys: seq<Block>
    var choices: seq<bool>
    var keyCounter: nat
    var otCounter: nat
    var payloadCounter: nat
    var uncheckedTs: seq<Block>
    var uncheckedChoices: seq<bool>
    /** The checked rows the pending keys were derived from. */
    ghost var pendingTs: seq<Block>

    /**
     * One choice per unchecked row and per key; every pending key comes
     * from a checked row at the tweaks after the OTs already consumed;
     * with a tape the rows are kept alongside and every record is of an
     * earlier payload, with keys derived from its rows.
     */
    ghost predicate Valid()
      reads this
    {
      |uncheckedTs| == |uncheckedChoices| &&
      |keys| == |choices| == |pendingTs| &&
      keyCounter == otCounter + |keys| &&
      keys == ReceiverKeys(tccr, otCounter, pendingTs) &&
      (tape.Some? ==> ts == pendingTs && TapeValid(tccr, payloadCounter, tape.value))
    }

    /** `new` followed by `base_setup`: everything empty, counters at zero, a tape iff the sender commits. */
    constructor Setup(tccr: GarbleCore.Hash, digest: Digest, senderCommit: bool)
      ensures Valid() && this.tccr == tccr && this.digest == digest
      ensures tape == (if senderCommit then Some(map[]) else None)
      ensures ts == [] && keys == [] && choices == [] && uncheckedTs == [] && uncheckedChoices == []
      ensures keyCounter == 0 && otCounter == 0 && payloadCounter == 0
    {
      this.tccr := tccr;
      this.digest := digest;
      tape := if senderCommit then Some(map[]) else None;
      ts := [];
      keys := [];
      choices := [];
      keyCounter := 0;
      otCounter := 0;
      payloadCounter := 0;
      uncheckedTs := [];
      uncheckedChoices := [];
      pendingTs := [];
    }

    /**
     * `extend`: rounds the count up to a multiple of 64 and draws that
     * many random choices (`random` gives the bytes); appends the rows of
     * the transposed matrix `t` and the choices to the unchecked ones and
     * returns `u = t0 ^ t1 ^ r` in the size the sender accepts.  A count
     * that rounds to zero makes the transposition panic.  `pad0` and
     * `pad1` are what the two base-OT rngs of each row emit.
     */
    method Extend(count: nat, pad0: nat -> bv8, pad1: nat -> bv8, random: nat -> bv8)
      returns (r: Result<ExtendMsg, ReceiverError>)
      requires Valid()
      modifies this
      ensures Valid()
      ensures RoundUp64(count) == 0 <==> r == Err(Panic)
      ensures r.Err? ==> unchanged(this)
      ensures r.Ok? ==>
                var c := RoundUp64(count);
                var rs := seq(c / 8, random);
                r.value.count == c && |rs| == c / 8 &&
                r.value.us == ReceiverUs(pad0, pad1, rs) &&
                |r.value.us| == ExtensionMatrixSize(c) &&
                uncheckedTs == old(uncheckedTs) + Extended(ReceiverTs(pad0, c / 8), c / 8) &&
                uncheckedChoices == old(uncheckedChoices) + ChoiceBits(rs)
      ensures keys == old(keys) && choices == old(choices) && ts == old(ts) && tape == old(tape)
      ensures keyCounter == old(keyCounter) && otCounter == old(otCounter) && payloadCounter == old(payloadCounter)
    {
      var c := RoundUp64(count);
      var rw := c / 8;
      DivisionOf(c, 64);
      DivModUnique(c, 8, 8 * (c / 64), 0);
      var rs := seq(rw, random);
      var us := ReceiverUs(pad0, pad1, rs);
      var t0 := ReceiverTs(pad0, rw);
      var matrix := new bv8[|t0|](i requires 0 <= i < |t0| => t0[i]);
      assert matrix[..] == t0;
      CspIsPow2();
      DivModUnique(matrix.Length, Csp, rw, 0);
      var tr := TransposeBits(matrix, Csp);
      if tr.Err? {
        return Err(Panic);
      }
      DivModUnique(matrix.Length, 16, 8 * rw, 0);
      uncheckedTs := uncheckedTs + RowBlocks(matrix[..]);
      uncheckedChoices := uncheckedChoices + ChoiceBits(rs);
      return Ok(ExtendMsg(c, us));
    }

    /**
     * `check`: takes the unchecked rows and choices; fewer than
     * `CSP + SSP` of them make the subtraction underflow.  Otherwise the
     * last `CSP + SSP` are sacrificed, the rest become keys at the tweaks
     * from `key_counter` on and join the choices (and, with a tape, the
     * kept rows), and `key_counter` advances past them.
     */
    method Check() returns (r: Result<(), ReceiverError>)
      requires Valid()
      modifies this
      ensures Valid()
      ensures uncheckedTs == [] && uncheckedChoices == []
      ensures old(|uncheckedTs|) < Csp + Ssp ==>
                r == Err(Panic) && keys == old(keys) && choices == old(choices) && ts == old(ts) &&
                keyCounter == old(keyCounter)
      ensures old(|uncheckedTs|) >= Csp + Ssp ==> r == Ok(()) && keyCounter == old(keyCounter + |uncheckedTs|) - (Csp + Ssp)
      ensures old(|uncheckedTs|) >= Csp + Ssp ==>
                keys == old(keys) + ReceiverKeys(tccr, old(keyCounter), old(uncheckedTs[..|uncheckedTs| - (Csp + Ssp)]))
      ensures old(|uncheckedTs|) >= Csp + Ssp ==>
                choices == old(choices) + old(uncheckedChoices[..|uncheckedTs| - (Csp + Ssp)])
      ensures old(|uncheckedTs|) >= Csp + Ssp ==>
                ts == if tape.Some? then old(ts) + old(uncheckedTs[..|uncheckedTs| - (Csp + Ssp)]) else old(ts)
      ensures tape == old(tape) && otCounter == old(otCounter) && payloadCounter == old(payloadCounter)
    {
      var takenTs := uncheckedTs;
      var takenChoices := uncheckedChoices;
      uncheckedTs := [];
      uncheckedChoices := [];
      if |takenTs| < Csp + Ssp {
        return Err(Panic);
      }
      var n := |takenTs| - (Csp + Ssp);
      Release(takenTs[..n], takenChoices[..n]);
      return Ok(());
    }

    /**
     * The successful end of `check`: the kept rows become keys at the
     * tweaks from `key_counter` on, their choices join the choices, the
     * rows join the kept rows when there is a tape, and `key_counter`
     * advances past them.
     */
    method Release(rows: seq<Block>, cs: seq<bool>)
      requires Valid() && |rows| == |cs|
      modifies this
      ensures Valid()
      ensures keys == old(keys) + ReceiverKeys(tccr, old(keyCounter), rows)
      ensures choices == old(choices) + cs && keyCounter == old(keyCounter) + |rows|
      ensures ts == if tape.Some? then old(ts) + rows else old(ts)
      ensures tape == old(tape) && otCounter == old(otCounter) && payloadCounter == old(payloadCounter)
      ensures uncheckedTs == old(uncheckedTs) && uncheckedChoices == old(uncheckedChoices)
    {
      var derived := ReceiverKeys(tccr, keyCounter, rows);
      assert keyCounter == otCounter + |pendingTs|;
      ReceiverKeysAppend(tccr, otCounter, pendingTs, rows);
      keyCounter := keyCounter + |derived|;
      keys := keys + derived;
      choices := choices + cs;
      if tape.Some? {
        ts := ts + rows;
      }
      pendingTs := pendingTs + rows;
      assert keys == ReceiverKeys(tccr, otCounter, pendingTs);
    }

    /**
     * `derandomize`: more corrected choices than choices held is a slice
     * out of range.  Otherwise returns the flip `setup ^ choice` for each
     * corrected position and overwrites the choice prefix.
     */
    method Derandomize(newChoices: seq<bool>) returns (r: Result<seq<bv8>, ReceiverError>)
      requires Valid()
      modifies this
      ensures Valid()
      ensures |newChoices| > old(|choices|) <==> r == Err(Panic)
      ensures r.Err? ==> unchanged(this)
      ensures r.Ok? ==>
                r.value == FlipOf(old(choices), newChoices) &&
                choices == newChoices + old(choices)[|newChoices|..]
      ensures keys == old(keys) && ts == old(ts) && tape == old(tape) && uncheckedTs == old(uncheckedTs)
      ensures uncheckedChoices == old(uncheckedChoices)
      ensures keyCounter == old(keyCounter) && otCounter == old(otCounter) && payloadCounter == old(payloadCounter)
    {
      if |newChoices| > |choices| {
        return Err(Panic);
      }
      var flip := FlipOf(choices, newChoices);
      choices := newChoices + choices[|newChoices|..];
      return Ok(flip);
    }

    /**
     * `receive`: an odd number of ciphertexts is an invalid payload, more
     * pairs than keys a count mismatch.  Otherwise the oldest `count`
     * keys and choices are consumed and each plaintext is the key xored
     * with the ciphertext its choice selects; with a tape the payload is
     * recorded under the payload counter.  Both counters advance.
     */
    method Receive(cts: seq<Block>) returns (r: Result<seq<Block>, ReceiverError>)
      requires Valid()
      modifies this
      ensures Valid()
      ensures |cts| % 2 != 0 ==> r == Err(InvalidPayload) && unchanged(this)
      ensures |cts| % 2 == 0 && |cts| / 2 > old(|keys|) ==>
                r == Err(CountMismatch(old(|keys|), |cts| / 2)) && unchanged(this)
      ensures r.Ok? <==> |cts| % 2 == 0 && |cts| / 2 <= old(|keys|)
      ensures r.Ok? ==> r.value == Decrypt(old(keys[..|cts| / 2]), old(choices[..|cts| / 2]), Pairs(cts))
      ensures r.Ok? ==> keys == old(keys[|cts| / 2..]) && choices == old(choices[|cts| / 2..])
      ensures r.Ok? ==> otCounter == old(otCounter) + |cts| / 2 && payloadCounter == old(payloadCounter) + 1
      ensures r.Ok? && old(tape).None? ==> tape == None && ts == old(ts)
      ensures r.Ok? && old(tape).Some? ==>
                ts == old(ts[|cts| / 2..]) &&
                tape == Some(old(tape).value[old(payloadCounter) :=
                  old(PayloadRecord(otCounter, PackBits(choices[..|cts| / 2]), ts[..|cts| / 2],
                                    keys[..|cts| / 2], digest(cts)))])
      ensures keyCounter == old(keyCounter) && uncheckedTs == old(uncheckedTs) && uncheckedChoices == old(uncheckedChoices)
    {
      if |cts| % 2 != 0 {
        return Err(InvalidPayload);
      }
      var n := |cts| / 2;
      if n > |keys| {
        return Err(CountMismatch(|keys|, n));
      }
      var ks, cs := Consume(n, digest(cts));
      return Ok(Decrypt(ks, cs, Pairs(cts)));
    }

    /**
     * The successful part of `receive`: the oldest `n` keys and choices
     * (and, with a tape, rows) leave the pools, the tape records them
     * with the ciphertext digest `d` under the payload counter, and both
     * counters advance.
     */
    method Consume(n: nat, d: seq<bv8>) returns (ks: seq<Block>, cs: seq<bool>)
      requires Valid() && n <= |keys|
      modifies this
      ensures Valid()
      ensures ks == old(keys[..n]) && cs == old(choices[..n])
      ensures keys == old(keys[n..]) && choices == old(choices[n..])
      ensures otCounter == old(otCounter) + n && payloadCounter == old(payloadCounter) + 1
      ensures old(tape).None? ==> tape == None && ts == old(ts)
      ensures old(tape).Some? ==>
                ts == old(ts[n..]) &&
                tape == Some(old(tape).value[old(payloadCounter) :=
                  old(PayloadRecord(otCounter, PackBits(choices[..n]), ts[..n], keys[..n], d))])
      ensures keyCounter == old(keyCounter) && uncheckedTs == old(uncheckedTs) && uncheckedChoices == old(uncheckedChoices)
    {
      ks := keys[..n];
      cs := choices[..n];
      ReceiverKeysSplit(tccr, otCounter, pendingTs, n);
      keys := keys[n..];
      choices := choices[n..];
      if tape.Some? {
        var rts := ts[..n];
        ts := ts[n..];
        var rec := PayloadRecord(otCounter, PackBits(cs), rts, ks, d);
        assert RecordValid(tccr, rec);
        tape := Some(tape.value[payloadCounter := rec]);
      }
      pendingTs := pendingTs[n..];
      otCounter := otCounter + n;
      payloadCounter := payloadCounter + 1;
      assert keys == ReceiverKeys(tccr, otCounter, pendingTs);
    }

    /**
     * `verify`: without a tape, or for a payload index the tape does not
     * hold, it refuses; otherwise it accepts exactly when the recomputed
     * ciphertexts of the purported messages have the recorded digest.
     */
    function Verify(index: nat, delta: Block, msgs: seq<BlockPair>): (r: Result<(), ReceiverError>)
      reads this
      ensures tape.None? <==> r == Err(TapeNotRecorded)
      ensures tape.Some? && index !in tape.value <==> r == Err(InvalidPayloadIndex)
      ensures r.Ok? <==> tape.Some? && index in tape.value &&
                         RecordMatches(tccr, digest, tape.value[index], delta, msgs)
      ensures r.Err? ==> r.error in {TapeNotRecorded, InvalidPayloadIndex, InconsistentPayload}
    {
      if tape.None? then Err(TapeNotRecorded)
      else if index !in tape.value then Err(InvalidPayloadIndex)
      else if !RecordMatches(tccr, digest, tape.value[index], delta, msgs) then Err(InconsistentPayload)
      else Ok(())
    }
  }

  /**
   * The receiver's keys on correlated rows are the sender's keys its
   * random choices pick.
   */
  lemma ReceiverKeysArePicks(tccr: GarbleCore.Hash, delta: Block, counter: nat, qs: seq<Block>, rs: seq<bool>)
    requires |qs| == |rs|
    ensures ReceiverKeys(tccr, counter, IdealCot.Correlate(delta, qs, rs))
            == Picks(SenderKeyPairs(tccr, delta, counter, qs), rs)
  {
    var lhs := ReceiverKeys(tccr, counter, IdealCot.Correlate(delta, qs, rs));
    var rhs := Picks(SenderKeyPairs(tccr, delta, counter, qs), rs);
    forall j | 0 <= j < |qs|
      ensures lhs[j] == rhs[j]
    {
      ReceiverHoldsChosenKey(tccr, delta, counter, qs, rs, j);
    }
  }

  /**
   * Oblivious transfer end to end: the sender keys its pairs from rows
   * `q`, the receiver from the correlated rows `t` with random choices
   * `rs`; the receiver's derandomization turns into the sender's flips,
   * and the receiver decrypts exactly the messages its real choices `bs`
   * select.
   */
  lemma TransferEndToEnd(tccr: GarbleCore.Hash, delta: Block, counter: nat, qs: seq<Block>,
                         rs: seq<bool>, bs: seq<bool>, msgs: seq<BlockPair>)
    requires |qs| == |rs| == |bs| == |msgs|
    ensures var flips := ChoiceBits(FlipOf(rs, bs));
            var cts := Encrypt(SenderKeyPairs(tccr, delta, counter, qs), msgs, flips);
            |cts| == |qs| &&
            Decrypt(ReceiverKeys(tccr, counter, IdealCot.Correlate(delta, qs, rs)), bs, cts) == Picks(msgs, bs)
  {
    var flips := ChoiceBits(FlipOf(rs, bs));
    forall j | 0 <= j < |qs|
      ensures flips[j] == (rs[j] != bs[j])
    {
      FlipBitsOfFlip(rs, bs, j);
    }
    ReceiverKeysArePicks(tccr, delta, counter, qs, rs);
    TransferCorrect(SenderKeyPairs(tccr, delta, counter, qs), rs, bs, msgs, flips);
  }

  /**
   * `verify` accepts an honest sender: for a record of correlated rows
   * whose ciphertexts the sender encrypted with the flips of the
   * derandomization, the true messages match the recorded digest.
   */
  lemma VerifyAcceptsHonest(tccr: GarbleCore.Hash, digest: Digest, delta: Block, counter: nat, qs: seq<Block>,
                            rs: seq<bool>, bs: seq<bool>, msgs: seq<BlockPair>)
    requires |qs| == |rs| == |bs| == |msgs|
    ensures var ts := IdealCot.Correlate(delta, qs, rs);
            var flips := ChoiceBits(FlipOf(rs, bs));
            var cts := Flatten(Encrypt(SenderKeyPairs(tccr, delta, counter, qs), msgs, flips));
            var rec := PayloadRecord(counter, PackBits(bs), ts, ReceiverKeys(tccr, counter, ts), digest(cts));
            RecordValid(tccr, rec) && RecordMatches(tccr, digest, rec, delta, msgs)
  {
    var ts := IdealCot.Correlate(delta, qs, rs);
    var flips := ChoiceBits(FlipOf(rs, bs));
    var keys := ReceiverKeys(tccr, counter, ts);
    forall j | 0 <= j < |qs|
      ensures flips[j] == (rs[j] != bs[j])
    {
      FlipBitsOfFlip(rs, bs, j);
    }
    RecomputeHonest(tccr, delta, counter, qs, rs, bs, msgs, flips);
    RecomputePackedChoices(tccr, delta, counter, bs, ts, keys, msgs);
  }

  /**
   * Recomputing from packed choices is recomputing from the choices: the
   * zip stops before the padding bits of the last byte.
   */
  lemma RecomputePackedChoices(tccr: GarbleCore.Hash, delta: Block, counter: nat, bs: seq<bool>,
                               ts: seq<Block>, keys: seq<Block>, msgs: seq<BlockPair>)
    requires |bs| == |ts| == |keys| == |msgs|
    ensures Recompute(tccr, delta, counter, ChoiceBits(PackBits(bs)), ts, keys, msgs)
            == Recompute(tccr, delta, counter, bs, ts, keys, msgs)
  {
    var packed := ChoiceBits(PackBits(bs));
    assert |packed| == 8 * ((|bs| + 7) / 8) >= |bs|;
    forall j | 0 <= j < |bs|
      ensures packed[j] == bs[j]
    {
      PackedBit(bs, j);
    }
  }
}
