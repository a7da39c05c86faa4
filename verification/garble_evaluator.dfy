/**
 * The garbled-circuit evaluator of mpz-garble-core: it walks the gates of
 * a circuit in order, keeps one active label per feed, derives XOR and
 * inverter outputs for free and consumes one encrypted gate per AND gate,
 * in batches.
 */
module GarbleEvaluator {
  import opened Wrappers
  import opened Blocks
  import opened Components
  import opened CircuitTypes
  import opened Feeds
  import opened Circuits
  import opened GarbleCore

  /** The evaluator's progress as a value: active labels, the next gate id, and how many tables it has used. */
  datatype EvState = EvState(active: seq<Option<Block>>, gid: nat, used: nat)

  /** Table `i` of `ts`; a run over well-formed input never asks past the end. */
  function TableAt(ts: seq<EncryptedGate>, i: nat): EncryptedGate {
    if i < |ts| then ts[i] else EncryptedGate(Zero, Zero)
  }

  /** One gate of `Evaluator::evaluate`, drawing an AND gate's table from `ts` at index `s.used`. */
  function EvStep(h: Hash, ts: seq<EncryptedGate>, s: EvState, g: Gate): (r: EvState)
    requires g.z.id < |s.active|
    ensures |r.active| == |s.active|
    ensures r.used == s.used + (if g.AndGate? then 1 else 0)
  {
    match g
    case InvGate(x, z) => s.(active := s.active[z.id := Some(LabelAt(s.active, x.id))])
    case XorGate(x, y, z) => s.(active := s.active[z.id := Some(Xor(LabelAt(s.active, x.id), LabelAt(s.active, y.id)))])
    case AndGate(x, y, z) =>
      var l := EvalAndGate(h, LabelAt(s.active, x.id), LabelAt(s.active, y.id), TableAt(ts, s.used), s.gid);
      EvState(s.active[z.id := Some(l)], s.gid + 2, s.used + 1)
  }

  /** The evaluator's state after the first `n` gates of `gs`, in order, with the tables `ts`. */
  function EvRun(h: Hash, ts: seq<EncryptedGate>, s: EvState, gs: seq<Gate>, n: nat): (r: EvState)
    requires OutputsIn(gs, |s.active|) && n <= |gs|
    ensures |r.active| == |s.active|
  {
    if n == 0 then s else EvStep(h, ts, EvRun(h, ts, s, gs, n - 1), gs[n - 1])
  }

  lemma EvRunNext(h: Hash, ts: seq<EncryptedGate>, s: EvState, gs: seq<Gate>, n: nat)
    requires OutputsIn(gs, |s.active|) && n < |gs|
    ensures EvRun(h, ts, s, gs, n + 1) == EvStep(h, ts, EvRun(h, ts, s, gs, n), gs[n])
  {
  }

  /** An inverter gate copies the label it reads. */
  lemma EvStepInv(h: Hash, ts: seq<EncryptedGate>, s: EvState, g: Gate, lx: Block)
    requires g.InvGate? && g.z.id < |s.active| && lx == LabelAt(s.active, g.x.id)
    ensures EvStep(h, ts, s, g) == s.(active := s.active[g.z.id := Some(lx)])
  {
  }

  /** An XOR gate XORs the labels it reads. */
  lemma EvStepXor(h: Hash, ts: seq<EncryptedGate>, s: EvState, g: Gate, lx: Block, ly: Block)
    requires g.XorGate? && g.z.id < |s.active|
    requires lx == LabelAt(s.active, g.x.id) && ly == LabelAt(s.active, g.y.id)
    ensures EvStep(h, ts, s, g) == s.(active := s.active[g.z.id := Some(Xor(lx, ly))])
  {
  }

  /** An AND gate decrypts its output label from the labels it reads and the next table. */
  lemma EvStepAnd(h: Hash, ts: seq<EncryptedGate>, s: EvState, g: Gate, lx: Block, ly: Block)
    requires g.AndGate? && g.z.id < |s.active| && s.used < |ts|
    requires lx == LabelAt(s.active, g.x.id) && ly == LabelAt(s.active, g.y.id)
    ensures EvStep(h, ts, s, g) == EvState(s.active[g.z.id := Some(EvalAndGate(h, lx, ly, ts[s.used], s.gid))], s.gid + 2, s.used + 1)
  {
  }

  /** Every AND gate uses exactly one table and advances the gate id by two. */
  lemma {:induction false} EvRunCounts(h: Hash, ts: seq<EncryptedGate>, s: EvState, gs: seq<Gate>, n: nat)
    requires OutputsIn(gs, |s.active|) && n <= |gs|
    ensures EvRun(h, ts, s, gs, n).gid == s.gid + 2 * CountAnd(gs[..n])
    ensures EvRun(h, ts, s, gs, n).used == s.used + CountAnd(gs[..n])
  {
    if n > 0 {
      EvRunCounts(h, ts, s, gs, n - 1);
      CountAndPrefix(gs, n);
    }
  }

  /** A run depends only on the tables it uses: two table lists that agree that far give the same run. */
  lemma {:induction false} EvRunTables(h: Hash, ts1: seq<EncryptedGate>, ts2: seq<EncryptedGate>, s: EvState, gs: seq<Gate>, n: nat)
    requires OutputsIn(gs, |s.active|) && n <= |gs|
    requires s.used + CountAnd(gs[..n]) <= |ts1| && s.used + CountAnd(gs[..n]) <= |ts2|
    requires ts1[..s.used + CountAnd(gs[..n])] == ts2[..s.used + CountAnd(gs[..n])]
    ensures EvRun(h, ts1, s, gs, n) == EvRun(h, ts2, s, gs, n)
  {
    if n > 0 {
      var u := s.used + CountAnd(gs[..n]);
      var m := s.used + CountAnd(gs[..n - 1]);
      CountAndPrefix(gs, n);
      assert ts1[..m] == ts1[..u][..m];
      assert ts2[..m] == ts2[..u][..m];
      EvRunTables(h, ts1, ts2, s, gs, n - 1);
      EvRunCounts(h, ts1, s, gs, n - 1);
      if gs[n - 1].AndGate? {
        assert ts1[m] == ts1[..u][m];
        assert ts2[m] == ts2[..u][m];
      }
    }
  }

  /** Evaluation keeps set labels set and sets the output label of every gate. */
  lemma {:induction false} EvRunDefines(h: Hash, ts: seq<EncryptedGate>, s: EvState, gs: seq<Gate>, n: nat)
    requires OutputsIn(gs, |s.active|) && n <= |gs|
    ensures forall id :: 0 <= id < |s.active| && s.active[id].Some? ==> EvRun(h, ts, s, gs, n).active[id].Some?
    ensures forall id :: id in OutIds(gs[..n]) ==> id < |s.active| && EvRun(h, ts, s, gs, n).active[id].Some?
  {
    if n > 0 {
      EvRunDefines(h, ts, s, gs, n - 1);
      OutIdsPrefix(gs, n);
    }
  }

  /** Before gate `i` runs, every feed it reads is set. */
  lemma EvReadsSet(h: Hash, ts: seq<EncryptedGate>, s: EvState, gs: seq<Gate>, defined: set<nat>, i: nat)
    requires OutputsIn(gs, |s.active|) && i < |gs|
    requires forall id :: id in defined ==> id < |s.active| && s.active[id].Some?
    requires ReadsBefore(gs, defined)
    ensures forall id :: id in ReadIds(gs[i]) ==> id < |s.active| && EvRun(h, ts, s, gs, i).active[id].Some?
  {
    EvRunDefines(h, ts, s, gs, i);
    assert ReadIds(gs[i]) <= defined + OutIds(gs[..i]);
  }

  /** Running one more gate, an AND gate, with its table `t` appended to the tables used so far. */
  lemma EvAndSnoc(h: Hash, seen: seq<EncryptedGate>, s: EvState, gs: seq<Gate>, i: nat, t: EncryptedGate)
    requires OutputsIn(gs, |s.active|) && i < |gs| && gs[i].AndGate?
    requires EvRun(h, seen, s, gs, i).used == |seen|
    ensures EvRun(h, seen + [t], s, gs, i + 1) == EvStep(h, seen + [t], EvRun(h, seen, s, gs, i), gs[i])
  {
    EvRunCounts(h, seen, s, gs, i);
    assert (seen + [t])[..|seen|] == seen[..|seen|];
    EvRunTables(h, seen, seen + [t], s, gs, i);
  }

  // ------------------------------------------------------------ batches

  /** Where `evaluate` stands between batches: the labels, the gate id, the circuit position and completion. */
  datatype Cursor = Cursor(active: seq<Option<Block>>, gid: nat, pos: nat, complete: bool)

  /**
   * One call of `evaluate` on the tables `batch` (from index `k` on), as
   * intended: the gates are processed in order until an AND gate finds no
   * table left, and the evaluator then stays in front of that gate; once
   * every gate is processed it is complete.
   */
  function Batch(h: Hash, gates: seq<Gate>, c: Cursor, batch: seq<EncryptedGate>, k: nat): (r: Cursor)
    requires OutputsIn(gates, |c.active|) && c.pos <= |gates| && k <= |batch|
    ensures |r.active| == |c.active| && c.pos <= r.pos <= |gates|
    decreases |gates| - c.pos, 1
  {
    if c.pos == |gates| then c.(complete := true)
    else if gates[c.pos].AndGate? && k == |batch| then c
    else BatchOn(h, gates, c, batch, k)
  }

  /** `Batch` once the gate at the cursor can run: that gate, then the rest of the call. */
  function BatchOn(h: Hash, gates: seq<Gate>, c: Cursor, batch: seq<EncryptedGate>, k: nat): (r: Cursor)
    requires OutputsIn(gates, |c.active|) && c.pos < |gates| && k <= |batch|
    requires !(gates[c.pos].AndGate? && k == |batch|)
    ensures |r.active| == |c.active| && c.pos < r.pos <= |gates|
    decreases |gates| - c.pos, 0
  {
    var s := EvStep(h, batch, EvState(c.active, c.gid, k), gates[c.pos]);
    Batch(h, gates, Cursor(s.active, s.gid, c.pos + 1, c.complete), batch, s.used)
  }

  lemma AppendSlices<T>(s: seq<T>, b: seq<T>, i: nat, j: nat)
    requires i <= j <= |b|
    ensures (s + b[..i]) + b[i..j] == s + b[..j]
  {
    assert b[..i] + b[i..j] == b[..j];
  }

  /** One gate of a batch: when the next gate can run, the call goes on from the state after it. */
  lemma BatchStep(h: Hash, gates: seq<Gate>, c: Cursor, batch: seq<EncryptedGate>, k: nat, s: EvState)
    requires OutputsIn(gates, |c.active|) && c.pos < |gates| && k <= |batch|
    requires !(gates[c.pos].AndGate? && k == |batch|)
    requires s == EvStep(h, batch, EvState(c.active, c.gid, k), gates[c.pos])
    ensures Batch(h, gates, c, batch, k) == Batch(h, gates, Cursor(s.active, s.gid, c.pos + 1, c.complete), batch, s.used)
  {
  }

  /**
   * The same call as the source writes it: the AND gate that finds no
   * table has already been taken from the circuit iterator, and is
   * dropped.
   */
  function BatchAsWritten(h: Hash, gates: seq<Gate>, c: Cursor, batch: seq<EncryptedGate>, k: nat): (r: Cursor)
    requires OutputsIn(gates, |c.active|) && c.pos <= |gates| && k <= |batch|
    ensures |r.active| == |c.active| && c.pos <= r.pos <= |gates|
    decreases |gates| - c.pos, 1
  {
    if c.pos == |gates| then c.(complete := true)
    else if gates[c.pos].AndGate? && k == |batch| then c.(pos := c.pos + 1)
    else BatchAsWrittenOn(h, gates, c, batch, k)
  }

  function BatchAsWrittenOn(h: Hash, gates: seq<Gate>, c: Cursor, batch: seq<EncryptedGate>, k: nat): (r: Cursor)
    requires OutputsIn(gates, |c.active|) && c.pos < |gates| && k <= |batch|
    requires !(gates[c.pos].AndGate? && k == |batch|)
    ensures |r.active| == |c.active| && c.pos < r.pos <= |gates|
    decreases |gates| - c.pos, 0
  {
    var s := EvStep(h, batch, EvState(c.active, c.gid, k), gates[c.pos]);
    BatchAsWritten(h, gates, Cursor(s.active, s.gid, c.pos + 1, c.complete), batch, s.used)
  }

  /** One gate reading its table from index `|pre| + k` of `pre + batch` reads `batch[k]`. */
  lemma StepShift(h: Hash, pre: seq<EncryptedGate>, batch: seq<EncryptedGate>, active: seq<Option<Block>>, gid: nat, k: nat, g: Gate)
    requires g.z.id < |active| && (g.AndGate? ==> k < |batch|)
    ensures var r := EvStep(h, batch, EvState(active, gid, k), g);
      var r' := EvStep(h, pre + batch, EvState(active, gid, |pre| + k), g);
      r'.active == r.active && r'.gid == r.gid && r'.used == |pre| + r.used
  {
    if g.AndGate? {
      assert TableAt(pre + batch, |pre| + k) == TableAt(batch, k);
    }
  }

  /** One gate reading its table from index `k` of `t1 + t2`, with `k` inside `t1`, reads `t1[k]`. */
  lemma StepExtend(h: Hash, t1: seq<EncryptedGate>, t2: seq<EncryptedGate>, active: seq<Option<Block>>, gid: nat, k: nat, g: Gate)
    requires g.z.id < |active| && (g.AndGate? ==> k < |t1|)
    ensures EvStep(h, t1 + t2, EvState(active, gid, k), g) == EvStep(h, t1, EvState(active, gid, k), g)
  {
    if g.AndGate? {
      assert TableAt(t1 + t2, k) == TableAt(t1, k);
    }
  }

  /** Reading `batch` from index `|pre|` of `pre + batch` is reading `batch` from 0. */
  lemma {:induction false} BatchShift(h: Hash, gates: seq<Gate>, c: Cursor, pre: seq<EncryptedGate>, batch: seq<EncryptedGate>, k: nat)
    requires OutputsIn(gates, |c.active|) && c.pos <= |gates| && k <= |batch|
    ensures Batch(h, gates, c, pre + batch, |pre| + k) == Batch(h, gates, c, batch, k)
    decreases |gates| - c.pos
  {
    if c.pos == |gates| {
    } else if gates[c.pos].AndGate? && k == |batch| {
      assert |pre| + k == |pre + batch|;
    } else {
      var s := EvStep(h, batch, EvState(c.active, c.gid, k), gates[c.pos]);
      BatchShift(h, gates, Cursor(s.active, s.gid, c.pos + 1, c.complete), pre, batch, s.used);
      BatchStepShifted(h, gates, c, pre, batch, k, s);
      BatchStep(h, gates, c, batch, k, s);
    }
  }

  /** One step of `Batch` on `pre + batch` from index `|pre| + k` is the step on `batch` from `k`, shifted. */
  lemma BatchStepShifted(h: Hash, gates: seq<Gate>, c: Cursor, pre: seq<EncryptedGate>, batch: seq<EncryptedGate>, k: nat, s: EvState)
    requires OutputsIn(gates, |c.active|) && c.pos < |gates| && k <= |batch|
    requires !(gates[c.pos].AndGate? && k == |batch|)
    requires s == EvStep(h, batch, EvState(c.active, c.gid, k), gates[c.pos])
    ensures Batch(h, gates, c, pre + batch, |pre| + k)
         == Batch(h, gates, Cursor(s.active, s.gid, c.pos + 1, c.complete), pre + batch, |pre| + s.used)
  {
    StepShift(h, pre, batch, c.active, c.gid, k, gates[c.pos]);
    BatchStep(h, gates, c, pre + batch, |pre| + k, EvState(s.active, s.gid, |pre| + s.used));
  }

  /**
   * Batching does not matter: evaluating `t1` and then `t2` leaves the
   * evaluator exactly where evaluating `t1 + t2` in one call does.
   */
  lemma {:induction false} BatchSplit(h: Hash, gates: seq<Gate>, c: Cursor, t1: seq<EncryptedGate>, t2: seq<EncryptedGate>, k: nat)
    requires OutputsIn(gates, |c.active|) && c.pos <= |gates| && k <= |t1|
    ensures Batch(h, gates, Batch(h, gates, c, t1, k), t2, 0) == Batch(h, gates, c, t1 + t2, k)
    decreases |gates| - c.pos
  {
    if c.pos == |gates| {
    } else if gates[c.pos].AndGate? && k == |t1| {
      BatchShift(h, gates, c, t1, t2, 0);
    } else {
      var s := EvStep(h, t1, EvState(c.active, c.gid, k), gates[c.pos]);
      StepExtend(h, t1, t2, c.active, c.gid, k, gates[c.pos]);
      BatchSplit(h, gates, Cursor(s.active, s.gid, c.pos + 1, c.complete), t1, t2, s.used);
      BatchStep(h, gates, c, t1, k, s);
      BatchStep(h, gates, c, t1 + t2, k, s);
    }
  }

  /** Two AND gates that read the feeds 0 and 1, the inputs of the counterexample below. */
  function TwoAnds(): (gs: seq<Gate>)
    ensures OutputsIn(gs, 4)
  {
    [AndGate(Sink(0), Sink(1), Feed(2)), AndGate(Sink(0), Sink(1), Feed(3))]
  }

  /** The cursor after the first of the two AND gates, whose table is `t`. */
  lemma FirstAnd(h: Hash, t: EncryptedGate, ts: seq<EncryptedGate>, l0: Block, l1: Block)
    requires |ts| > 0 && ts[0] == t
    ensures EvStep(h, ts, EvState([Some(l0), Some(l1), None, None], 1, 0), TwoAnds()[0])
      == EvState([Some(l0), Some(l1), Some(EvalAndGate(h, l0, l1, t, 1)), None], 3, 1)
  {
  }

  /** The cursor after the second AND gate, whose table is `ts[1]`. */
  lemma SecondAnd(h: Hash, ts: seq<EncryptedGate>, l0: Block, l1: Block, l2: Block)
    requires |ts| > 1
    ensures EvStep(h, ts, EvState([Some(l0), Some(l1), Some(l2), None], 3, 1), TwoAnds()[1])
      == EvState([Some(l0), Some(l1), Some(l2), Some(EvalAndGate(h, l0, l1, ts[1], 3))], 5, 2)
  {
  }

  /** One step of the call as written, when the next gate can run. */
  lemma AsWrittenStep(h: Hash, gates: seq<Gate>, c: Cursor, batch: seq<EncryptedGate>, k: nat, s: EvState)
    requires OutputsIn(gates, |c.active|) && c.pos < |gates| && k <= |batch|
    requires !(gates[c.pos].AndGate? && k == |batch|)
    requires s == EvStep(h, batch, EvState(c.active, c.gid, k), gates[c.pos])
    ensures BatchAsWritten(h, gates, c, batch, k) == BatchAsWritten(h, gates, Cursor(s.active, s.gid, c.pos + 1, c.complete), batch, s.used)
  {
  }

  /** As written, one table per call: the first call drops the second gate, and the second call finds the circuit done. */
  lemma AsWrittenSplit(h: Hash, t: EncryptedGate, l0: Block, l1: Block)
    ensures var c := Cursor([Some(l0), Some(l1), None, None], 1, 0, false);
      var split := BatchAsWritten(h, TwoAnds(), BatchAsWritten(h, TwoAnds(), c, [t], 0), [t], 0);
      split.complete && split.active[3].None?
  {
    var c := Cursor([Some(l0), Some(l1), None, None], 1, 0, false);
    var s1 := EvState([Some(l0), Some(l1), Some(EvalAndGate(h, l0, l1, t, 1)), None], 3, 1);
    FirstAnd(h, t, [t], l0, l1);
    AsWrittenStep(h, TwoAnds(), c, [t], 0, s1);
  }

  /** As written, both tables in one call: both gates are evaluated. */
  lemma AsWrittenWhole(h: Hash, t: EncryptedGate, l0: Block, l1: Block)
    ensures var c := Cursor([Some(l0), Some(l1), None, None], 1, 0, false);
      var whole := BatchAsWritten(h, TwoAnds(), c, [t, t], 0);
      whole.complete && whole.active[3].Some?
  {
    var c := Cursor([Some(l0), Some(l1), None, None], 1, 0, false);
    var l2 := EvalAndGate(h, l0, l1, t, 1);
    var s1 := EvState([Some(l0), Some(l1), Some(l2), None], 3, 1);
    FirstAnd(h, t, [t, t], l0, l1);
    AsWrittenStep(h, TwoAnds(), c, [t, t], 0, s1);
    var c1 := Cursor(s1.active, 3, 1, false);
    var s2 := EvState([Some(l0), Some(l1), Some(l2), Some(EvalAndGate(h, l0, l1, t, 3))], 5, 2);
    SecondAnd(h, [t, t], l0, l1, l2);
    AsWrittenStep(h, TwoAnds(), c1, [t, t], 1, s2);
  }

  /**
   * As written, batching loses gates: with two AND gates, one table per
   * call leaves the second gate's output unset although the evaluator
   * reports completion, while both tables in one call set it.  This holds
   * for every hash, table and pair of input labels.
   */
  lemma AsWrittenDropsAndGate(h: Hash, t: EncryptedGate, l0: Block, l1: Block)
    ensures var c := Cursor([Some(l0), Some(l1), None, None], 1, 0, false);
      var split := BatchAsWritten(h, TwoAnds(), BatchAsWritten(h, TwoAnds(), c, [t], 0), [t], 0);
      var whole := BatchAsWritten(h, TwoAnds(), c, [t, t], 0);
      && split.complete && split.active[3].None?
      && whole.complete && whole.active[3].Some?
  {
    AsWrittenSplit(h, t, l0, l1);
    AsWrittenWhole(h, t, l0, l1);
  }

  /** The corrected call on the same input sets the second gate's output whether or not the tables are split. */
  lemma CorrectedKeepsAndGate(h: Hash, t: EncryptedGate, l0: Block, l1: Block)
    ensures var c := Cursor([Some(l0), Some(l1), None, None], 1, 0, false);
      var split := Batch(h, TwoAnds(), Batch(h, TwoAnds(), c, [t], 0), [t], 0);
      split.complete && split.active[3].Some? && split == Batch(h, TwoAnds(), c, [t, t], 0)
  {
    var c := Cursor([Some(l0), Some(l1), None, None], 1, 0, false);
    BatchSplit(h, TwoAnds(), c, [t], [t], 0);
    assert [t] + [t] == [t, t];
    var l2 := EvalAndGate(h, l0, l1, t, 1);
    var s1 := EvState([Some(l0), Some(l1), Some(l2), None], 3, 1);
    FirstAnd(h, t, [t, t], l0, l1);
    BatchStep(h, TwoAnds(), c, [t, t], 0, s1);
    var c1 := Cursor(s1.active, 3, 1, false);
    var s2 := EvState([Some(l0), Some(l1), Some(l2), Some(EvalAndGate(h, l0, l1, t, 3))], 5, 2);
    SecondAnd(h, [t, t], l0, l1, l2);
    BatchStep(h, TwoAnds(), c1, [t, t], 1, s2);
  }

  // ---------------------------------------------------------- the class

  function ActiveTypes(vs: seq<ActiveValue>): (r: seq<ValueType>)
    ensures |r| == |vs|
    ensures forall k :: 0 <= k < |vs| ==> r[k] == vs[k].typ
  {
    seq(|vs|, k requires 0 <= k < |vs| => vs[k].typ)
  }

  function ActiveLabels(vs: seq<ActiveValue>): (r: seq<seq<Block>>)
    ensures |r| == |vs|
    ensures forall k :: 0 <= k < |vs| ==> r[k] == vs[k].labels
  {
    seq(|vs|, k requires 0 <= k < |vs| => vs[k].labels)
  }

  /** The active labels before any input is written: the constant label on feeds 0 and 1. */
  function EvConsts(one: Block, n: nat): (r: seq<Option<Block>>)
    requires n >= 2
    ensures |r| == n
  {
    Nones<Block>(n)[0 := Some(one)][1 := Some(one)]
  }

  function ActiveOutputs(outputs: seq<BinaryRepr>, active: seq<Option<Block>>): (r: seq<ActiveValue>)
    ensures |r| == |outputs|
    ensures forall k :: 0 <= k < |outputs| ==> r[k] == ActiveValue(ReprType(outputs[k]), LabelsAt(ReprNodes(outputs[k]), active))
  {
    seq(|outputs|, k requires 0 <= k < |outputs| => ActiveValue(ReprType(outputs[k]), LabelsAt(ReprNodes(outputs[k]), active)))
  }

  class Evaluator {
    const h: Hash
    /** The gates of the circuit in iteration order. */
    const gates: seq<Gate>
    const outputs: seq<BinaryRepr>
    /** The state the evaluator was created in, and the feeds set in it. */
    ghost const start: EvState
    ghost const defined: set<nat>
    var active: seq<Option<Block>>
    /** The position of the circuit iterator: how many gates have been processed. */
    var pos: nat
    var gid: nat
    var complete: bool
    /** The encrypted gates used so far, in order. */
    ghost var seen: seq<EncryptedGate>

    /**
     * The state is the evaluation of the first `pos` gates with the tables
     * used so far, every gate reads (and every output names) a feed set
     * initially or by an earlier gate, and completion means every gate
     * has been processed.
     */
    ghost predicate Valid()
      reads this
    {
      && SetUp()
      && pos <= |gates|
      && EvState(active, gid, |seen|) == EvRun(h, seen, start, gates, pos)
      && (complete ==> pos == |gates|)
    }

    /** The part of `Valid` fixed at construction: the circuit reads only feeds set before. */
    ghost predicate SetUp()
    {
      && start.used == 0 && start.gid == 1
      && OutputsIn(gates, |start.active|)
      && (forall id :: id in defined ==> id < |start.active| && start.active[id].Some?)
      && ReadsBefore(gates, defined)
      && (forall k :: 0 <= k < |outputs| ==> NodeIds(ReprNodes(outputs[k])) <= defined + OutIds(gates))
    }

    constructor (h: Hash, gates: seq<Gate>, outputs: seq<BinaryRepr>, active: seq<Option<Block>>, ghost defined: set<nat>)
      requires OutputsIn(gates, |active|)
      requires forall id :: id in defined ==> id < |active| && active[id].Some?
      requires ReadsBefore(gates, defined)
      requires forall k :: 0 <= k < |outputs| ==> NodeIds(ReprNodes(outputs[k])) <= defined + OutIds(gates)
      ensures Valid()
      ensures this.h == h && this.gates == gates && this.outputs == outputs
      ensures this.active == active && pos == 0 && gid == 1 && !complete && seen == []
    {
      this.h := h;
      this.gates := gates;
      this.outputs := outputs;
      this.start := EvState(active, 1, 0);
      this.defined := defined;
      this.active := active;
      this.pos := 0;
      this.gid := 1;
      this.complete := false;
      this.seen := [];
    }

    /** The cursor of the evaluator: its state between two calls of `evaluate`. */
    function Here(): Cursor
      reads this
    {
      Cursor(active, gid, pos, complete)
    }

    /**
     * `evaluate`, with the gate that finds no table left in front of it
     * kept rather than dropped: the evaluator moves exactly as `Batch`
     * says, the tables it uses are a prefix of the batch, and it stops
     * short of the end only in front of an AND gate, with the whole batch
     * used.
     */
    method Evaluate(batch: seq<EncryptedGate>)
      requires Valid()
      modifies this
      ensures Valid()
      ensures Here() == Batch(h, gates, old(Here()), batch, 0)
      ensures |old(seen)| <= |seen| <= |old(seen)| + |batch| && seen == old(seen) + batch[..|seen| - |old(seen)|]
      ensures complete <==> pos == |gates|
      ensures !complete ==> gates[pos].AndGate? && seen == old(seen) + batch
    {
      var k: nat := 0;
      ghost var c0, s0 := Here(), seen;
      while pos < |gates|
        invariant Valid()
        invariant k <= |batch| && seen == s0 + batch[..k]
        invariant Batch(h, gates, c0, batch, 0) == Batch(h, gates, Cursor(active, gid, pos, complete), batch, k)
      {
        if gates[pos].AndGate? && k == |batch| {
          assert batch[..k] == batch;
          return;
        }
        ghost var k0 := k;
        k := Advance(batch, k);
        AppendSlices(s0, batch, k0, k);
      }
      complete := true;
    }

    /** One turn of the loop of `evaluate`, as one step of `Batch`. */
    method Advance(batch: seq<EncryptedGate>, k: nat) returns (k': nat)
      requires Valid() && pos < |gates| && k <= |batch|
      requires gates[pos].AndGate? ==> k < |batch|
      modifies this
      ensures Valid()
      ensures pos == old(pos) + 1 && complete == old(complete) && k <= k' <= |batch|
      ensures seen == old(seen) + batch[k..k']
      ensures Batch(h, gates, Cursor(old(active), old(gid), old(pos), old(complete)), batch, k)
           == Batch(h, gates, Cursor(active, gid, pos, complete), batch, k')
    {
      ghost var c := Here();
      k' := TakeGate(batch, k);
      BatchStep(h, gates, c, batch, k, EvState(active, gid, k'));
    }

    /** One turn of the loop of `evaluate`: processes the next gate, an AND gate with `batch[k]`. */
    method TakeGate(batch: seq<EncryptedGate>, k: nat) returns (k': nat)
      requires Valid() && pos < |gates| && k <= |batch|
      requires gates[pos].AndGate? ==> k < |batch|
      modifies this
      ensures Valid()
      ensures pos == old(pos) + 1 && complete == old(complete)
      ensures EvState(active, gid, k') == EvStep(h, batch, EvState(old(active), old(gid), k), gates[old(pos)])
      ensures seen == old(seen) + batch[k..k']
    {
      match gates[pos] {
        case InvGate(_, _) =>
          TakeInv(batch, k);
          k' := k;
          assert batch[k..k'] == [];
        case XorGate(_, _, _) =>
          TakeXor(batch, k);
          k' := k;
          assert batch[k..k'] == [];
        case AndGate(_, _, _) =>
          TakeAnd(batch, k);
          k' := k + 1;
          assert batch[k..k'] == [batch[k]];
      }
    }

    /** An inverter gate: its output label is its input label (the generator flips the low label instead). */
    method TakeInv(ghost batch: seq<EncryptedGate>, ghost k: nat)
      requires Valid() && pos < |gates| && gates[pos].InvGate?
      modifies this
      ensures Valid()
      ensures pos == old(pos) + 1 && complete == old(complete) && seen == old(seen) && gid == old(gid)
      ensures EvState(active, gid, k) == EvStep(h, batch, EvState(old(active), old(gid), k), gates[old(pos)])
    {
      var g := gates[pos];
      EvReadsSet(h, seen, start, gates, defined, pos);
      assert g.x.id in ReadIds(g);
      var lx := active[g.x.id].value;
      EvStepInv(h, seen, EvState(active, gid, |seen|), g, lx);
      EvStepInv(h, batch, EvState(active, gid, k), g, lx);
      EvRunNext(h, seen, start, gates, pos);
      pos := pos + 1;
      active := active[g.z.id := Some(lx)];
    }

    /** An XOR gate: its output label is the XOR of its input labels. */
    method TakeXor(ghost batch: seq<EncryptedGate>, ghost k: nat)
      requires Valid() && pos < |gates| && gates[pos].XorGate?
      modifies this
      ensures Valid()
      ensures pos == old(pos) + 1 && complete == old(complete) && seen == old(seen) && gid == old(gid)
      ensures EvState(active, gid, k) == EvStep(h, batch, EvState(old(active), old(gid), k), gates[old(pos)])
    {
      var g := gates[pos];
      EvReadsSet(h, seen, start, gates, defined, pos);
      assert g.x.id in ReadIds(g);
      var lx := active[g.x.id].value;
      var ly := active[g.y.id].value;
      EvStepXor(h, seen, EvState(active, gid, |seen|), g, lx, ly);
      EvStepXor(h, batch, EvState(active, gid, k), g, lx, ly);
      EvRunNext(h, seen, start, gates, pos);
      pos := pos + 1;
      active := active[g.z.id := Some(Xor(lx, ly))];
    }

    /** An AND gate: its output label is decrypted from the input labels with the table `batch[k]`. */
    method TakeAnd(batch: seq<EncryptedGate>, k: nat)
      requires Valid() && pos < |gates| && gates[pos].AndGate? && k < |batch|
      modifies this
      ensures Valid()
      ensures pos == old(pos) + 1 && complete == old(complete) && seen == old(seen) + [batch[k]]
      ensures EvState(active, gid, k + 1) == EvStep(h, batch, EvState(old(active), old(gid), k), gates[old(pos)])
    {
      var g := gates[pos];
      var t := batch[k];
      EvReadsSet(h, seen, start, gates, defined, pos);
      EvAndSnoc(h, seen, start, gates, pos, t);
      assert g.x.id in ReadIds(g);
      var lx := active[g.x.id].value;
      var ly := active[g.y.id].value;
      EvStepAnd(h, seen + [t], EvState(active, gid, |seen|), g, lx, ly);
      EvStepAnd(h, batch, EvState(active, gid, k), g, lx, ly);
      pos := pos + 1;
      var l := EvalAndGate(h, lx, ly, t, gid);
      active := active[g.z.id := Some(l)];
      gid := gid + 2;
      seen := seen + [t];
    }

    /**
     * `outputs`: fails until evaluation is complete; then the active
     * encoding of each output, made of the labels of its feeds, every one
     * of which is set.
     */
    function Outputs(): (r: Result<seq<ActiveValue>, GarbleError>)
      reads this
      requires Valid()
      ensures r.Err? <==> !complete
      ensures r.Err? ==> r.error == NotFinished
      ensures r.Ok? ==> |r.value| == |outputs|
      ensures r.Ok? ==> forall k :: 0 <= k < |outputs| ==>
        var nodes := ReprNodes(outputs[k]);
        && r.value[k].typ == ReprType(outputs[k]) && |r.value[k].labels| == |nodes|
        && forall j :: 0 <= j < |nodes| ==> nodes[j].id < |active| && active[nodes[j].id] == Some(r.value[k].labels[j])
    {
      if !complete then Err(NotFinished)
      else
        EvRunDefines(h, seen, start, gates, pos);
        assert gates[..pos] == gates;
        OutputLabelsSet(active, outputs, defined + OutIds(gates));
        Ok(ActiveOutputs(outputs, active))
    }
  }

  /**
   * `Evaluator::new_with`: checks the input count, sets the two constant
   * feeds, checks each input's type in order and writes its labels, and
   * evaluates at once when the circuit has no AND gate.  The circuit must
   * have the two constant feeds, and each active encoding carries one
   * label per bit of its type.
   */
  method NewEvaluator(c: Circuit, h: Hash, one: Block, inputs: seq<ActiveValue>)
    returns (r: Result<Evaluator, GarbleError>)
    requires WellFormed(c) && c.feedCount >= 2
    requires forall k :: 0 <= k < |inputs| ==> |inputs[k].labels| == TypeLen(inputs[k].typ)
    ensures |inputs| != |c.inputs| ==> r == Err(Failed(InvalidInputCount(|c.inputs|, |inputs|)))
    ensures |inputs| == |c.inputs| && MismatchFrom(ReprTypes(c.inputs), ActiveTypes(inputs), 0).Some? ==>
      var m := MismatchFrom(ReprTypes(c.inputs), ActiveTypes(inputs), 0).value;
      r == Err(Failed(UnexpectedType(ReprType(c.inputs[m]), inputs[m].typ)))
    ensures r.Ok? <==> |inputs| == |c.inputs| && MismatchFrom(ReprTypes(c.inputs), ActiveTypes(inputs), 0).None?
    ensures r.Ok? ==> fresh(r.value) && r.value.Valid()
    ensures r.Ok? ==> r.value.h == h && r.value.gates == Gates(c) && r.value.outputs == c.outputs
    ensures r.Ok? ==> r.value.seen == [] && r.value.start == EvState(SetInputs(EvConsts(one, c.feedCount), c.inputs, ActiveLabels(inputs)), 1, 0)
    ensures r.Ok? ==>
      var c0 := Cursor(SetInputs(EvConsts(one, c.feedCount), c.inputs, ActiveLabels(inputs)), 1, 0, false);
      r.value.Here() == if c.andCount == 0 then Batch(h, Gates(c), c0, [], 0) else c0
  {
    if |inputs| != |c.inputs| {
      return Err(Failed(InvalidInputCount(|c.inputs|, |inputs|)));
    }
    var feeds := new Option<Block>[c.feedCount](_ => None);
    feeds[0] := Some(one);
    feeds[1] := Some(one);
    assert feeds[..] == EvConsts(one, c.feedCount);
    var m := WriteInputs(feeds, c.inputs, ActiveTypes(inputs), ActiveLabels(inputs));
    MismatchFromSpec(ReprTypes(c.inputs), ActiveTypes(inputs), 0);
    if m.Some? {
      return Err(Failed(UnexpectedType(ReprType(c.inputs[m.value]), inputs[m.value].typ)));
    }
    forall k | 0 <= k < |c.inputs| ensures |ReprNodes(c.inputs[k])| <= |ActiveLabels(inputs)[k]| {
      ReprNodesLength(c.inputs[k]);
    }
    SetInputsDefines(EvConsts(one, c.feedCount), c.inputs, ActiveLabels(inputs));
    var ev := new Evaluator(h, Gates(c), c.outputs, feeds[..], InputIds(c.inputs));
    if c.andCount == 0 {
      ev.Evaluate([]);
    }
    return Ok(ev);
  }
}
