/**
 * The garbled-circuit generator of mpz-garble-core: it walks the gates of
 * a circuit in order, keeps the low label of every feed, derives XOR and
 * inverter outputs for free and yields one encrypted gate per AND gate.
 */
module GarbleGenerator {
  import opened Wrappers
  import opened Blocks
  import opened Components
  import opened CircuitTypes
  import opened Feeds
  import opened Circuits
  import opened GarbleCore

  /** The generator's progress as a value: the low labels, the next gate id and the tables yielded so far. */
  datatype GenState = GenState(low: seq<Option<Block>>, gid: nat, tables: seq<EncryptedGate>)

  /** One gate of `Generator::next`. */
  function GenStep(h: Hash, delta: Block, s: GenState, g: Gate): (r: GenState)
    requires g.z.id < |s.low|
    ensures |r.low| == |s.low|
  {
    match g
    case InvGate(x, z) => s.(low := s.low[z.id := Some(Xor(LabelAt(s.low, x.id), delta))])
    case XorGate(x, y, z) => s.(low := s.low[z.id := Some(Xor(LabelAt(s.low, x.id), LabelAt(s.low, y.id)))])
    case AndGate(x, y, z) =>
      var (z0, t) := GenAndGate(h, LabelAt(s.low, x.id), LabelAt(s.low, y.id), delta, s.gid);
      GenState(s.low[z.id := Some(z0)], s.gid + 2, s.tables + [t])
  }

  /** The generator's state after the first `n` gates of `gs`, in order. */
  function GenRun(h: Hash, delta: Block, s: GenState, gs: seq<Gate>, n: nat): (r: GenState)
    requires OutputsIn(gs, |s.low|) && n <= |gs|
    ensures |r.low| == |s.low|
  {
    if n == 0 then s else GenStep(h, delta, GenRun(h, delta, s, gs, n - 1), gs[n - 1])
  }

  lemma GenRunNext(h: Hash, delta: Block, s: GenState, gs: seq<Gate>, n: nat)
    requires OutputsIn(gs, |s.low|) && n < |gs|
    ensures GenRun(h, delta, s, gs, n + 1) == GenStep(h, delta, GenRun(h, delta, s, gs, n), gs[n])
  {
  }

  /**
   * Every AND gate yields exactly one table and advances the gate id by
   * two; earlier tables are kept as they were.
   */
  lemma {:induction false} GenRunCounts(h: Hash, delta: Block, s: GenState, gs: seq<Gate>, n: nat)
    requires OutputsIn(gs, |s.low|) && n <= |gs|
    ensures GenRun(h, delta, s, gs, n).gid == s.gid + 2 * CountAnd(gs[..n])
    ensures |GenRun(h, delta, s, gs, n).tables| == |s.tables| + CountAnd(gs[..n])
    ensures GenRun(h, delta, s, gs, n).tables[..|s.tables|] == s.tables
  {
    if n > 0 {
      GenRunCounts(h, delta, s, gs, n - 1);
      CountAndPrefix(gs, n);
    }
  }

  /** Generation keeps set labels set and sets the output label of every gate. */
  lemma {:induction false} GenRunDefines(h: Hash, delta: Block, s: GenState, gs: seq<Gate>, n: nat)
    requires OutputsIn(gs, |s.low|) && n <= |gs|
    ensures forall id :: 0 <= id < |s.low| && s.low[id].Some? ==> GenRun(h, delta, s, gs, n).low[id].Some?
    ensures forall id :: id in OutIds(gs[..n]) ==> id < |s.low| && GenRun(h, delta, s, gs, n).low[id].Some?
  {
    if n > 0 {
      GenRunDefines(h, delta, s, gs, n - 1);
      OutIdsPrefix(gs, n);
    }
  }

  /** Before gate `i` runs, every feed it reads is set. */
  lemma GenReadsSet(h: Hash, delta: Block, s: GenState, gs: seq<Gate>, defined: set<nat>, i: nat)
    requires OutputsIn(gs, |s.low|) && i < |gs|
    requires forall id :: id in defined ==> id < |s.low| && s.low[id].Some?
    requires ReadsBefore(gs, defined)
    ensures forall id :: id in ReadIds(gs[i]) ==> id < |s.low| && GenRun(h, delta, s, gs, i).low[id].Some?
  {
    GenRunDefines(h, delta, s, gs, i);
    assert ReadIds(gs[i]) <= defined + OutIds(gs[..i]);
  }

  /**
   * No two AND gates share a tweak: gate number `k` (from 0) is garbled
   * with gate id `1 + 2k`, whose tweaks are `1 + 2k` and `2 + 2k`.
   */
  lemma AndTweaksDistinct(k1: nat, k2: nat)
    requires k1 < k2 && 3 + 2 * k2 < U128Bound
    ensures TweakPair(1 + 2 * k1).0 != TweakPair(1 + 2 * k1).1
    ensures var (j1, l1) := TweakPair(1 + 2 * k1);
      var (j2, l2) := TweakPair(1 + 2 * k2);
      j1 != j2 && j1 != l2 && l1 != j2 && l1 != l2
  {
    TweakBlockInjective(1 + 2 * k1, 2 + 2 * k1);
    TweakBlockInjective(1 + 2 * k1, 1 + 2 * k2);
    TweakBlockInjective(1 + 2 * k1, 2 + 2 * k2);
    TweakBlockInjective(2 + 2 * k1, 1 + 2 * k2);
    TweakBlockInjective(2 + 2 * k1, 2 + 2 * k2);
  }

  /** The low labels before any input is written: feed 0 encodes true and feed 1 false. */
  function GenConsts(one: Block, delta: Block, n: nat): (r: seq<Option<Block>>)
    requires n >= 2
    ensures |r| == n
  {
    Nones<Block>(n)[0 := Some(Xor(one, delta))][1 := Some(one)]
  }

  function FullTypes(vs: seq<FullValue>): (r: seq<ValueType>)
    ensures |r| == |vs|
    ensures forall k :: 0 <= k < |vs| ==> r[k] == vs[k].typ
  {
    seq(|vs|, k requires 0 <= k < |vs| => vs[k].typ)
  }

  function FullLabels(vs: seq<FullValue>): (r: seq<seq<Block>>)
    ensures |r| == |vs|
    ensures forall k :: 0 <= k < |vs| ==> r[k] == vs[k].low
  {
    seq(|vs|, k requires 0 <= k < |vs| => vs[k].low)
  }

  class Generator {
    const h: Hash
    const delta: Block
    /** The gates of the circuit in iteration order. */
    const gates: seq<Gate>
    const outputs: seq<BinaryRepr>
    /** The state the generator was created in, and the feeds set in it. */
    ghost const start: GenState
    ghost const defined: set<nat>
    var low: seq<Option<Block>>
    /** How many gates the generator has taken from the circuit. */
    var pos: nat
    var gid: nat
    /** The encrypted gates yielded so far. */
    ghost var tables: seq<EncryptedGate>

    /**
     * The state is the generation of the first `pos` gates from the
     * initial one, and every gate reads (and every output names) a feed
     * set initially or written by an earlier gate.
     */
    ghost predicate Valid()
      reads this
    {
      && SetUp()
      && pos <= |gates|
      && GenState(low, gid, tables) == GenRun(h, delta, start, gates, pos)
    }

    /** The part of `Valid` fixed at construction: the circuit reads only feeds set before. */
    ghost predicate SetUp()
    {
      && start.tables == [] && start.gid == 1
      && OutputsIn(gates, |start.low|)
      && (forall id :: id in defined ==> id < |start.low| && start.low[id].Some?)
      && ReadsBefore(gates, defined)
      && (forall k :: 0 <= k < |outputs| ==> NodeIds(ReprNodes(outputs[k])) <= defined + OutIds(gates))
    }

    constructor (h: Hash, delta: Block, gates: seq<Gate>, outputs: seq<BinaryRepr>,
                 low: seq<Option<Block>>, ghost defined: set<nat>)
      requires OutputsIn(gates, |low|)
      requires forall id :: id in defined ==> id < |low| && low[id].Some?
      requires ReadsBefore(gates, defined)
      requires forall k :: 0 <= k < |outputs| ==> NodeIds(ReprNodes(outputs[k])) <= defined + OutIds(gates)
      ensures Valid()
      ensures this.h == h && this.delta == delta && this.gates == gates && this.outputs == outputs
      ensures this.low == low && pos == 0 && gid == 1 && tables == []
    {
      this.h := h;
      this.delta := delta;
      this.gates := gates;
      this.outputs := outputs;
      this.start := GenState(low, 1, []);
      this.defined := defined;
      this.low := low;
      this.pos := 0;
      this.gid := 1;
      this.tables := [];
    }

    /** `is_complete`: every gate has been taken; by then one table per AND gate has been yielded. */
    predicate IsComplete()
      reads this
      requires Valid()
      ensures IsComplete() <==> pos == |gates|
      ensures IsComplete() ==> |tables| == CountAnd(gates) && gid == 1 + 2 * CountAnd(gates)
    {
      GenRunCounts(h, delta, start, gates, pos);
      assert pos == |gates| ==> gates[..pos] == gates;
      pos >= |gates|
    }

    /**
     * `Iterator::next`: takes gates until an AND gate, whose table it
     * yields; yields nothing once the circuit is exhausted.  No gate
     * reads an unset feed.
     */
    method Next() returns (r: Option<EncryptedGate>)
      requires Valid()
      modifies this
      ensures Valid()
      ensures old(pos) <= pos
      ensures r.Some? ==> old(pos) < pos && gates[pos - 1].AndGate? && tables == old(tables) + [r.value]
      ensures r.Some? ==> NoAndGate(gates, old(pos), pos - 1)
      ensures r.None? ==> pos == |gates| && tables == old(tables)
      ensures r.None? ==> NoAndGate(gates, old(pos), pos)
    {
      ghost var p0, t0 := pos, tables;
      while pos < |gates|
        invariant Valid()
        invariant p0 <= pos && tables == t0
        invariant NoAndGate(gates, p0, pos)
      {
        ghost var p := pos;
        r := TakeGate();
        assert pos == p + 1;
        if r.Some? {
          assert gates[pos - 1].AndGate? && tables == t0 + [r.value];
          return;
        }
        assert !gates[p].AndGate?;
        assert NoAndGate(gates, p0, pos);
      }
      return None;
    }

    /** One turn of the loop of `next`: takes the next gate and garbles it, yielding a table for an AND gate. */
    method TakeGate() returns (r: Option<EncryptedGate>)
      requires Valid() && pos < |gates|
      modifies this
      ensures Valid()
      ensures pos == old(pos) + 1
      ensures r.Some? <==> gates[old(pos)].AndGate?
      ensures tables == old(tables) + (if r.Some? then [r.value] else [])
    {
      match gates[pos] {
        case InvGate(_, _) =>
          TakeInv();
          r := None;
        case XorGate(_, _, _) =>
          TakeXor();
          r := None;
        case AndGate(_, _, _) =>
          var t := TakeAnd();
          r := Some(t);
      }
    }

    /** An inverter gate: its low output label is its low input label flipped by `delta`. */
    method TakeInv()
      requires Valid() && pos < |gates| && gates[pos].InvGate?
      modifies this
      ensures Valid()
      ensures pos == old(pos) + 1 && tables == old(tables) && gid == old(gid)
      ensures low == old(low)[gates[old(pos)].z.id := Some(Xor(LabelAt(old(low), gates[old(pos)].x.id), delta))]
    {
      var g := gates[pos];
      GenReadsSet(h, delta, start, gates, defined, pos);
      ghost var st := GenRun(h, delta, start, gates, pos);
      assert g.x.id in ReadIds(g);
      pos := pos + 1;
      var x0 := low[g.x.id].value;
      low := low[g.z.id := Some(Xor(x0, delta))];
      assert GenState(low, gid, tables) == GenStep(h, delta, st, g);
      GenRunNext(h, delta, start, gates, pos - 1);
    }

    /** An XOR gate: its low output label is the XOR of its low input labels (free XOR). */
    method TakeXor()
      requires Valid() && pos < |gates| && gates[pos].XorGate?
      modifies this
      ensures Valid()
      ensures pos == old(pos) + 1 && tables == old(tables) && gid == old(gid)
      ensures low == old(low)[gates[old(pos)].z.id :=
        Some(Xor(LabelAt(old(low), gates[old(pos)].x.id), LabelAt(old(low), gates[old(pos)].y.id)))]
    {
      var g := gates[pos];
      GenReadsSet(h, delta, start, gates, defined, pos);
      ghost var st := GenRun(h, delta, start, gates, pos);
      assert g.x.id in ReadIds(g);
      pos := pos + 1;
      var x0 := low[g.x.id].value;
      var y0 := low[g.y.id].value;
      low := low[g.z.id := Some(Xor(x0, y0))];
      assert GenState(low, gid, tables) == GenStep(h, delta, st, g);
      GenRunNext(h, delta, start, gates, pos - 1);
    }

    /** An AND gate: garbled with the current gate id, which then advances by two; its table is yielded. */
    method TakeAnd() returns (t: EncryptedGate)
      requires Valid() && pos < |gates| && gates[pos].AndGate?
      modifies this
      ensures Valid()
      ensures pos == old(pos) + 1 && tables == old(tables) + [t] && gid == old(gid) + 2
      ensures var (z0, t') := GenAndGate(h, LabelAt(old(low), gates[old(pos)].x.id), LabelAt(old(low), gates[old(pos)].y.id), delta, old(gid));
        t == t' && low == old(low)[gates[old(pos)].z.id := Some(z0)]
    {
      var g := gates[pos];
      GenReadsSet(h, delta, start, gates, defined, pos);
      ghost var st := GenRun(h, delta, start, gates, pos);
      assert g.x.id in ReadIds(g);
      pos := pos + 1;
      var x0 := low[g.x.id].value;
      var y0 := low[g.y.id].value;
      var out := GenAndGate(h, x0, y0, delta, gid);
      var z0 := out.0;
      t := out.1;
      low := low[g.z.id := Some(z0)];
      gid := gid + 2;
      tables := tables + [t];
      assert GenState(low, gid, tables) == GenStep(h, delta, st, g);
      GenRunNext(h, delta, start, gates, pos - 1);
    }

    /**
     * `outputs`: fails until generation is complete; then the full
     * encoding of each output, made of the low labels of its feeds, every
     * one of which is set.
     */
    function Outputs(): (r: Result<seq<FullValue>, GarbleError>)
      reads this
      requires Valid()
      ensures r.Err? <==> pos < |gates|
      ensures r.Err? ==> r.error == NotFinished
      ensures r.Ok? ==> |r.value| == |outputs|
      ensures r.Ok? ==> forall k :: 0 <= k < |outputs| ==>
        var nodes := ReprNodes(outputs[k]);
        && r.value[k].typ == ReprType(outputs[k]) && r.value[k].delta == delta && |r.value[k].low| == |nodes|
        && forall j :: 0 <= j < |nodes| ==> nodes[j].id < |low| && low[nodes[j].id] == Some(r.value[k].low[j])
    {
      if pos < |gates| then Err(NotFinished)
      else
        GenRunDefines(h, delta, start, gates, pos);
        assert gates[..pos] == gates;
        OutputLabelsSet(low, outputs, defined + OutIds(gates));
        Ok(FullOutputs(outputs, delta, low))
    }
  }

  function FullOutputs(outputs: seq<BinaryRepr>, delta: Block, low: seq<Option<Block>>): (r: seq<FullValue>)
    ensures |r| == |outputs|
    ensures forall k :: 0 <= k < |outputs| ==> r[k] == FullValue(ReprType(outputs[k]), delta, LabelsAt(ReprNodes(outputs[k]), low))
  {
    seq(|outputs|, k requires 0 <= k < |outputs| => FullValue(ReprType(outputs[k]), delta, LabelsAt(ReprNodes(outputs[k]), low)))
  }

  /**
   * `Generator::new_with`: checks the input count, sets the two constant
   * feeds, then checks each input's type in order and writes its low
   * labels.  The circuit must have at least the two constant feeds (the
   * source indexes them unchecked), and each full encoding carries one
   * label per bit of its type.
   */
  method NewGenerator(c: Circuit, delta: Block, h: Hash, one: Block, inputs: seq<FullValue>)
    returns (r: Result<Generator, GarbleError>)
    requires WellFormed(c) && c.feedCount >= 2
    requires forall k :: 0 <= k < |inputs| ==> |inputs[k].low| == TypeLen(inputs[k].typ)
    ensures |inputs| != |c.inputs| ==> r == Err(Failed(InvalidInputCount(|c.inputs|, |inputs|)))
    ensures |inputs| == |c.inputs| && MismatchFrom(ReprTypes(c.inputs), FullTypes(inputs), 0).Some? ==>
      var m := MismatchFrom(ReprTypes(c.inputs), FullTypes(inputs), 0).value;
      r == Err(Failed(UnexpectedType(ReprType(c.inputs[m]), inputs[m].typ)))
    ensures r.Ok? <==> |inputs| == |c.inputs| && MismatchFrom(ReprTypes(c.inputs), FullTypes(inputs), 0).None?
    ensures r.Ok? ==> fresh(r.value) && r.value.Valid()
    ensures r.Ok? ==> r.value.low == SetInputs(GenConsts(one, delta, c.feedCount), c.inputs, FullLabels(inputs))
    ensures r.Ok? ==> r.value.gates == Gates(c) && r.value.outputs == c.outputs
    ensures r.Ok? ==> r.value.h == h && r.value.delta == delta && r.value.pos == 0 && r.value.gid == 1
    ensures r.Ok? ==> r.value.start == GenState(r.value.low, 1, []) && r.value.tables == []
  {
    if |inputs| != |c.inputs| {
      return Err(Failed(InvalidInputCount(|c.inputs|, |inputs|)));
    }
    var feeds := new Option<Block>[c.feedCount](_ => None);
    feeds[0] := Some(Xor(one, delta));
    feeds[1] := Some(one);
    assert feeds[..] == GenConsts(one, delta, c.feedCount);
    var m := WriteInputs(feeds, c.inputs, FullTypes(inputs), FullLabels(inputs));
    MismatchFromSpec(ReprTypes(c.inputs), FullTypes(inputs), 0);
    if m.Some? {
      return Err(Failed(UnexpectedType(ReprType(c.inputs[m.value]), inputs[m.value].typ)));
    }
    forall k | 0 <= k < |c.inputs| ensures |ReprNodes(c.inputs[k])| <= |FullLabels(inputs)[k]| {
      ReprNodesLength(c.inputs[k]);
    }
    SetInputsDefines(GenConsts(one, delta, c.feedCount), c.inputs, FullLabels(inputs));
    var g := new Generator(h, delta, Gates(c), c.outputs, feeds[..], InputIds(c.inputs));
    return Ok(g);
  }
}
