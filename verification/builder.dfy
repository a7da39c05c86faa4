/**
 * The circuit builder of mpz-circuits.  `BuilderState` hands out fresh
 * feeds, records gates and their counts, and appends whole circuits; a
 * built circuit keeps the appended circuits and its own local gates.
 */
module Builder {
  import opened Wrappers
  import opened Components
  import opened CircuitTypes

  /** The circuit value `BuilderState::build` produces. */
  datatype BuiltCircuit = BuiltCircuit(
    inputs: seq<BinaryRepr>,
    outputs: seq<BinaryRepr>,
    gates: seq<Gate>,
    feedCount: nat,
    andCount: nat,
    xorCount: nat,
    appended: seq<BuiltCircuit>,
    appendedInputs: seq<seq<BinaryRepr>>,
    gatesCount: nat)

  datatype AppendReason = InputCountMismatch | InputTypeMismatch(index: nat)

  datatype BuilderError = MissingWire(sink: nat) | AppendError(reason: AppendReason)

  function SumFeeds(cs: seq<BuiltCircuit>): nat {
    if cs == [] then 0 else SumFeeds(cs[..|cs| - 1]) + cs[|cs| - 1].feedCount
  }

  function SumAnd(cs: seq<BuiltCircuit>): nat {
    if cs == [] then 0 else SumAnd(cs[..|cs| - 1]) + cs[|cs| - 1].andCount
  }

  function SumXor(cs: seq<BuiltCircuit>): nat {
    if cs == [] then 0 else SumXor(cs[..|cs| - 1]) + cs[|cs| - 1].xorCount
  }

  function SumGates(cs: seq<BuiltCircuit>): nat {
    if cs == [] then 0 else SumGates(cs[..|cs| - 1]) + cs[|cs| - 1].gatesCount
  }

  /** `n` consecutive feeds starting at `start`. */
  function Range(start: nat, n: nat): (r: seq<Feed>)
    ensures |r| == n
    ensures forall i :: 0 <= i < n ==> r[i] == Feed(start + i)
  {
    seq(n, i requires 0 <= i < n => Feed(start + i))
  }

  /** `ValueType::to_bin_repr` applied to consecutive feeds starting at `start`. */
  function ReprOf(t: ValueType, start: nat): (r: BinaryRepr)
    ensures ReprType(r) == t && ReprValid(r) && ReprNodes(r) == Range(start, TypeLen(t))
  {
    ToBinRepr(t, Range(start, TypeLen(t)))
  }

  /** Feeds written by gates in increasing order, all below `bound`. */
  predicate Ordered(gs: seq<Gate>, bound: nat) {
    && (forall i :: 0 <= i < |gs| ==> gs[i].z.id < bound)
    && (forall i, j :: 0 <= i < j < |gs| ==> gs[i].z.id < gs[j].z.id)
  }

  lemma OrderedSnoc(gs: seq<Gate>, g: Gate, bound: nat)
    requires Ordered(gs, g.z.id) && g.z.id < bound
    ensures Ordered(gs + [g], bound)
  {
  }

  /**
   * The builder's invariant: the AND and XOR counts are the appended
   * circuits' counts plus the local gates', the feed counter is at least
   * the appended circuits' feeds, and every local gate writes a feed
   * already handed out, in increasing order.
   */
  predicate Consistent(feedId: nat, gates: seq<Gate>, andCount: nat, xorCount: nat,
                       appended: seq<BuiltCircuit>, appendedInputs: seq<seq<BinaryRepr>>)
  {
    && andCount == SumAnd(appended) + CountAnd(gates)
    && xorCount == SumXor(appended) + CountXor(gates)
    && feedId >= SumFeeds(appended)
    && |appended| == |appendedInputs|
    && Ordered(gates, feedId)
  }

  /** Recording a gate on the feed just handed out keeps the builder consistent. */
  lemma ConsistentGate(feedId: nat, gates: seq<Gate>, andCount: nat, xorCount: nat,
                       appended: seq<BuiltCircuit>, appendedInputs: seq<seq<BinaryRepr>>, g: Gate)
    requires Consistent(feedId, gates, andCount, xorCount, appended, appendedInputs)
    requires g.z.id == feedId
    ensures Consistent(feedId + 1, gates + [g],
                       andCount + (if g.AndGate? then 1 else 0), xorCount + (if g.XorGate? then 1 else 0),
                       appended, appendedInputs)
  {
    CountsSnoc(gates, g);
    OrderedSnoc(gates, g, feedId + 1);
  }

  /**
   * Closing the local gates into a circuit and appending another circuit
   * after it keeps the builder consistent once the other circuit's counts
   * and feeds are added.
   */
  lemma ConsistentAppend(feedId: nat, gates: seq<Gate>, andCount: nat, xorCount: nat,
                         appended: seq<BuiltCircuit>, appendedInputs: seq<seq<BinaryRepr>>,
                         current: BuiltCircuit, circ: BuiltCircuit, builderInputs: seq<BinaryRepr>)
    requires Consistent(feedId, gates, andCount, xorCount, appended, appendedInputs)
    requires current.andCount == CountAnd(gates) && current.xorCount == CountXor(gates)
    requires SumFeeds(appended) + current.feedCount <= feedId
    ensures Consistent(feedId + circ.feedCount, [], andCount + circ.andCount, xorCount + circ.xorCount,
                       appended + [current, circ], appendedInputs + [[], builderInputs])
  {
    SumsSnoc(appended, current);
    SumsSnoc(appended + [current], circ);
    assert appended + [current] + [circ] == appended + [current, circ];
  }

  lemma SumsSnoc(cs: seq<BuiltCircuit>, c: BuiltCircuit)
    ensures SumAnd(cs + [c]) == SumAnd(cs) + c.andCount
    ensures SumXor(cs + [c]) == SumXor(cs) + c.xorCount
    ensures SumFeeds(cs + [c]) == SumFeeds(cs) + c.feedCount
  {
    assert (cs + [c])[..|cs|] == cs;
  }

  lemma CountsSnoc(gs: seq<Gate>, g: Gate)
    ensures CountAnd(gs + [g]) == CountAnd(gs) + (if g.AndGate? then 1 else 0)
    ensures CountXor(gs + [g]) == CountXor(gs) + (if g.XorGate? then 1 else 0)
  {
    assert (gs + [g])[..|gs|] == gs;
  }

  /**
   * The check `append` makes on the inputs it is given: the first position
   * whose kind differs from the circuit's input there, if any.
   */
  method FirstKindMismatch(given: seq<BinaryRepr>, expected: seq<BinaryRepr>) returns (r: Option<nat>)
    requires |given| == |expected|
    ensures r.None? <==> forall j :: 0 <= j < |given| ==> ReprKind(given[j]) == ReprKind(expected[j])
    ensures r.Some? ==> r.value < |given| && ReprKind(given[r.value]) != ReprKind(expected[r.value])
                        && forall j :: 0 <= j < r.value ==> ReprKind(given[j]) == ReprKind(expected[j])
  {
    var i := 0;
    while i < |given|
      invariant i <= |given|
      invariant forall j :: 0 <= j < i ==> ReprKind(given[j]) == ReprKind(expected[j])
    {
      if ReprKind(given[i]) != ReprKind(expected[i]) {
        return Some(i);
      }
      i := i + 1;
    }
    return None;
  }

  class BuilderState {
    var feedId: nat
    var inputs: seq<BinaryRepr>
    var outputs: seq<BinaryRepr>
    var gates: seq<Gate>
    var andCount: nat
    var xorCount: nat
    var appended: seq<BuiltCircuit>
    var appendedInputs: seq<seq<BinaryRepr>>

    /**
     * The counters agree with what was recorded (see `Consistent`).
     */
    predicate Valid()
      reads this
    {
      Consistent(feedId, gates, andCount, xorCount, appended, appendedInputs)
    }

    /** `BuilderState::default`. */
    constructor ()
      ensures Valid()
      ensures feedId == 0 && inputs == [] && outputs == [] && gates == []
      ensures andCount == 0 && xorCount == 0 && appended == [] && appendedInputs == []
    {
      feedId := 0;
      inputs := [];
      outputs := [];
      gates := [];
      andCount := 0;
      xorCount := 0;
      appended := [];
      appendedInputs := [];
    }

    /** `add_feed`: hands out the current feed id and moves the counter past it. */
    method AddFeed() returns (f: Feed)
      requires Valid()
      modifies this
      ensures Valid()
      ensures f.id == old(feedId) && feedId == old(feedId) + 1
      ensures inputs == old(inputs) && outputs == old(outputs) && gates == old(gates)
      ensures andCount == old(andCount) && xorCount == old(xorCount)
      ensures appended == old(appended) && appendedInputs == old(appendedInputs)
    {
      f := Feed(feedId);
      feedId := feedId + 1;
    }

    /** `add_value_by_type`: one fresh feed per bit of the type. */
    method AddValueByType(t: ValueType) returns (r: BinaryRepr)
      requires Valid()
      modifies this
      ensures Valid()
      ensures r == ReprOf(t, old(feedId)) && feedId == old(feedId) + TypeLen(t)
      ensures inputs == old(inputs) && outputs == old(outputs) && gates == old(gates)
      ensures andCount == old(andCount) && xorCount == old(xorCount)
      ensures appended == old(appended) && appendedInputs == old(appendedInputs)
    {
      var start := feedId;
      var nodes: seq<Feed> := [];
      while |nodes| < TypeLen(t)
        invariant Valid()
        invariant nodes == Range(start, |nodes|) && feedId == start + |nodes|
        invariant |nodes| <= TypeLen(t)
        invariant inputs == old(inputs) && outputs == old(outputs) && gates == old(gates)
        invariant andCount == old(andCount) && xorCount == old(xorCount)
        invariant appended == old(appended) && appendedInputs == old(appendedInputs)
        decreases TypeLen(t) - |nodes|
      {
        var f := AddFeed();
        nodes := nodes + [f];
      }
      r := ToBinRepr(t, nodes);
    }

    /** `CircuitBuilder::add_input_by_type`: a fresh value, recorded as the next input. */
    method AddInputByType(t: ValueType) returns (r: BinaryRepr)
      requires Valid()
      modifies this
      ensures Valid()
      ensures r == ReprOf(t, old(feedId)) && feedId == old(feedId) + TypeLen(t)
      ensures inputs == old(inputs) + [r]
      ensures outputs == old(outputs) && gates == old(gates)
      ensures andCount == old(andCount) && xorCount == old(xorCount)
      ensures appended == old(appended) && appendedInputs == old(appendedInputs)
    {
      r := AddValueByType(t);
      inputs := inputs + [r];
    }

    /** `CircuitBuilder::add_output`. */
    method AddOutput(v: BinaryRepr)
      requires Valid()
      modifies this
      ensures Valid()
      ensures outputs == old(outputs) + [v]
      ensures feedId == old(feedId) && inputs == old(inputs) && gates == old(gates)
      ensures andCount == old(andCount) && xorCount == old(xorCount)
      ensures appended == old(appended) && appendedInputs == old(appendedInputs)
    {
      outputs := outputs + [v];
    }

    /** `add_xor_gate`: a new XOR gate writing a fresh feed; counts one XOR. */
    method AddXorGate(x: Feed, y: Feed) returns (out: Feed)
      requires Valid()
      modifies this
      ensures Valid()
      ensures out.id == old(feedId) && feedId == old(feedId) + 1
      ensures gates == old(gates) + [XorGate(FeedToSink(x), FeedToSink(y), out)]
      ensures xorCount == old(xorCount) + 1 && andCount == old(andCount)
      ensures inputs == old(inputs) && outputs == old(outputs)
      ensures appended == old(appended) && appendedInputs == old(appendedInputs)
    {
      ConsistentGate(feedId, gates, andCount, xorCount, appended, appendedInputs, XorGate(FeedToSink(x), FeedToSink(y), Feed(feedId)));
      out := AddFeed();
      gates := gates + [XorGate(FeedToSink(x), FeedToSink(y), out)];
      xorCount := xorCount + 1;
    }

    /** `add_and_gate`: a new AND gate writing a fresh feed; counts one AND. */
    method AddAndGate(x: Feed, y: Feed) returns (out: Feed)
      requires Valid()
      modifies this
      ensures Valid()
      ensures out.id == old(feedId) && feedId == old(feedId) + 1
      ensures gates == old(gates) + [AndGate(FeedToSink(x), FeedToSink(y), out)]
      ensures andCount == old(andCount) + 1 && xorCount == old(xorCount)
      ensures inputs == old(inputs) && outputs == old(outputs)
      ensures appended == old(appended) && appendedInputs == old(appendedInputs)
    {
      ConsistentGate(feedId, gates, andCount, xorCount, appended, appendedInputs, AndGate(FeedToSink(x), FeedToSink(y), Feed(feedId)));
      out := AddFeed();
      gates := gates + [AndGate(FeedToSink(x), FeedToSink(y), out)];
      andCount := andCount + 1;
    }

    /** `add_inv_gate`: a new inverter writing a fresh feed; neither counter moves. */
    method AddInvGate(x: Feed) returns (out: Feed)
      requires Valid()
      modifies this
      ensures Valid()
      ensures out.id == old(feedId) && feedId == old(feedId) + 1
      ensures gates == old(gates) + [InvGate(FeedToSink(x), out)]
      ensures andCount == old(andCount) && xorCount == old(xorCount)
      ensures inputs == old(inputs) && outputs == old(outputs)
      ensures appended == old(appended) && appendedInputs == old(appendedInputs)
    {
      ConsistentGate(feedId, gates, andCount, xorCount, appended, appendedInputs, InvGate(FeedToSink(x), Feed(feedId)));
      out := AddFeed();
      gates := gates + [InvGate(FeedToSink(x), out)];
    }

    /** `build_current`: takes the local gates as a circuit of their own, with the counts not yet appended. */
    method BuildCurrent() returns (c: BuiltCircuit)
      requires Valid()
      modifies this
      ensures c == BuiltCircuit([], [], old(gates), old(feedId) - old(SumFeeds(appended)),
                                CountAnd(old(gates)), CountXor(old(gates)), [], [], |old(gates)|)
      ensures c.andCount == old(andCount) - SumAnd(appended) && c.xorCount == old(xorCount) - SumXor(appended)
      ensures gates == [] && feedId == old(feedId) && andCount == old(andCount) && xorCount == old(xorCount)
      ensures inputs == old(inputs) && outputs == old(outputs)
      ensures appended == old(appended) && appendedInputs == old(appendedInputs)
    {
      var taken := gates;
      gates := [];
      c := BuiltCircuit([], [], taken, feedId - SumFeeds(appended),
                        andCount - SumAnd(appended), xorCount - SumXor(appended), [], [], |taken|);
    }

    /**
     * `append`: checks the input count and each input's variant, then closes
     * the current local gates into a circuit, appends `circ` after it,
     * shifts `circ`'s outputs past the feeds already handed out, and adds
     * `circ`'s counts to the builder's.
     */
    method Append(circ: BuiltCircuit, builderInputs: seq<BinaryRepr>) returns (r: Result<seq<BinaryRepr>, BuilderError>)
      requires Valid()
      modifies this
      ensures Valid()
      ensures |builderInputs| != |circ.inputs| ==> r == Err(AppendError(InputCountMismatch))
      ensures |builderInputs| == |circ.inputs| && r.Err? ==>
        r.error.AppendError? && r.error.reason.InputTypeMismatch?
        && var i := r.error.reason.index;
           i < |builderInputs| && ReprKind(builderInputs[i]) != ReprKind(circ.inputs[i])
           && forall j :: 0 <= j < i ==> ReprKind(builderInputs[j]) == ReprKind(circ.inputs[j])
      ensures r.Ok? <==> |builderInputs| == |circ.inputs|
                         && forall j :: 0 <= j < |builderInputs| ==> ReprKind(builderInputs[j]) == ReprKind(circ.inputs[j])
      ensures r.Err? ==>
        feedId == old(feedId) && gates == old(gates) && andCount == old(andCount) && xorCount == old(xorCount)
        && outputs == old(outputs) && appended == old(appended) && appendedInputs == old(appendedInputs)
      ensures r.Ok? ==>
        && r.value == outputs
        && outputs == ShiftReprs(circ.outputs, old(feedId))
        && feedId == old(feedId) + circ.feedCount
        && andCount == old(andCount) + circ.andCount
        && xorCount == old(xorCount) + circ.xorCount
        && gates == []
        && appended == old(appended) + [BuiltCircuit([], [], old(gates), old(feedId) - old(SumFeeds(appended)),
                                                     CountAnd(old(gates)), CountXor(old(gates)), [], [], |old(gates)|), circ]
        && appendedInputs == old(appendedInputs) + [[], builderInputs]
      ensures inputs == old(inputs)
    {
      if |builderInputs| != |circ.inputs| {
        return Err(AppendError(InputCountMismatch));
      }
      var mismatch := FirstKindMismatch(builderInputs, circ.inputs);
      if mismatch.Some? {
        return Err(AppendError(InputTypeMismatch(mismatch.value)));
      }
      var current := BuildCurrent();
      ConsistentAppend(old(feedId), old(gates), old(andCount), old(xorCount), old(appended), old(appendedInputs),
                       current, circ, builderInputs);
      appended := appended + [current, circ];
      appendedInputs := appendedInputs + [[], builderInputs];
      outputs := ShiftReprs(circ.outputs, feedId);
      feedId := feedId + circ.feedCount;
      andCount := andCount + circ.andCount;
      xorCount := xorCount + circ.xorCount;
      return Ok(outputs);
    }

    /** `build`: the recorded circuit, whose gate count is the appended circuits' plus the local gates. */
    method Build() returns (r: Result<BuiltCircuit, BuilderError>)
      requires Valid()
      ensures r.Ok?
      ensures r.value.gatesCount == SumGates(appended) + |gates|
      ensures r.value.andCount == SumAnd(r.value.appended) + CountAnd(r.value.gates)
      ensures r.value.xorCount == SumXor(r.value.appended) + CountXor(r.value.gates)
      ensures r.value.feedCount >= SumFeeds(r.value.appended)
      ensures r.value == BuiltCircuit(inputs, outputs, gates, feedId, andCount, xorCount, appended, appendedInputs,
                                      r.value.gatesCount)
    {
      var gatesCount := 0;
      var k := 0;
      while k < |appended|
        invariant k <= |appended|
        invariant gatesCount == SumGates(appended[..k])
      {
        gatesCount := gatesCount + appended[k].gatesCount;
        assert appended[..k + 1][..k] == appended[..k];
        k := k + 1;
      }
      assert appended[..k] == appended;
      return Ok(BuiltCircuit(inputs, outputs, gates, feedId, andCount, xorCount, appended, appendedInputs,
                             gatesCount + |gates|));
    }
  }

  /** `ValueType::to_bin_repr` on a list of feeds of the right length. */
  function ToBinRepr(t: ValueType, nodes: seq<Feed>): (r: BinaryRepr)
    requires |nodes| == TypeLen(t)
    ensures ReprType(r) == t && ReprValid(r) && ReprNodes(r) == nodes
  {
    match t
    case Prim(p) => PrimRepr(p, nodes)
    case Array(e, n) =>
      ChunkConcat(nodes, Width(e), n);
      ArrayRepr(e, FeedChunks(nodes, Width(e), n))
  }

  function FeedChunks(nodes: seq<Feed>, w: nat, n: nat): (r: seq<seq<Feed>>)
    requires |nodes| == w * n
    ensures |r| == n
    ensures forall i :: 0 <= i < n ==> |r[i]| == w
  {
    if n == 0 then [] else [nodes[..w]] + FeedChunks(nodes[w..], w, n - 1)
  }

  lemma {:induction false} ChunkConcat(nodes: seq<Feed>, w: nat, n: nat)
    requires |nodes| == w * n
    ensures Concat(FeedChunks(nodes, w, n)) == nodes
  {
    if n > 0 {
      var cs := FeedChunks(nodes, w, n);
      ChunkConcat(nodes[w..], w, n - 1);
      assert cs[1..] == FeedChunks(nodes[w..], w, n - 1);
      assert nodes[..w] + nodes[w..] == nodes;
    }
  }

  function ShiftReprs(rs: seq<BinaryRepr>, offset: nat): (r: seq<BinaryRepr>)
    ensures |r| == |rs|
    ensures forall i :: 0 <= i < |rs| ==> r[i] == ShiftRepr(rs[i], offset)
  {
    seq(|rs|, i requires 0 <= i < |rs| => ShiftRepr(rs[i], offset))
  }
}
