/**
 * The binary circuit of mpz-circuits: inputs and outputs as binary
 * representations, gates held in sub-circuits whose local wires are
 * rewired into the global feed space, and plaintext evaluation.
 */
module Circuits {
  import opened Wrappers
  import opened Components
  import opened CircuitTypes
  import opened Feeds

  datatype SubCircuit = SubCircuit(gates: seq<Gate>, feedCount: nat, andCount: nat, xorCount: nat)

  datatype Circuit = Circuit(
    inputs: seq<BinaryRepr>,
    outputs: seq<BinaryRepr>,
    wiring: seq<map<nat, nat>>,
    subCircuits: seq<SubCircuit>,
    feedCount: nat,
    andCount: nat,
    xorCount: nat)

  datatype CircuitError =
    | InvalidInputCount(expected: nat, actual: nat)
    | UnexpectedType(expectedType: ValueType, actualType: ValueType)

  /** A wire id after rewiring: the mapped id when the map has one. */
  function Rewire(id: nat, m: map<nat, nat>): nat {
    if id in m then m[id] else id
  }

  /** The body of the map in `Circuit::gates`: rewrites each node of `g` the wiring map knows. */
  function RemapGate(g: Gate, m: map<nat, nat>): (r: Gate)
    ensures TypeOf(r) == TypeOf(g)
    ensures r.x.id == (if g.x.id in m then m[g.x.id] else g.x.id)
    ensures r.z.id == (if g.z.id in m then m[g.z.id] else g.z.id)
    ensures !g.InvGate? ==> r.y.id == (if g.y.id in m then m[g.y.id] else g.y.id)
  {
    match g
    case XorGate(x, y, z) => XorGate(Sink(Rewire(x.id, m)), Sink(Rewire(y.id, m)), Feed(Rewire(z.id, m)))
    case AndGate(x, y, z) => AndGate(Sink(Rewire(x.id, m)), Sink(Rewire(y.id, m)), Feed(Rewire(z.id, m)))
    case InvGate(x, z) => InvGate(Sink(Rewire(x.id, m)), Feed(Rewire(z.id, m)))
  }

  function RemapAll(gs: seq<Gate>, m: map<nat, nat>): (r: seq<Gate>)
    ensures |r| == |gs|
  {
    seq(|gs|, j requires 0 <= j < |gs| => RemapGate(gs[j], m))
  }

  function GatesOf(subs: seq<SubCircuit>, wiring: seq<map<nat, nat>>): seq<Gate>
    requires |wiring| >= |subs|
  {
    if subs == [] then [] else RemapAll(subs[0].gates, wiring[0]) + GatesOf(subs[1..], wiring[1..])
  }

  /** `Circuit::gates`: the sub-circuits' gates in order, each rewired by its own map. */
  function Gates(c: Circuit): seq<Gate>
    requires |c.wiring| >= |c.subCircuits|
  {
    GatesOf(c.subCircuits, c.wiring)
  }

  /** The number of gates before sub-circuit `k`. */
  function Offset(subs: seq<SubCircuit>, k: nat): nat
    requires k <= |subs|
  {
    if k == 0 then 0 else Offset(subs, k - 1) + |subs[k - 1].gates|
  }

  lemma {:induction false} OffsetShift(subs: seq<SubCircuit>, k: nat)
    requires 0 < |subs| && k < |subs|
    ensures Offset(subs, k + 1) == |subs[0].gates| + Offset(subs[1..], k)
  {
    if k > 0 {
      OffsetShift(subs, k - 1);
    }
  }

  /**
   * Gate `j` of sub-circuit `k` appears at position `Offset(k) + j` of
   * `gates()`, rewired by the k-th map and by no other.
   */
  lemma {:induction false} GatesOfIndex(subs: seq<SubCircuit>, wiring: seq<map<nat, nat>>, k: nat, j: nat)
    requires |wiring| >= |subs|
    requires k < |subs| && j < |subs[k].gates|
    ensures |GatesOf(subs, wiring)| == Offset(subs, |subs|)
    ensures Offset(subs, k) + j < |GatesOf(subs, wiring)|
    ensures GatesOf(subs, wiring)[Offset(subs, k) + j] == RemapGate(subs[k].gates[j], wiring[k])
  {
    GatesOfLength(subs, wiring);
    OffsetMonotone(subs, k + 1, |subs|);
    assert Offset(subs, k + 1) == Offset(subs, k) + |subs[k].gates|;
    if k > 0 {
      GatesOfIndex(subs[1..], wiring[1..], k - 1, j);
      OffsetShift(subs, k - 1);
      GatesOfTail(subs, wiring, Offset(subs[1..], k - 1) + j);
      assert subs[1..][k - 1] == subs[k] && wiring[1..][k - 1] == wiring[k];
    } else {
      GatesOfHead(subs, wiring, j);
    }
  }

  /** The gates of the first sub-circuit come first. */
  lemma GatesOfHead(subs: seq<SubCircuit>, wiring: seq<map<nat, nat>>, j: nat)
    requires |wiring| >= |subs| && subs != [] && j < |subs[0].gates|
    ensures j < |GatesOf(subs, wiring)| && GatesOf(subs, wiring)[j] == RemapGate(subs[0].gates[j], wiring[0])
  {
    var a := RemapAll(subs[0].gates, wiring[0]);
    assert GatesOf(subs, wiring) == a + GatesOf(subs[1..], wiring[1..]);
  }

  /** After the first sub-circuit's gates come the gates of the rest. */
  lemma GatesOfTail(subs: seq<SubCircuit>, wiring: seq<map<nat, nat>>, i: nat)
    requires |wiring| >= |subs| && subs != [] && i < |GatesOf(subs[1..], wiring[1..])|
    ensures |subs[0].gates| + i < |GatesOf(subs, wiring)|
    ensures GatesOf(subs, wiring)[|subs[0].gates| + i] == GatesOf(subs[1..], wiring[1..])[i]
  {
    var a := RemapAll(subs[0].gates, wiring[0]);
    var b := GatesOf(subs[1..], wiring[1..]);
    assert GatesOf(subs, wiring) == a + b;
    assert (a + b)[|a| + i] == b[i];
  }

  lemma {:induction false} GatesOfLength(subs: seq<SubCircuit>, wiring: seq<map<nat, nat>>)
    requires |wiring| >= |subs|
    ensures |GatesOf(subs, wiring)| == Offset(subs, |subs|)
  {
    if subs != [] {
      GatesOfLength(subs[1..], wiring[1..]);
      OffsetShift(subs, |subs| - 1);
    }
  }

  lemma {:induction false} OffsetMonotone(subs: seq<SubCircuit>, k: nat, l: nat)
    requires k <= l <= |subs|
    ensures Offset(subs, k) <= Offset(subs, l)
  {
    if k < l {
      OffsetMonotone(subs, k, l - 1);
    }
  }

  /** A gate whose nodes are all absent from the wiring map comes out unchanged. */
  lemma RemapUnmapped(g: Gate, m: map<nat, nat>)
    requires g.x.id !in m && g.z.id !in m && (!g.InvGate? ==> g.y.id !in m)
    ensures RemapGate(g, m) == g
  {
  }

  // ---------------------------------------------------------------- reversal

  function Reverse<T>(s: seq<T>): (r: seq<T>)
    ensures |r| == |s|
    ensures forall i :: 0 <= i < |s| ==> r[i] == s[|s| - 1 - i]
  {
    seq(|s|, i requires 0 <= i < |s| => s[|s| - 1 - i])
  }

  /** `Circuit::reverse_inputs`. */
  function ReverseInputs(c: Circuit): Circuit {
    c.(inputs := Reverse(c.inputs))
  }

  /** `Circuit::reverse_outputs`. */
  function ReverseOutputs(c: Circuit): Circuit {
    c.(outputs := Reverse(c.outputs))
  }

  /** Reverses the element order of an array representation; a primitive is left alone. */
  function ReverseArray(r: BinaryRepr): BinaryRepr {
    match r
    case PrimRepr(_, _) => r
    case ArrayRepr(e, es) => ArrayRepr(e, Reverse(es))
  }

  /** `Circuit::reverse_input`. */
  function ReverseInput(c: Circuit, idx: nat): Circuit {
    if idx < |c.inputs| then c.(inputs := c.inputs[idx := ReverseArray(c.inputs[idx])]) else c
  }

  /** `Circuit::reverse_output`. */
  function ReverseOutput(c: Circuit, idx: nat): Circuit {
    if idx < |c.outputs| then c.(outputs := c.outputs[idx := ReverseArray(c.outputs[idx])]) else c
  }

  /** Reversing the inputs reverses their order, keeps everything else, and undoes itself. */
  lemma ReverseInputsSpec(c: Circuit)
    ensures |ReverseInputs(c).inputs| == |c.inputs|
    ensures forall i :: 0 <= i < |c.inputs| ==> ReverseInputs(c).inputs[i] == c.inputs[|c.inputs| - 1 - i]
    ensures ReverseInputs(c).(inputs := c.inputs) == c
    ensures ReverseInputs(ReverseInputs(c)) == c
  {
    assert Reverse(Reverse(c.inputs)) == c.inputs;
  }

  /**
   * `reverse_input(idx)` changes at most input `idx`, and only when it is an
   * array, whose elements it reverses; a second reversal restores the circuit.
   */
  lemma ReverseInputSpec(c: Circuit, idx: nat)
    ensures ReverseInput(c, idx).(inputs := c.inputs) == c
    ensures |ReverseInput(c, idx).inputs| == |c.inputs|
    ensures forall j :: 0 <= j < |c.inputs| && j != idx ==> ReverseInput(c, idx).inputs[j] == c.inputs[j]
    ensures idx < |c.inputs| && c.inputs[idx].ArrayRepr? ==>
      ReverseInput(c, idx).inputs[idx] == ArrayRepr(c.inputs[idx].elem, Reverse(c.inputs[idx].elems))
    ensures (idx >= |c.inputs| || c.inputs[idx].PrimRepr?) ==> ReverseInput(c, idx) == c
    ensures ReverseInput(ReverseInput(c, idx), idx) == c
  {
    if idx < |c.inputs| && c.inputs[idx].ArrayRepr? {
      assert Reverse(Reverse(c.inputs[idx].elems)) == c.inputs[idx].elems;
      assert c.inputs[idx := c.inputs[idx]] == c.inputs;
    } else if idx < |c.inputs| {
      assert c.inputs[idx := c.inputs[idx]] == c.inputs;
    }
  }

  /** Reversing the outputs reverses their order, keeps everything else, and undoes itself. */
  lemma ReverseOutputsSpec(c: Circuit)
    ensures |ReverseOutputs(c).outputs| == |c.outputs|
    ensures forall i :: 0 <= i < |c.outputs| ==> ReverseOutputs(c).outputs[i] == c.outputs[|c.outputs| - 1 - i]
    ensures ReverseOutputs(c).(outputs := c.outputs) == c
    ensures ReverseOutputs(ReverseOutputs(c)) == c
  {
    assert Reverse(Reverse(c.outputs)) == c.outputs;
  }

  /**
   * `reverse_output(idx)` changes at most output `idx`, and only when it is
   * an array, whose elements it reverses; a second reversal restores the
   * circuit.
   */
  lemma ReverseOutputSpec(c: Circuit, idx: nat)
    ensures ReverseOutput(c, idx).(outputs := c.outputs) == c
    ensures |ReverseOutput(c, idx).outputs| == |c.outputs|
    ensures forall j :: 0 <= j < |c.outputs| && j != idx ==> ReverseOutput(c, idx).outputs[j] == c.outputs[j]
    ensures idx < |c.outputs| && c.outputs[idx].ArrayRepr? ==>
      ReverseOutput(c, idx).outputs[idx] == ArrayRepr(c.outputs[idx].elem, Reverse(c.outputs[idx].elems))
    ensures (idx >= |c.outputs| || c.outputs[idx].PrimRepr?) ==> ReverseOutput(c, idx) == c
    ensures ReverseOutput(ReverseOutput(c, idx), idx) == c
  {
    if idx < |c.outputs| && c.outputs[idx].ArrayRepr? {
      assert Reverse(Reverse(c.outputs[idx].elems)) == c.outputs[idx].elems;
      assert c.outputs[idx := c.outputs[idx]] == c.outputs;
    } else if idx < |c.outputs| {
      assert c.outputs[idx := c.outputs[idx]] == c.outputs;
    }
  }

  // ------------------------------------------------------------ evaluation

  /** The value of a feed, or `false` while it is unset (never read in a well-formed circuit). */
  function Read(f: seq<Option<bool>>, id: nat): bool {
    if id < |f| && f[id].Some? then f[id].value else false
  }

  /** The plaintext effect of one gate on the feed vector. */
  function Step(f: seq<Option<bool>>, g: Gate): (r: seq<Option<bool>>)
    requires g.z.id < |f|
    ensures |r| == |f|
  {
    match g
    case XorGate(x, y, z) => f[z.id := Some(Read(f, x.id) != Read(f, y.id))]
    case AndGate(x, y, z) => f[z.id := Some(Read(f, x.id) && Read(f, y.id))]
    case InvGate(x, z) => f[z.id := Some(!Read(f, x.id))]
  }

  /** The feed vector after the gates `gs`, applied in order. */
  function Run(f: seq<Option<bool>>, gs: seq<Gate>): (r: seq<Option<bool>>)
    requires OutputsIn(gs, |f|)
    ensures |r| == |f|
  {
    if gs == [] then f else Step(Run(f, gs[..|gs| - 1]), gs[|gs| - 1])
  }

  /**
   * The shape the builder gives its circuits: all feeds lie below
   * `feed_count`, and every gate input and circuit output is an input feed
   * or the output of an earlier gate.  On a circuit without it, evaluation
   * can read an unset feed or index past the feeds, where the source
   * panics; evaluation is modelled on well-formed circuits only.
   */
  predicate WellFormed(c: Circuit) {
    && |c.wiring| == |c.subCircuits|
    && (forall k :: 0 <= k < |c.inputs| ==> ReprValid(c.inputs[k]) && NodesIn(ReprNodes(c.inputs[k]), c.feedCount))
    && OutputsIn(Gates(c), c.feedCount)
    && ReadsBefore(Gates(c), InputIds(c.inputs))
    && (forall k :: 0 <= k < |c.outputs| ==>
          ReprValid(c.outputs[k]) && NodeIds(ReprNodes(c.outputs[k])) <= InputIds(c.inputs) + OutIds(Gates(c)))
  }

  /** The types of the given values, in order. */
  function ValueTypes(vs: seq<Value>): (r: seq<ValueType>)
    ensures |r| == |vs|
    ensures forall k :: 0 <= k < |vs| ==> r[k] == ValueTypeOf(vs[k])
  {
    seq(|vs|, k requires 0 <= k < |vs| => ValueTypeOf(vs[k]))
  }

  /** The bits of the given values, in order. */
  function BitsOf(vs: seq<Value>): (r: seq<seq<bool>>)
    ensures |r| == |vs|
    ensures forall k :: 0 <= k < |vs| ==> r[k] == ValueBits(vs[k])
  {
    seq(|vs|, k requires 0 <= k < |vs| => ValueBits(vs[k]))
  }

  function ReadAll(ns: seq<Feed>, f: seq<Option<bool>>): (r: seq<bool>)
    ensures |r| == |ns|
  {
    seq(|ns|, j requires 0 <= j < |ns| => Read(f, ns[j].id))
  }

  /** An output's value: the bits on its feeds, decoded by its type. */
  function DecodeOutput(o: BinaryRepr, f: seq<Option<bool>>): Value
    requires ReprValid(o)
  {
    ReprNodesLength(o);
    FromBits(ReprType(o), ReadAll(ReprNodes(o), f))
  }

  /** The values of all outputs, read off the feed vector `f`. */
  function DecodeOutputs(outputs: seq<BinaryRepr>, f: seq<Option<bool>>): (r: seq<Value>)
    requires forall k :: 0 <= k < |outputs| ==> ReprValid(outputs[k])
    ensures |r| == |outputs|
  {
    seq(|outputs|, k requires 0 <= k < |outputs| => DecodeOutput(outputs[k], f))
  }

  /** `Circuit::evaluate` as a function of the circuit and the input values. */
  function Eval(c: Circuit, values: seq<Value>): Result<seq<Value>, CircuitError>
    requires WellFormed(c)
    requires forall k :: 0 <= k < |values| ==> ValueValid(values[k])
  {
    if |values| != |c.inputs| then Err(InvalidInputCount(|c.inputs|, |values|))
    else
      var m := MismatchFrom(ReprTypes(c.inputs), ValueTypes(values), 0);
      MismatchFromSpec(ReprTypes(c.inputs), ValueTypes(values), 0);
      if m.Some? then Err(UnexpectedType(ReprType(c.inputs[m.value]), ValueTypeOf(values[m.value])))
      else
        var f := Run(SetInputs(Nones(c.feedCount), c.inputs, BitsOf(values)), Gates(c));
        Ok(DecodeOutputs(c.outputs, f))
  }

  /**
   * Evaluation fails exactly when the value count or some value's type is
   * wrong, with the count checked first; otherwise there is one output
   * value per output, of the output's type.
   */
  lemma EvalResult(c: Circuit, values: seq<Value>)
    requires WellFormed(c)
    requires forall k :: 0 <= k < |values| ==> ValueValid(values[k])
    ensures Eval(c, values).Err? <==>
      |values| != |c.inputs| || exists k :: 0 <= k < |values| && ReprType(c.inputs[k]) != ValueTypeOf(values[k])
    ensures Eval(c, values).Err? && Eval(c, values).error.InvalidInputCount? <==> |values| != |c.inputs|
    ensures Eval(c, values).Ok? ==>
      |Eval(c, values).value| == |c.outputs|
      && forall k :: 0 <= k < |c.outputs| ==>
           ValueTypeOf(Eval(c, values).value[k]) == ReprType(c.outputs[k]) && ValueValid(Eval(c, values).value[k])
  {
    if |values| == |c.inputs| {
      MismatchFromSpec(ReprTypes(c.inputs), ValueTypes(values), 0);
    }
    if Eval(c, values).Ok? {
      forall k | 0 <= k < |c.outputs|
        ensures ValueTypeOf(Eval(c, values).value[k]) == ReprType(c.outputs[k])
        ensures ValueValid(Eval(c, values).value[k])
      {
        var o := c.outputs[k];
        ReprNodesLength(o);
        if o.ArrayRepr? {
          assert ValueTypeOf(DecodeOutput(o, [])) == ReprType(o);
        }
      }
    }
  }

  // --------------------------------------------- facts about the feed vector

  /** Running gates keeps set feeds set and sets every gate's output. */
  lemma {:induction false} RunDefines(f: seq<Option<bool>>, gs: seq<Gate>)
    requires OutputsIn(gs, |f|)
    ensures forall id :: 0 <= id < |f| && f[id].Some? ==> Run(f, gs)[id].Some?
    ensures forall id :: id in OutIds(gs) ==> id < |f| && Run(f, gs)[id].Some?
  {
    if gs != [] {
      var n := |gs| - 1;
      assert OutputsIn(gs[..n], |f|);
      RunDefines(f, gs[..n]);
      assert forall id :: id in OutIds(gs) ==> id in OutIds(gs[..n]) || id == gs[n].z.id by {
        forall id | id in OutIds(gs) ensures id in OutIds(gs[..n]) || id == gs[n].z.id {
          var i :| 0 <= i < |gs| && gs[i].z.id == id;
          if i < n {
            assert gs[..n][i] == gs[i];
          }
        }
      }
    }
  }

  /** Feeds no gate writes keep their value through a run. */
  lemma {:induction false} RunFrame(f: seq<Option<bool>>, gs: seq<Gate>, id: nat)
    requires OutputsIn(gs, |f|)
    requires id < |f| && id !in OutIds(gs)
    ensures Run(f, gs)[id] == f[id]
  {
    if gs != [] {
      var n := |gs| - 1;
      assert OutIds(gs[..n]) <= OutIds(gs) by {
        forall i | 0 <= i < n ensures gs[..n][i].z.id in OutIds(gs) {
          assert gs[..n][i] == gs[i];
        }
      }
      RunFrame(f, gs[..n], id);
    }
  }

  // ---------------------------------------------------------- the methods

  /**
   * Applies the gates in order.  Every feed a gate reads is one of the set
   * feeds `defined` or an earlier gate's output, so no read finds it unset.
   */
  method RunGates(feeds: array<Option<bool>>, gates: seq<Gate>, ghost defined: set<nat>)
    requires OutputsIn(gates, feeds.Length)
    requires forall id :: id in defined ==> id < feeds.Length && feeds[id].Some?
    requires forall i :: 0 <= i < |gates| ==> ReadIds(gates[i]) <= defined + OutIds(gates[..i])
    modifies feeds
    ensures feeds[..] == Run(old(feeds[..]), gates)
  {
    ghost var f0 := feeds[..];
    var i := 0;
    while i < |gates|
      invariant i <= |gates|
      invariant OutputsIn(gates[..i], feeds.Length)
      invariant feeds[..] == Run(f0, gates[..i])
    {
      RunDefines(f0, gates[..i]);
      match gates[i] {
        case XorGate(x, y, z) =>
          feeds[z.id] := Some(feeds[x.id].value != feeds[y.id].value);
        case AndGate(x, y, z) =>
          feeds[z.id] := Some(feeds[x.id].value && feeds[y.id].value);
        case InvGate(x, z) =>
          feeds[z.id] := Some(!feeds[x.id].value);
      }
      assert gates[..i + 1][..i] == gates[..i];
      i := i + 1;
    }
    assert gates[..i] == gates;
  }

  /** Reads an output's bits off the feeds (each must be set) and decodes them by its type. */
  method ReadOutput(feeds: array<Option<bool>>, output: BinaryRepr) returns (v: Value)
    requires ReprValid(output)
    requires forall id :: id in NodeIds(ReprNodes(output)) ==> id < feeds.Length && feeds[id].Some?
    ensures v == DecodeOutput(output, feeds[..])
  {
    var nodes := ReprNodes(output);
    var bits: seq<bool> := [];
    var j := 0;
    while j < |nodes|
      invariant j <= |nodes|
      invariant |bits| == j
      invariant forall j' :: 0 <= j' < j ==> bits[j'] == Read(feeds[..], nodes[j'].id)
    {
      assert nodes[j].id in NodeIds(nodes);
      bits := bits + [feeds[nodes[j].id].value];
      j := j + 1;
    }
    assert bits == ReadAll(nodes, feeds[..]);
    ReprNodesLength(output);
    v := FromBits(ReprType(output), bits);
  }

  /** The output loop of `evaluate`. */
  method ReadOutputs(feeds: array<Option<bool>>, outputs: seq<BinaryRepr>, ghost defined: set<nat>) returns (outs: seq<Value>)
    requires forall k :: 0 <= k < |outputs| ==> ReprValid(outputs[k]) && NodeIds(ReprNodes(outputs[k])) <= defined
    requires forall id :: id in defined ==> id < feeds.Length && feeds[id].Some?
    ensures outs == DecodeOutputs(outputs, feeds[..])
  {
    outs := [];
    var o := 0;
    while o < |outputs|
      invariant o <= |outputs|
      invariant |outs| == o
      invariant forall k' :: 0 <= k' < o ==> outs[k'] == DecodeOutput(outputs[k'], feeds[..])
    {
      var v := ReadOutput(feeds, outputs[o]);
      outs := outs + [v];
      o := o + 1;
    }
  }

  /** `Circuit::evaluate`: writes the inputs, runs every gate in order, decodes the outputs. */
  method Evaluate(c: Circuit, values: seq<Value>) returns (r: Result<seq<Value>, CircuitError>)
    requires WellFormed(c)
    requires forall k :: 0 <= k < |values| ==> ValueValid(values[k])
    ensures r == Eval(c, values)
  {
    if |values| != |c.inputs| {
      return Err(InvalidInputCount(|c.inputs|, |values|));
    }
    var feeds := new Option<bool>[c.feedCount](_ => None);
    assert feeds[..] == Nones(c.feedCount);
    var m := WriteInputs(feeds, c.inputs, ValueTypes(values), BitsOf(values));
    MismatchFromSpec(ReprTypes(c.inputs), ValueTypes(values), 0);
    if m.Some? {
      return Err(UnexpectedType(ReprType(c.inputs[m.value]), ValueTypeOf(values[m.value])));
    }
    ghost var f0 := feeds[..];
    forall k | 0 <= k < |c.inputs| ensures |ReprNodes(c.inputs[k])| <= |BitsOf(values)[k]| {
      ReprNodesLength(c.inputs[k]);
      ValueBitsLength(values[k]);
    }
    SetInputsDefines(Nones(c.feedCount), c.inputs, BitsOf(values));
    var gates := Gates(c);
    RunGates(feeds, gates, InputIds(c.inputs));
    RunDefines(f0, gates);
    var outs := ReadOutputs(feeds, c.outputs, InputIds(c.inputs) + OutIds(gates));
    return Ok(outs);
  }
}
