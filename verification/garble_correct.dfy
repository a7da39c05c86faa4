/**
 * Correctness of half-gate garbling against plaintext evaluation: when
 * the evaluator's input labels encode the input bits under the
 * generator's low labels, every feed the circuit computes carries, on
 * the evaluator's side, the label of its plaintext bit, and the outputs
 * decode to what `Circuit::evaluate` computes.
 */
module GarbleCorrect {
  import opened Wrappers
  import opened Blocks
  import opened Components
  import opened CircuitTypes
  import opened Feeds
  import opened Circuits
  import opened GarbleCore
  import opened GarbleGenerator
  import opened GarbleEvaluator

  /**
   * The free-XOR invariant on three feed vectors: every feed that carries
   * a plaintext bit has a low label, and its active label is the label of
   * that bit.
   */
  ghost predicate Matches(f: seq<Option<bool>>, low: seq<Option<Block>>, active: seq<Option<Block>>, delta: Block) {
    && |low| == |f| && |active| == |f|
    && forall id :: 0 <= id < |f| && f[id].Some? ==>
         low[id].Some? && active[id] == Some(Encode(low[id].value, f[id].value, delta))
  }

  /** Free XOR: the XOR of two labels is the label of the XOR of their bits under the XOR of the low labels. */
  lemma EncodeXor(x0: Block, y0: Block, a: bool, b: bool, delta: Block)
    ensures Xor(Encode(x0, a, delta), Encode(y0, b, delta)) == Encode(Xor(x0, y0), a != b, delta)
  {
    var l, r := Xor(Encode(x0, a, delta), Encode(y0, b, delta)), Encode(Xor(x0, y0), a != b, delta);
    forall i | 0 <= i < 16 ensures l[i] == r[i] { }
  }

  /** An inverter is free: the label of `a` under `x0` is the label of `!a` under `x0 ^ delta`. */
  lemma EncodeInv(x0: Block, a: bool, delta: Block)
    ensures Encode(x0, a, delta) == Encode(Xor(x0, delta), !a, delta)
  {
    if !a {
      XorCancel(x0, delta);
    }
  }

  /**
   * One gate keeps the invariant: the plaintext step, the generator's
   * step and the evaluator's step (given the generator's table for an
   * AND gate, at the same gate id) agree.
   */
  lemma StepMatches(h: Hash, delta: Block, f: seq<Option<bool>>, gs: GenState, es: EvState, ts: seq<EncryptedGate>, g: Gate)
    requires Lsb(delta) == 1
    requires g.z.id < |f| && Matches(f, gs.low, es.active, delta)
    requires forall id :: id in ReadIds(g) ==> id < |f| && f[id].Some?
    requires es.gid == gs.gid
    requires g.AndGate? ==> TableAt(ts, es.used) == GenAndGate(h, LabelAt(gs.low, g.x.id), LabelAt(gs.low, g.y.id), delta, gs.gid).1
    ensures Matches(Step(f, g), GenStep(h, delta, gs, g).low, EvStep(h, ts, es, g).active, delta)
  {
    var x := g.x.id;
    assert x in ReadIds(g);
    var x0, a := LabelAt(gs.low, x), Read(f, x);
    assert LabelAt(es.active, x) == Encode(x0, a, delta);
    match g {
      case InvGate(_, _) =>
        EncodeInv(x0, a, delta);
      case XorGate(_, y, _) =>
        assert y.id in ReadIds(g);
        EncodeXor(x0, LabelAt(gs.low, y.id), a, Read(f, y.id), delta);
      case AndGate(_, y, _) =>
        assert y.id in ReadIds(g);
        AndGateCorrect(h, x0, LabelAt(gs.low, y.id), delta, gs.gid, a, Read(f, y.id));
    }
  }

  /** Tables once yielded stay: the tables after `n` gates are a prefix of those after `m >= n`. */
  lemma {:induction false} GenTablesPrefix(h: Hash, delta: Block, s: GenState, gs: seq<Gate>, n: nat, m: nat)
    requires OutputsIn(gs, |s.low|) && n <= m <= |gs|
    ensures |GenRun(h, delta, s, gs, n).tables| <= |GenRun(h, delta, s, gs, m).tables|
    ensures GenRun(h, delta, s, gs, m).tables[..|GenRun(h, delta, s, gs, n).tables|] == GenRun(h, delta, s, gs, n).tables
  {
    if n < m {
      GenTablesPrefix(h, delta, s, gs, n, m - 1);
    }
  }

  /**
   * The invariant through a run: after the first `n` gates the three
   * feed vectors still match, the gate ids agree, and the evaluator,
   * given every table the generator yields, has used exactly those
   * yielded so far.
   */
  lemma {:induction false} RunMatches(h: Hash, delta: Block, f: seq<Option<bool>>, g0: GenState, e0: EvState,
                                      gs: seq<Gate>, defined: set<nat>, n: nat)
    requires Lsb(delta) == 1 && OutputsIn(gs, |f|) && n <= |gs|
    requires Matches(f, g0.low, e0.active, delta) && e0.gid == g0.gid && e0.used == |g0.tables|
    requires forall id :: id in defined ==> id < |f| && f[id].Some?
    requires ReadsBefore(gs, defined)
    ensures OutputsIn(gs[..n], |f|)
    ensures var gn := GenRun(h, delta, g0, gs, n);
      var en := EvRun(h, GenRun(h, delta, g0, gs, |gs|).tables, e0, gs, n);
      Matches(Run(f, gs[..n]), gn.low, en.active, delta) && en.gid == gn.gid && en.used == |gn.tables|
  {
    assert OutputsIn(gs[..n], |f|);
    if n > 0 {
      var ts := GenRun(h, delta, g0, gs, |gs|).tables;
      RunMatches(h, delta, f, g0, e0, gs, defined, n - 1);
      var fp, gp, ep := Run(f, gs[..n - 1]), GenRun(h, delta, g0, gs, n - 1), EvRun(h, ts, e0, gs, n - 1);
      var g := gs[n - 1];
      assert gs[..n][..n - 1] == gs[..n - 1];
      assert Run(f, gs[..n]) == Step(fp, g);
      RunDefines(f, gs[..n - 1]);
      assert ReadIds(g) <= defined + OutIds(gs[..n - 1]);
      GenTablesPrefix(h, delta, g0, gs, n, |gs|);
      if g.AndGate? {
        var t := GenAndGate(h, LabelAt(gp.low, g.x.id), LabelAt(gp.low, g.y.id), delta, gp.gid).1;
        assert GenRun(h, delta, g0, gs, n).tables == gp.tables + [t];
        assert ts[|gp.tables|] == ts[..|gp.tables| + 1][|gp.tables|];
      }
      StepMatches(h, delta, fp, gp, ep, ts, g);
    }
  }

  /** Writing matching entries pair by pair keeps the invariant. */
  lemma {:induction false} SetPairsMatches(f: seq<Option<bool>>, low: seq<Option<Block>>, active: seq<Option<Block>>, delta: Block,
                                           ns: seq<Feed>, bits: seq<bool>, lows: seq<Block>, labels: seq<Block>)
    requires Matches(f, low, active, delta)
    requires |bits| == |ns| && |lows| == |ns| && |labels| == |ns|
    requires forall j :: 0 <= j < |ns| ==> labels[j] == Encode(lows[j], bits[j], delta)
    ensures Matches(SetPairs(f, ns, bits), SetPairs(low, ns, lows), SetPairs(active, ns, labels), delta)
  {
    if ns != [] {
      var n := |ns| - 1;
      SetPairsMatches(f, low, active, delta, ns[..n], bits[..n], lows[..n], labels[..n]);
    }
  }

  /**
   * Writing the inputs keeps the invariant when, input by input, the
   * evaluator's labels encode the bits under the generator's low labels.
   */
  lemma {:induction false} SetInputsMatches(f: seq<Option<bool>>, low: seq<Option<Block>>, active: seq<Option<Block>>, delta: Block,
                                            rs: seq<BinaryRepr>, bits: seq<seq<bool>>, lows: seq<seq<Block>>, labels: seq<seq<Block>>)
    requires Matches(f, low, active, delta)
    requires |bits| == |rs| && |lows| == |rs| && |labels| == |rs|
    requires forall k :: 0 <= k < |rs| ==> |lows[k]| == |bits[k]| && |labels[k]| == |bits[k]|
    requires forall k, j :: 0 <= k < |rs| && 0 <= j < |bits[k]| ==> labels[k][j] == Encode(lows[k][j], bits[k][j], delta)
    ensures Matches(SetInputs(f, rs, bits), SetInputs(low, rs, lows), SetInputs(active, rs, labels), delta)
  {
    if rs != [] {
      var n := |rs| - 1;
      SetInputsMatches(f, low, active, delta, rs[..n], bits[..n], lows[..n], labels[..n]);
      var ns := ReprNodes(rs[n]);
      var m := if |ns| <= |bits[n]| then |ns| else |bits[n]|;
      SetPairsMatches(SetInputs(f, rs[..n], bits[..n]), SetInputs(low, rs[..n], lows[..n]),
                      SetInputs(active, rs[..n], labels[..n]), delta, ns[..m], bits[n][..m], lows[n][..m], labels[n][..m]);
    }
  }

  /**
   * The constant feeds: the evaluator's label `ONE` on feed 0 encodes
   * true and on feed 1 encodes false under the generator's low labels;
   * no plaintext bit is set yet, so the invariant holds.
   */
  lemma ConstantsEncode(one: Block, delta: Block, n: nat)
    requires n >= 2
    ensures EvConsts(one, n)[0] == Some(Encode(GenConsts(one, delta, n)[0].value, true, delta))
    ensures EvConsts(one, n)[1] == Some(Encode(GenConsts(one, delta, n)[1].value, false, delta))
    ensures Matches(Nones(n), GenConsts(one, delta, n), EvConsts(one, n), delta)
  {
    XorCancel(one, delta);
  }

  // ------------------------------------------------------------ decoding

  /** Decoding with the low labels' lsbs (the decoding information): a bit is set when the lsbs differ. */
  function DecodeBits(labels: seq<Block>, lows: seq<Block>): (r: seq<bool>)
    requires |labels| == |lows|
    ensures |r| == |labels|
    ensures forall j :: 0 <= j < |labels| ==> r[j] == (Lsb(labels[j]) != Lsb(lows[j]))
  {
    seq(|labels|, j requires 0 <= j < |labels| => Lsb(labels[j]) != Lsb(lows[j]))
  }

  /** The point-and-permute bit decodes a label: with the lsb of `delta` set, the lsbs differ exactly for the label of true. */
  lemma DecodeEncode(low: Block, v: bool, delta: Block)
    requires Lsb(delta) == 1
    ensures (Lsb(Encode(low, v, delta)) != Lsb(low)) == v
  {
    LsbXor(low, delta);
  }

  /** `EncodedValue::decode`: the value an active encoding stands for, under the full encoding's decoding information. */
  function Decode(a: ActiveValue, f: FullValue): (r: Option<Value>)
    ensures r.Some? <==> |a.labels| == |f.low| == TypeLen(f.typ)
    ensures r.Some? ==>
      && ValueValid(r.value) && ValueTypeOf(r.value) == f.typ
      && ValueBits(r.value) == DecodeBits(a.labels, f.low)
  {
    if |a.labels| == |f.low| == TypeLen(f.typ) then
      FromBitsBits(f.typ, DecodeBits(a.labels, f.low));
      Some(FromBits(f.typ, DecodeBits(a.labels, f.low)))
    else None
  }

  /** `EncodedValue::select`: the active encoding of `v`, one label per bit. */
  function Select(f: FullValue, v: Value): (r: ActiveValue)
    requires |f.low| == |ValueBits(v)|
    ensures r.typ == f.typ && |r.labels| == |f.low|
    ensures forall j :: 0 <= j < |f.low| ==> r.labels[j] == Encode(f.low[j], ValueBits(v)[j], f.delta)
  {
    ActiveValue(f.typ, seq(|f.low|, j requires 0 <= j < |f.low| => Encode(f.low[j], ValueBits(v)[j], f.delta)))
  }

  /** Decoding undoes selection: the active encoding of a valid value decodes back to it. */
  lemma DecodeSelect(f: FullValue, v: Value)
    requires Lsb(f.delta) == 1 && ValueValid(v) && f.typ == ValueTypeOf(v) && |f.low| == TypeLen(f.typ)
    ensures |f.low| == |ValueBits(v)|
    ensures Decode(Select(f, v), f) == Some(v)
  {
    FromBitsRoundTrip(v);
    var a := Select(f, v);
    forall j | 0 <= j < |f.low| ensures DecodeBits(a.labels, f.low)[j] == ValueBits(v)[j] {
      DecodeEncode(f.low[j], ValueBits(v)[j], f.delta);
    }
    assert DecodeBits(a.labels, f.low) == ValueBits(v);
  }

  /** The active encodings of the values, each selected from its full encoding. */
  function Selects(fulls: seq<FullValue>, values: seq<Value>): (r: seq<ActiveValue>)
    requires |fulls| == |values|
    requires forall k :: 0 <= k < |values| ==> |fulls[k].low| == |ValueBits(values[k])|
    ensures |r| == |values|
    ensures forall k :: 0 <= k < |values| ==> r[k] == Select(fulls[k], values[k])
  {
    seq(|values|, k requires 0 <= k < |values| => Select(fulls[k], values[k]))
  }

  /**
   * Where the invariant holds and every output feed carries a bit, each
   * active output decodes, under the generator's full output, to the
   * output value plaintext evaluation reads off the same feeds.
   */
  lemma OutputsDecode(outputs: seq<BinaryRepr>, f: seq<Option<bool>>, low: seq<Option<Block>>, active: seq<Option<Block>>,
                      delta: Block, ids: set<nat>)
    requires Lsb(delta) == 1 && Matches(f, low, active, delta)
    requires forall id :: id in ids ==> id < |f| && f[id].Some?
    requires forall k :: 0 <= k < |outputs| ==> ReprValid(outputs[k]) && NodeIds(ReprNodes(outputs[k])) <= ids
    ensures forall k :: 0 <= k < |outputs| ==>
      Decode(ActiveOutputs(outputs, active)[k], FullOutputs(outputs, delta, low)[k]) == Some(DecodeOutputs(outputs, f)[k])
  {
    forall k | 0 <= k < |outputs|
      ensures Decode(ActiveOutputs(outputs, active)[k], FullOutputs(outputs, delta, low)[k]) == Some(DecodeOutputs(outputs, f)[k])
    {
      var o := outputs[k];
      var nodes := ReprNodes(o);
      ReprNodesLength(o);
      var labels, lows := LabelsAt(nodes, active), LabelsAt(nodes, low);
      forall j | 0 <= j < |nodes| ensures DecodeBits(labels, lows)[j] == ReadAll(nodes, f)[j] {
        assert nodes[j].id in NodeIds(nodes);
        DecodeEncode(lows[j], Read(f, nodes[j].id), delta);
      }
      assert DecodeBits(labels, lows) == ReadAll(nodes, f);
    }
  }

  /** Decodes every active output under its full output; `None` when one of them does not decode. */
  function DecodeAll(actives: seq<ActiveValue>, fulls: seq<FullValue>): (r: Option<seq<Value>>)
    requires |actives| == |fulls|
    ensures r.Some? <==> forall k :: 0 <= k < |actives| ==> Decode(actives[k], fulls[k]).Some?
    ensures r.Some? ==> |r.value| == |actives| && forall k :: 0 <= k < |actives| ==> Decode(actives[k], fulls[k]) == Some(r.value[k])
  {
    if forall k :: 0 <= k < |actives| ==> Decode(actives[k], fulls[k]).Some? then
      Some(seq(|actives|, k requires 0 <= k < |actives| => Decode(actives[k], fulls[k]).value))
    else None
  }

  /** The generator's state once every gate of `c` is garbled, from the given full input encodings. */
  function GenFinal(c: Circuit, h: Hash, delta: Block, one: Block, fulls: seq<FullValue>): GenState
    requires WellFormed(c) && c.feedCount >= 2 && |fulls| == |c.inputs|
  {
    var low0 := SetInputs(GenConsts(one, delta, c.feedCount), c.inputs, FullLabels(fulls));
    GenRun(h, delta, GenState(low0, 1, []), Gates(c), |Gates(c)|)
  }

  /** The evaluator's state once every gate of `c` is evaluated with the tables `ts`, from the given active inputs. */
  function EvFinal(c: Circuit, h: Hash, one: Block, actives: seq<ActiveValue>, ts: seq<EncryptedGate>): EvState
    requires WellFormed(c) && c.feedCount >= 2 && |actives| == |c.inputs|
  {
    var act0 := SetInputs(EvConsts(one, c.feedCount), c.inputs, ActiveLabels(actives));
    EvRun(h, ts, EvState(act0, 1, 0), Gates(c), |Gates(c)|)
  }

  /**
   * Garbling is correct: for inputs of the circuit's types, evaluating
   * the garbled circuit on the selected input labels, with the tables the
   * generator yields, gives output labels that decode under the
   * generator's output encodings to exactly the values plaintext
   * evaluation computes.
   */
  lemma GarbledEvalCorrect(c: Circuit, h: Hash, delta: Block, one: Block, values: seq<Value>, fulls: seq<FullValue>)
    requires WellFormed(c) && c.feedCount >= 2 && Lsb(delta) == 1
    requires |values| == |c.inputs| && |fulls| == |values|
    requires forall k :: 0 <= k < |values| ==>
      && ValueValid(values[k]) && ValueTypeOf(values[k]) == ReprType(c.inputs[k])
      && fulls[k].typ == ValueTypeOf(values[k]) && fulls[k].delta == delta && |fulls[k].low| == TypeLen(fulls[k].typ)
    ensures forall k :: 0 <= k < |values| ==> |fulls[k].low| == |ValueBits(values[k])|
    ensures Eval(c, values).Ok?
    ensures var g := GenFinal(c, h, delta, one, fulls);
      var e := EvFinal(c, h, one, Selects(fulls, values), g.tables);
      DecodeAll(ActiveOutputs(c.outputs, e.active), FullOutputs(c.outputs, delta, g.low)) == Some(Eval(c, values).value)
  {
    forall k | 0 <= k < |values| ensures |ValueBits(values[k])| == TypeLen(ValueTypeOf(values[k])) {
      ValueBitsLength(values[k]);
    }
    EvalResult(c, values);
    var n, gates := c.feedCount, Gates(c);
    var bits, lows, labels := BitsOf(values), FullLabels(fulls), ActiveLabels(Selects(fulls, values));
    var f0 := SetInputs(Nones(n), c.inputs, bits);
    var low0 := SetInputs(GenConsts(one, delta, n), c.inputs, lows);
    var act0 := SetInputs(EvConsts(one, n), c.inputs, labels);
    ConstantsEncode(one, delta, n);
    SetInputsMatches(Nones(n), GenConsts(one, delta, n), EvConsts(one, n), delta, c.inputs, bits, lows, labels);
    forall k | 0 <= k < |c.inputs| ensures |ReprNodes(c.inputs[k])| <= |bits[k]| {
      ReprNodesLength(c.inputs[k]);
    }
    SetInputsDefines(Nones(n), c.inputs, bits);
    RunMatches(h, delta, f0, GenState(low0, 1, []), EvState(act0, 1, 0), gates, InputIds(c.inputs), |gates|);
    assert gates[..|gates|] == gates;
    RunDefines(f0, gates);
    MismatchFromSpec(ReprTypes(c.inputs), ValueTypes(values), 0);
    var g := GenFinal(c, h, delta, one, fulls);
    var e := EvFinal(c, h, one, Selects(fulls, values), g.tables);
    OutputsDecode(c.outputs, Run(f0, gates), g.low, e.active, delta, InputIds(c.inputs) + OutIds(gates));
    assert DecodeAll(ActiveOutputs(c.outputs, e.active), FullOutputs(c.outputs, delta, g.low)).value == Eval(c, values).value;
  }

  /**
   * An evaluator given every table of the circuit is complete: it can
   * stop short only in front of an AND gate with all the tables used, and
   * there are fewer AND gates before any AND gate than in the circuit.
   */
  lemma EvaluatorUsesAll(h: Hash, gates: seq<Gate>, start: EvState, tables: seq<EncryptedGate>,
                         active: seq<Option<Block>>, gid: nat, pos: nat, seen: seq<EncryptedGate>)
    requires OutputsIn(gates, |start.active|) && pos <= |gates| && start.used == 0
    requires EvState(active, gid, |seen|) == EvRun(h, seen, start, gates, pos)
    requires |tables| == CountAnd(gates)
    requires |seen| <= |tables| && seen == tables[..|seen|]
    requires pos < |gates| ==> gates[pos].AndGate? && seen == tables
    ensures pos == |gates| && seen == tables
    ensures EvState(active, gid, |seen|) == EvRun(h, tables, start, gates, |gates|)
  {
    EvRunCounts(h, seen, start, gates, pos);
    if pos < |gates| {
      CountAndBefore(gates, pos);
    }
    assert gates[..pos] == gates;
  }

  /** The outputs the generator reports are the full encodings read off its low labels. */
  lemma FullOutputsAre(outputs: seq<BinaryRepr>, delta: Block, low: seq<Option<Block>>, fo: seq<FullValue>)
    requires |fo| == |outputs|
    requires forall k :: 0 <= k < |outputs| ==>
      var nodes := ReprNodes(outputs[k]);
      && fo[k].typ == ReprType(outputs[k]) && fo[k].delta == delta && |fo[k].low| == |nodes|
      && forall j :: 0 <= j < |nodes| ==> nodes[j].id < |low| && low[nodes[j].id] == Some(fo[k].low[j])
    ensures fo == FullOutputs(outputs, delta, low)
  {
    forall k | 0 <= k < |outputs| ensures fo[k] == FullOutputs(outputs, delta, low)[k] {
      assert fo[k].low == LabelsAt(ReprNodes(outputs[k]), low);
    }
  }

  /** The outputs the evaluator reports are the active encodings read off its labels. */
  lemma ActiveOutputsAre(outputs: seq<BinaryRepr>, active: seq<Option<Block>>, ao: seq<ActiveValue>)
    requires |ao| == |outputs|
    requires forall k :: 0 <= k < |outputs| ==>
      var nodes := ReprNodes(outputs[k]);
      && ao[k].typ == ReprType(outputs[k]) && |ao[k].labels| == |nodes|
      && forall j :: 0 <= j < |nodes| ==> nodes[j].id < |active| && active[nodes[j].id] == Some(ao[k].labels[j])
    ensures ao == ActiveOutputs(outputs, active)
  {
    forall k | 0 <= k < |outputs| ensures ao[k] == ActiveOutputs(outputs, active)[k] {
      assert ao[k].labels == LabelsAt(ReprNodes(outputs[k]), active);
    }
  }



  /**
   * The generator's side of the flow: builds the generator on the full
   * input encodings, takes every table it yields and reads its full output
   * encodings.  It fails exactly as construction does.
   */
  method GarbleAll(c: Circuit, h: Hash, delta: Block, one: Block, fulls: seq<FullValue>)
    returns (r: Result<(seq<EncryptedGate>, seq<FullValue>), GarbleError>)
    requires WellFormed(c) && c.feedCount >= 2
    requires forall k :: 0 <= k < |fulls| ==> |fulls[k].low| == TypeLen(fulls[k].typ)
    ensures |fulls| != |c.inputs| ==> r == Err(Failed(InvalidInputCount(|c.inputs|, |fulls|)))
    ensures |fulls| == |c.inputs| && MismatchFrom(ReprTypes(c.inputs), FullTypes(fulls), 0).Some? ==>
      var m := MismatchFrom(ReprTypes(c.inputs), FullTypes(fulls), 0).value;
      r == Err(Failed(UnexpectedType(ReprType(c.inputs[m]), fulls[m].typ)))
    ensures r.Ok? <==> |fulls| == |c.inputs| && MismatchFrom(ReprTypes(c.inputs), FullTypes(fulls), 0).None?
    ensures r.Ok? ==>
      && r.value.0 == GenFinal(c, h, delta, one, fulls).tables && |r.value.0| == CountAnd(Gates(c))
      && r.value.1 == FullOutputs(c.outputs, delta, GenFinal(c, h, delta, one, fulls).low)
  {
    var gr := NewGenerator(c, delta, h, one, fulls);
    if gr.Err? {
      return Err(gr.error);
    }
    var gen := gr.value;
    var tables := GenerateAll(gen);
    ghost var gates := Gates(c);
    assert gates[..|gates|] == gates;
    GenRunCounts(h, delta, gen.start, gates, |gates|);
    var fo := gen.Outputs().value;
    FullOutputsAre(c.outputs, delta, gen.low, fo);
    r := Ok((tables, fo));
  }

  /**
   * The evaluator's side of the flow: builds the evaluator on the active
   * inputs, gives it every table of the circuit and reads its active
   * output encodings.  It fails exactly as construction does.
   */
  method EvaluateAll(c: Circuit, h: Hash, one: Block, actives: seq<ActiveValue>, tables: seq<EncryptedGate>)
    returns (r: Result<seq<ActiveValue>, GarbleError>)
    requires WellFormed(c) && c.feedCount >= 2 && |tables| == CountAnd(Gates(c))
    requires forall k :: 0 <= k < |actives| ==> |actives[k].labels| == TypeLen(actives[k].typ)
    ensures r.Err? <==> |actives| != |c.inputs| || MismatchFrom(ReprTypes(c.inputs), ActiveTypes(actives), 0).Some?
    ensures r.Ok? ==> |actives| == |c.inputs| && r.value == ActiveOutputs(c.outputs, EvFinal(c, h, one, actives, tables).active)
  {
    var er := NewEvaluator(c, h, one, actives);
    if er.Err? {
      return Err(er.error);
    }
    var ev := er.value;
    ev.Evaluate(tables);
    EvaluatorUsesAll(h, Gates(c), ev.start, tables, ev.active, ev.gid, ev.pos, ev.seen);
    var ao := ev.Outputs().value;
    ActiveOutputsAre(c.outputs, ev.active, ao);
    r := Ok(ao);
  }

  /**
   * The garbling flow end to end, as in the garbling test: the generator
   * garbles the circuit from the full input encodings, the evaluator is
   * given the selected active inputs and every table, and each active
   * output is decoded under the generator's full output.  The result is
   * what plaintext evaluation gives, its errors included.
   */
  method GarbleAndEvaluate(c: Circuit, h: Hash, delta: Block, one: Block, values: seq<Value>, fulls: seq<FullValue>)
    returns (r: Result<seq<Value>, GarbleError>)
    requires WellFormed(c) && c.feedCount >= 2 && Lsb(delta) == 1
    requires |fulls| == |values|
    requires forall k :: 0 <= k < |values| ==>
      && ValueValid(values[k]) && fulls[k].typ == ValueTypeOf(values[k]) && fulls[k].delta == delta
      && |fulls[k].low| == TypeLen(fulls[k].typ)
    ensures Eval(c, values).Err? ==> r == Err(Failed(Eval(c, values).error))
    ensures Eval(c, values).Ok? ==> r == Ok(Eval(c, values).value)
  {
    forall k | 0 <= k < |values| ensures |ValueBits(values[k])| == TypeLen(ValueTypeOf(values[k])) {
      ValueBitsLength(values[k]);
    }
    assert FullTypes(fulls) == ValueTypes(values);
    var gr := GarbleAll(c, h, delta, one, fulls);
    if gr.Err? {
      return Err(gr.error);
    }
    MismatchFromSpec(ReprTypes(c.inputs), ValueTypes(values), 0);
    var (tables, fo) := gr.value;
    var actives := Selects(fulls, values);
    assert ActiveTypes(actives) == ValueTypes(values);
    var er := EvaluateAll(c, h, one, actives, tables);
    GarbledEvalCorrect(c, h, delta, one, values, fulls);
    r := Ok(DecodeAll(er.value, fo).value);
  }

  /** Takes every table the generator yields, in order, until it yields none. */
  method GenerateAll(gen: Generator) returns (tables: seq<EncryptedGate>)
    requires gen.Valid()
    modifies gen
    ensures gen.Valid() && gen.pos == |gen.gates| && gen.tables == old(gen.tables) + tables
  {
    tables := [];
    var done := false;
    while !done
      invariant gen.Valid() && gen.tables == old(gen.tables) + tables
      invariant done ==> gen.pos == |gen.gates|
      decreases |gen.gates| - gen.pos, !done
    {
      var t := gen.Next();
      if t.None? {
        done := true;
      } else {
        tables := tables + [t.value];
      }
    }
  }
}
