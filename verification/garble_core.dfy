/**
 * The half-gate garbling of one AND gate (Zahur, Rosulek and Evans),
 * as the generator and the evaluator of mpz-garble-core compute it, and
 * the free-XOR label encoding both sides rely on.
 */
module GarbleCore {
  import opened Wrappers
  import opened Blocks
  import opened Components
  import opened CircuitTypes
  import opened Feeds
  import opened Circuits

  /**
   * The tweakable circular correlation-robust hash `tccr(tweak, block)`;
   * its fixed-key AES instantiation is a parameter of the model.
   */
  type Hash = (Block, Block) -> Block

  /** The two garbled rows of a half-gate AND gate: the generator's and the evaluator's. */
  datatype EncryptedGate = EncryptedGate(tg: Block, te: Block)

  /** A full encoding: the low (false) label of each bit, with the global offset `delta`. */
  datatype FullValue = FullValue(typ: ValueType, delta: Block, low: seq<Block>)

  /** An active encoding: one label per bit, the one that stands for the bit's actual value. */
  datatype ActiveValue = ActiveValue(typ: ValueType, labels: seq<Block>)

  /** Errors of the generator and the evaluator: a wrong input count or type, or outputs asked for too early. */
  datatype GarbleError = Failed(cause: CircuitError) | NotFinished

  /** Free-XOR encoding: the label of `v` is the low label, XOR `delta` when `v` is true. */
  function Encode(low: Block, v: bool, delta: Block): Block {
    if v then Xor(low, delta) else low
  }

  /**
   * The label held for feed `id`.  `ZERO` stands for a feed that is not
   * set; the source panics there ("feed should be initialized"), and no
   * well-formed circuit reaches that case.
   */
  function LabelAt(labels: seq<Option<Block>>, id: nat): Block {
    if id < |labels| && labels[id].Some? then labels[id].value else Zero
  }

  /** The labels held for the given nodes, in order. */
  function LabelsAt(nodes: seq<Feed>, labels: seq<Option<Block>>): (r: seq<Block>)
    ensures |r| == |nodes|
    ensures forall j :: 0 <= j < |nodes| ==> r[j] == LabelAt(labels, nodes[j].id)
  {
    seq(|nodes|, j requires 0 <= j < |nodes| => LabelAt(labels, nodes[j].id))
  }

  /** When every feed an output names is set, each label read for it is the one held. */
  lemma OutputLabelsSet(labels: seq<Option<Block>>, outputs: seq<BinaryRepr>, ids: set<nat>)
    requires forall id :: id in ids ==> id < |labels| && labels[id].Some?
    requires forall k :: 0 <= k < |outputs| ==> NodeIds(ReprNodes(outputs[k])) <= ids
    ensures forall k, j :: 0 <= k < |outputs| && 0 <= j < |ReprNodes(outputs[k])| ==>
      ReprNodes(outputs[k])[j].id < |labels| && labels[ReprNodes(outputs[k])[j].id] == Some(LabelsAt(ReprNodes(outputs[k]), labels)[j])
  {
    forall k, j | 0 <= k < |outputs| && 0 <= j < |ReprNodes(outputs[k])|
      ensures ReprNodes(outputs[k])[j].id < |labels|
      ensures labels[ReprNodes(outputs[k])[j].id] == Some(LabelsAt(ReprNodes(outputs[k]), labels)[j])
    {
      assert ReprNodes(outputs[k])[j].id in NodeIds(ReprNodes(outputs[k]));
    }
  }

  /** The pair of tweaks of gate id `gid`: `gid` and `gid + 1`, as big-endian 128-bit blocks. */
  function TweakPair(gid: nat): (Block, Block) {
    (TweakBlock(gid), TweakBlock(gid + 1))
  }

  /** The generator's half gates: the low output label and the two garbled rows. */
  function GenAndGate(h: Hash, x0: Block, y0: Block, delta: Block, gid: nat): (Block, EncryptedGate) {
    var x1 := Xor(x0, delta);
    var y1 := Xor(y0, delta);
    var pa := Lsb(x0);
    var pb := Lsb(y0);
    var (j, k) := TweakPair(gid);
    var hx0, hy0, hx1, hy1 := h(j, x0), h(k, y0), h(j, x1), h(k, y1);
    var tg := Xor(Xor(hx0, hx1), And(SelectMask(pb), delta));
    var wg := Xor(hx0, And(SelectMask(pa), tg));
    var te := Xor(Xor(hy0, hy1), x0);
    var we := Xor(hy0, And(SelectMask(pb), Xor(te, x0)));
    (Xor(wg, we), EncryptedGate(tg, te))
  }

  /** The evaluator's half gates: the output label from the two active input labels and the rows. */
  function EvalAndGate(h: Hash, x: Block, y: Block, t: EncryptedGate, gid: nat): Block {
    var sa := Lsb(x);
    var sb := Lsb(y);
    var (j, k) := TweakPair(gid);
    var hx, hy := h(j, x), h(k, y);
    var wg := Xor(hx, And(t.tg, SelectMask(sa)));
    var we := Xor(hy, And(SelectMask(sb), Xor(t.te, x)));
    Xor(wg, we)
  }

  /** `delta` when `v` holds, `ZERO` otherwise. */
  function Times(v: bool, delta: Block): Block {
    if v then delta else Zero
  }

  /**
   * The generator half gate: on the label of `a`, the evaluator's share
   * differs from the generator's `w_g` by `a * p_b * delta`.
   */
  lemma GeneratorHalf(hx0: Block, hx1: Block, delta: Block, pa: nat, pb: nat, a: bool)
    requires pa < 2 && pb < 2
    ensures var tg := Xor(Xor(hx0, hx1), And(SelectMask(pb), delta));
      Xor(if a then hx1 else hx0, And(tg, SelectMask((pa + if a then 1 else 0) % 2)))
        == Xor(Xor(hx0, And(SelectMask(pa), tg)), Times(a && pb == 1, delta))
  {
    var d := Times(pb == 1, delta);
    SelectMaskAnd(pb, delta);
    var tg := Xor(Xor(hx0, hx1), d);
    SelectMaskAnd(0, tg);
    SelectMaskAnd(1, tg);
    if !a {
      XorZero(Xor(hx0, And(SelectMask(pa), tg)));
    } else if pa == 0 {
      RowSelected(hx0, hx1, d);
    } else {
      RowSkipped(hx0, hx1, d);
    }
  }

  /** `hx1 ^ t_g == hx0 ^ d` where `t_g == hx0 ^ hx1 ^ d`. */
  lemma RowSelected(hx0: Block, hx1: Block, d: Block)
    ensures Xor(hx1, Xor(Xor(hx0, hx1), d)) == Xor(Xor(hx0, Zero), d)
  {
    var l, r := Xor(hx1, Xor(Xor(hx0, hx1), d)), Xor(Xor(hx0, Zero), d);
    forall i | 0 <= i < 16 ensures l[i] == r[i] { }
  }

  /** `hx1 ^ 0 == hx0 ^ t_g ^ d` where `t_g == hx0 ^ hx1 ^ d`. */
  lemma RowSkipped(hx0: Block, hx1: Block, d: Block)
    ensures Xor(hx1, Zero) == Xor(Xor(hx0, Xor(Xor(hx0, hx1), d)), d)
  {
    var l, r := Xor(hx1, Zero), Xor(Xor(hx0, Xor(Xor(hx0, hx1), d)), d);
    forall i | 0 <= i < 16 ensures l[i] == r[i] { }
  }

  /**
   * The evaluator half gate: on the labels of `a` and `b`, the
   * evaluator's share differs from the generator's `w_e` by
   * `a * (b ^ p_b) * delta`.
   */
  lemma EvaluatorHalf(hy0: Block, hy1: Block, x0: Block, delta: Block, pb: nat, a: bool, b: bool)
    requires pb < 2
    ensures var te := Xor(Xor(hy0, hy1), x0);
      Xor(if b then hy1 else hy0, And(SelectMask((pb + if b then 1 else 0) % 2), Xor(te, Encode(x0, a, delta))))
        == Xor(Xor(hy0, And(SelectMask(pb), Xor(te, x0))), Times(a && (b != (pb == 1)), delta))
  {
    var te := Xor(Xor(hy0, hy1), x0);
    var sb := (pb + if b then 1 else 0) % 2;
    var m := Times(a, delta);
    var x := Encode(x0, a, delta);
    if !a { XorZero(x0); }
    assert x == Xor(x0, m);
    SelectMaskAnd(pb, Xor(te, x0));
    SelectMaskAnd(sb, Xor(te, x));
    if !b && pb == 0 {
      XorZero(hy0);
      XorZero(Xor(hy0, Zero));
    } else if !b {
      RowOdd(hy0, te, x0, m);
    } else if pb == 0 {
      RowEven(hy0, hy1, x0, m);
    } else {
      RowBoth(hy0, hy1, x0);
    }
  }

  /** With `p_b == 1` and `b` false: `hy0 ^ (t_e ^ x0 ^ m) == (hy0 ^ t_e ^ x0) ^ m`. */
  lemma RowOdd(hy0: Block, te: Block, x0: Block, m: Block)
    ensures Xor(hy0, Xor(te, Xor(x0, m))) == Xor(Xor(hy0, Xor(te, x0)), m)
  {
    var l, r := Xor(hy0, Xor(te, Xor(x0, m))), Xor(Xor(hy0, Xor(te, x0)), m);
    forall i | 0 <= i < 16 ensures l[i] == r[i] { }
  }

  /** With `p_b == 0` and `b` true: `hy1 ^ (hy0 ^ hy1 ^ x0) ^ (x0 ^ m) == (hy0 ^ 0) ^ m`. */
  lemma RowEven(hy0: Block, hy1: Block, x0: Block, m: Block)
    ensures Xor(hy1, Xor(Xor(Xor(hy0, hy1), x0), Xor(x0, m))) == Xor(Xor(hy0, Zero), m)
  {
    var l, r := Xor(hy1, Xor(Xor(Xor(hy0, hy1), x0), Xor(x0, m))), Xor(Xor(hy0, Zero), m);
    forall i | 0 <= i < 16 ensures l[i] == r[i] { }
  }

  /** With `p_b == 1` and `b` true: `hy1 ^ 0 == hy0 ^ (hy0 ^ hy1 ^ x0) ^ x0`, with no offset. */
  lemma RowBoth(hy0: Block, hy1: Block, x0: Block)
    ensures Xor(hy1, Zero) == Xor(Xor(hy0, Xor(Xor(Xor(hy0, hy1), x0), x0)), Zero)
  {
    var l, r := Xor(hy1, Zero), Xor(Xor(hy0, Xor(Xor(Xor(hy0, hy1), x0), x0)), Zero);
    forall i | 0 <= i < 16 ensures l[i] == r[i] { }
  }

  /**
   * Correctness of the half-gate AND: when the lsb of `delta` is set,
   * evaluating the rows on the labels of `a` and `b` yields the label of
   * `a && b` under the low output label the generator keeps.
   */
  lemma AndGateCorrect(h: Hash, x0: Block, y0: Block, delta: Block, gid: nat, a: bool, b: bool)
    requires Lsb(delta) == 1
    ensures var (z0, t) := GenAndGate(h, x0, y0, delta, gid);
      EvalAndGate(h, Encode(x0, a, delta), Encode(y0, b, delta), t, gid) == Encode(z0, a && b, delta)
  {
    var x, y := Encode(x0, a, delta), Encode(y0, b, delta);
    var pa, pb := Lsb(x0), Lsb(y0);
    LsbXor(x0, delta);
    LsbXor(y0, delta);
    assert Lsb(x) == (pa + if a then 1 else 0) % 2;
    assert Lsb(y) == (pb + if b then 1 else 0) % 2;
    var (j, k) := TweakPair(gid);
    var hx0, hy0, hx1, hy1 := h(j, x0), h(k, y0), h(j, Xor(x0, delta)), h(k, Xor(y0, delta));
    assert h(j, x) == if a then hx1 else hx0;
    assert h(k, y) == if b then hy1 else hy0;
    GeneratorHalf(hx0, hx1, delta, pa, pb, a);
    EvaluatorHalf(hy0, hy1, x0, delta, pb, a, b);
    var (z0, t) := GenAndGate(h, x0, y0, delta, gid);
    var tg := Xor(Xor(hx0, hx1), And(SelectMask(pb), delta));
    var wg := Xor(hx0, And(SelectMask(pa), tg));
    var te := Xor(Xor(hy0, hy1), x0);
    var we := Xor(hy0, And(SelectMask(pb), Xor(te, x0)));
    assert t == EncryptedGate(tg, te) && z0 == Xor(wg, we);
    var p, q := a && pb == 1, a && (b != (pb == 1));
    assert EvalAndGate(h, x, y, t, gid) == Xor(Xor(wg, Times(p, delta)), Xor(we, Times(q, delta)));
    CombineHalves(wg, we, delta, p, q);
    assert (p != q) == (a && b);
  }

  /** The two shares' offsets add up: `(w_g ^ p*delta) ^ (w_e ^ q*delta)` encodes `p != q` under `w_g ^ w_e`. */
  lemma CombineHalves(wg: Block, we: Block, delta: Block, p: bool, q: bool)
    ensures Xor(Xor(wg, Times(p, delta)), Xor(we, Times(q, delta))) == Encode(Xor(wg, we), p != q, delta)
  {
    var l, r := Xor(Xor(wg, Times(p, delta)), Xor(we, Times(q, delta))), Encode(Xor(wg, we), p != q, delta);
    forall i | 0 <= i < 16 ensures l[i] == r[i] { }
  }
}
