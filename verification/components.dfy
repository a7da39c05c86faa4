/**
 * Circuit components of mpz-circuits: nodes (feeds and sinks) and the three
 * binary gates.  A `Feed` is a wire a gate writes, a `Sink` a wire a gate
 * reads; both are plain wire ids.
 */
module Components {
  import opened Wrappers

  datatype Feed = Feed(id: nat)

  datatype Sink = Sink(id: nat)

  /** `GateType`: the kind of a gate. */
  datatype GateType = XorKind | AndKind | InvKind

  datatype Gate =
    | XorGate(x: Sink, y: Sink, z: Feed)
    | AndGate(x: Sink, y: Sink, z: Feed)
    | InvGate(x: Sink, z: Feed)

  /** `Gate::gate_type`. */
  function TypeOf(g: Gate): (t: GateType)
    ensures t == XorKind <==> g.XorGate?
    ensures t == AndKind <==> g.AndGate?
    ensures t == InvKind <==> g.InvGate?
  {
    match g
    case XorGate(_, _, _) => XorKind
    case AndGate(_, _, _) => AndKind
    case InvGate(_, _) => InvKind
  }

  /** `Gate::y`: the second input, absent exactly for an inverter. */
  function Y(g: Gate): (r: Option<Sink>)
    ensures r.None? <==> g.InvGate?
    ensures r.Some? ==> r.value == g.y
  {
    match g
    case XorGate(_, y, _) => Some(y)
    case AndGate(_, y, _) => Some(y)
    case InvGate(_, _) => None
  }

  /** `Gate::copy_with`: the same kind of gate on new node ids. */
  function CopyWith(g: Gate, newX: nat, newY: nat, newZ: nat): (r: Gate)
    ensures TypeOf(r) == TypeOf(g)
    ensures r.x.id == newX && r.z.id == newZ
    ensures Y(r).Some? ==> Y(r).value.id == newY
  {
    match g
    case XorGate(_, _, _) => XorGate(Sink(newX), Sink(newY), Feed(newZ))
    case AndGate(_, _, _) => AndGate(Sink(newX), Sink(newY), Feed(newZ))
    case InvGate(_, _) => InvGate(Sink(newX), Feed(newZ))
  }

  /** Copying a gate onto its own node ids gives back the gate. */
  lemma CopyWithOwnIds(g: Gate)
    ensures CopyWith(g, g.x.id, if g.InvGate? then 0 else g.y.id, g.z.id) == g
  {
  }

  /** `Node::shift_right` on a feed. */
  function ShiftFeed(n: Feed, offset: nat): Feed {
    Feed(n.id + offset)
  }

  /** Shifting by `a` and then by `b` is shifting by `a + b`; shifting keeps distinct nodes distinct. */
  lemma ShiftFeedCompose(n: Feed, m: Feed, a: nat, b: nat)
    ensures ShiftFeed(ShiftFeed(n, a), b) == ShiftFeed(n, a + b)
    ensures n != m ==> ShiftFeed(n, a) != ShiftFeed(m, a)
    ensures ShiftFeed(n, a).id >= a
  {
  }

  /** `From<Node<Feed>> for Node<Sink>`. */
  function FeedToSink(n: Feed): Sink {
    Sink(n.id)
  }

  /** `From<Node<Sink>> for Node<Feed>`. */
  function SinkToFeed(n: Sink): Feed {
    Feed(n.id)
  }

  /** The two conversions keep the id and undo each other. */
  lemma NodeConversionRoundTrip(f: Feed, s: Sink)
    ensures FeedToSink(f).id == f.id && SinkToFeed(s).id == s.id
    ensures SinkToFeed(FeedToSink(f)) == f
    ensures FeedToSink(SinkToFeed(s)) == s
  {
  }

  /** The number of AND gates in `gs`. */
  function CountAnd(gs: seq<Gate>): nat {
    if gs == [] then 0 else CountAnd(gs[..|gs| - 1]) + (if gs[|gs| - 1].AndGate? then 1 else 0)
  }

  /** No gate at a position in `[lo, hi)` is an AND gate. */
  predicate NoAndGate(gs: seq<Gate>, lo: nat, hi: nat)
  {
    forall i :: lo <= i < hi && i < |gs| ==> !gs[i].AndGate?
  }

  /** Counting AND gates over one more gate of a prefix. */
  lemma CountAndPrefix(gs: seq<Gate>, n: nat)
    requires 0 < n <= |gs|
    ensures CountAnd(gs[..n]) == CountAnd(gs[..n - 1]) + (if gs[n - 1].AndGate? then 1 else 0)
  {
    assert gs[..n][..n - 1] == gs[..n - 1];
  }

  /** An AND gate at position `n` is counted in the whole list but not in the prefix before it. */
  lemma {:induction false} CountAndBefore(gs: seq<Gate>, n: nat)
    requires n < |gs| && gs[n].AndGate?
    ensures CountAnd(gs[..n]) < CountAnd(gs)
    decreases |gs| - n
  {
    CountAndPrefix(gs, n + 1);
    if n + 1 == |gs| {
      assert gs[..n + 1] == gs;
    } else {
      CountAndGrows(gs, n + 1);
    }
  }

  /** A prefix holds no more AND gates than the whole list. */
  lemma {:induction false} CountAndGrows(gs: seq<Gate>, n: nat)
    requires n <= |gs|
    ensures CountAnd(gs[..n]) <= CountAnd(gs)
    decreases |gs| - n
  {
    if n == |gs| {
      assert gs[..n] == gs;
    } else {
      CountAndPrefix(gs, n + 1);
      CountAndGrows(gs, n + 1);
    }
  }

  /** The number of XOR gates in `gs`. */
  function CountXor(gs: seq<Gate>): nat {
    if gs == [] then 0 else CountXor(gs[..|gs| - 1]) + (if gs[|gs| - 1].XorGate? then 1 else 0)
  }
}
