/**
 * Value types, binary representations and plaintext values of mpz-circuits.
 * A primitive value is a fixed number of bits in lsb0 order; an array is a
 * sequence of primitives of one type.  A binary representation assigns one
 * circuit feed to every bit of a value.
 */
module CircuitTypes {
  import opened Components

  datatype PrimType = Bit | U8 | U16 | U32 | U64 | U128

  datatype ValueType = Prim(p: PrimType) | Array(elem: PrimType, len: nat)

  /** The number of bits of a primitive type. */
  function Width(p: PrimType): nat {
    match p
    case Bit => 1
    case U8 => 8
    case U16 => 16
    case U32 => 32
    case U64 => 64
    case U128 => 128
  }

  /** `ValueType::len`: the number of bits of a value of this type. */
  function TypeLen(t: ValueType): nat {
    match t
    case Prim(p) => Width(p)
    case Array(e, n) => Width(e) * n
  }

  /** The feeds that carry a value: one per bit. */
  datatype BinaryRepr =
    | PrimRepr(p: PrimType, nodes: seq<Feed>)
    | ArrayRepr(elem: PrimType, elems: seq<seq<Feed>>)

  /** The enum variant of a representation (`std::mem::discriminant`). */
  datatype Discriminant = PrimKind(p: PrimType) | ArrayKind

  function ReprType(r: BinaryRepr): ValueType {
    match r
    case PrimRepr(p, _) => Prim(p)
    case ArrayRepr(e, es) => Array(e, |es|)
  }

  function ReprKind(r: BinaryRepr): Discriminant {
    match r
    case PrimRepr(p, _) => PrimKind(p)
    case ArrayRepr(_, _) => ArrayKind
  }

  function Concat(ss: seq<seq<Feed>>): seq<Feed> {
    if ss == [] then [] else ss[0] + Concat(ss[1..])
  }

  /** `BinaryRepr::iter`: the feeds of every bit, array elements in order. */
  function ReprNodes(r: BinaryRepr): seq<Feed> {
    match r
    case PrimRepr(_, ns) => ns
    case ArrayRepr(_, es) => Concat(es)
  }

  /** Every primitive part has exactly as many feeds as its type has bits. */
  predicate ReprValid(r: BinaryRepr) {
    match r
    case PrimRepr(p, ns) => |ns| == Width(p)
    case ArrayRepr(e, es) => forall i :: 0 <= i < |es| ==> |es[i]| == Width(e)
  }

  function ShiftNodes(ns: seq<Feed>, offset: nat): (r: seq<Feed>)
    ensures |r| == |ns|
    ensures forall i :: 0 <= i < |ns| ==> r[i] == ShiftFeed(ns[i], offset)
  {
    seq(|ns|, i requires 0 <= i < |ns| => ShiftFeed(ns[i], offset))
  }

  function ShiftElems(es: seq<seq<Feed>>, offset: nat): (r: seq<seq<Feed>>)
    ensures |r| == |es|
    ensures forall i :: 0 <= i < |es| ==> r[i] == ShiftNodes(es[i], offset)
  {
    if es == [] then [] else [ShiftNodes(es[0], offset)] + ShiftElems(es[1..], offset)
  }

  /** `BinaryRepr::shift_right`: every feed id moves up by `offset`. */
  function ShiftRepr(r: BinaryRepr, offset: nat): BinaryRepr {
    match r
    case PrimRepr(p, ns) => PrimRepr(p, ShiftNodes(ns, offset))
    case ArrayRepr(e, es) => ArrayRepr(e, ShiftElems(es, offset))
  }

  /** A plaintext value: its bits in lsb0 order. */
  datatype Value =
    | PrimValue(p: PrimType, bits: seq<bool>)
    | ArrayValue(elem: PrimType, elems: seq<seq<bool>>)

  function ValueTypeOf(v: Value): ValueType {
    match v
    case PrimValue(p, _) => Prim(p)
    case ArrayValue(e, es) => Array(e, |es|)
  }

  function ConcatBits(ss: seq<seq<bool>>): seq<bool> {
    if ss == [] then [] else ss[0] + ConcatBits(ss[1..])
  }

  /** `into_iter_lsb0`: every bit of the value, array elements in order. */
  function ValueBits(v: Value): seq<bool> {
    match v
    case PrimValue(_, bs) => bs
    case ArrayValue(_, es) => ConcatBits(es)
  }

  predicate ValueValid(v: Value) {
    match v
    case PrimValue(p, bs) => |bs| == Width(p)
    case ArrayValue(e, es) => forall i :: 0 <= i < |es| ==> |es[i]| == Width(e)
  }

  /** The number of feeds of a valid representation is the bit length of its type. */
  lemma {:induction false} ReprNodesLength(r: BinaryRepr)
    requires ReprValid(r)
    ensures |ReprNodes(r)| == TypeLen(ReprType(r))
  {
    if r.ArrayRepr? {
      ConcatLength(r.elems, Width(r.elem));
    }
  }

  lemma {:induction false} ConcatLength(ss: seq<seq<Feed>>, w: nat)
    requires forall i :: 0 <= i < |ss| ==> |ss[i]| == w
    ensures |Concat(ss)| == w * |ss|
  {
    if ss != [] {
      ConcatLength(ss[1..], w);
    }
  }

  /** The number of bits of a valid value is the bit length of its type. */
  lemma {:induction false} ValueBitsLength(v: Value)
    requires ValueValid(v)
    ensures |ValueBits(v)| == TypeLen(ValueTypeOf(v))
  {
    if v.ArrayValue? {
      ConcatBitsLength(v.elems, Width(v.elem));
    }
  }

  lemma {:induction false} ConcatBitsLength(ss: seq<seq<bool>>, w: nat)
    requires forall i :: 0 <= i < |ss| ==> |ss[i]| == w
    ensures |ConcatBits(ss)| == w * |ss|
  {
    if ss != [] {
      ConcatBitsLength(ss[1..], w);
    }
  }

  function Chunks(bits: seq<bool>, w: nat, n: nat): (r: seq<seq<bool>>)
    requires |bits| == w * n
    ensures |r| == n
    ensures forall i :: 0 <= i < n ==> |r[i]| == w
  {
    if n == 0 then [] else [bits[..w]] + Chunks(bits[w..], w, n - 1)
  }

  /** `from_bin_repr`: the value of type `t` whose lsb0 bits are `bits`. */
  function FromBits(t: ValueType, bits: seq<bool>): Value
    requires |bits| == TypeLen(t)
  {
    match t
    case Prim(p) => PrimValue(p, bits)
    case Array(e, n) => ArrayValue(e, Chunks(bits, Width(e), n))
  }

  /** Decoding the bits of a valid value gives back the value. */
  lemma FromBitsRoundTrip(v: Value)
    requires ValueValid(v)
    ensures |ValueBits(v)| == TypeLen(ValueTypeOf(v))
    ensures FromBits(ValueTypeOf(v), ValueBits(v)) == v
  {
    ValueBitsLength(v);
    if v.ArrayValue? {
      ChunksConcat(v.elems, Width(v.elem));
    }
  }

  lemma {:induction false} ChunksConcat(ss: seq<seq<bool>>, w: nat)
    requires forall i :: 0 <= i < |ss| ==> |ss[i]| == w
    ensures |ConcatBits(ss)| == w * |ss|
    ensures Chunks(ConcatBits(ss), w, |ss|) == ss
  {
    ConcatBitsLength(ss, w);
    if ss != [] {
      ChunksConcat(ss[1..], w);
      var c := ConcatBits(ss);
      assert c[..w] == ss[0];
      assert c[w..] == ConcatBits(ss[1..]);
    }
  }

  /** Reading a value back from its bits loses nothing: its bits are the bits it was built from. */
  lemma FromBitsBits(t: ValueType, bits: seq<bool>)
    requires |bits| == TypeLen(t)
    ensures ValueValid(FromBits(t, bits)) && ValueTypeOf(FromBits(t, bits)) == t
    ensures ValueBits(FromBits(t, bits)) == bits
  {
    if t.Array? {
      ConcatChunks(bits, Width(t.elem), t.len);
    }
  }

  lemma {:induction false} ConcatChunks(bits: seq<bool>, w: nat, n: nat)
    requires |bits| == w * n
    ensures ConcatBits(Chunks(bits, w, n)) == bits
  {
    if n > 0 {
      MulPred(w, n);
      var rest := bits[w..];
      ConcatChunks(rest, w, n - 1);
      ConcatFirstChunk(bits, w, n);
      assert bits == bits[..w] + rest;
    }
  }

  lemma MulPred(w: nat, n: nat)
    requires n > 0
    ensures w * n == w * (n - 1) + w
  {
  }

  /** Concatenating the chunks starts with the first chunk. */
  lemma ConcatFirstChunk(bits: seq<bool>, w: nat, n: nat)
    requires n > 0 && |bits| == w * n && w * n == w * (n - 1) + w
    ensures ConcatBits(Chunks(bits, w, n)) == bits[..w] + ConcatBits(Chunks(bits[w..], w, n - 1))
  {
    var cs := Chunks(bits, w, n);
    assert cs[1..] == Chunks(bits[w..], w, n - 1);
  }
}
