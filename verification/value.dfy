/**
 * References to values held by the garbling virtual machine.  Every single
 * value has a string identifier; child identifiers are formed by appending
 * "/" and a name or a decimal counter.  An array reference is a non-empty
 * list of single-value identifiers.
 */
module Values {
  import opened Wrappers

  datatype ValueId = ValueId(name: string)

  function AppendId(v: ValueId, id: string): (r: ValueId)
    ensures |r.name| == |v.name| + 1 + |id|
  {
    ValueId(v.name + "/" + id)
  }

  /** The same suffix appended to two different parents gives two different identifiers. */
  lemma AppendIdInjective(a: ValueId, b: ValueId, id: string)
    ensures AppendId(a, id) == AppendId(b, id) ==> a == b
  {
    if AppendId(a, id) == AppendId(b, id) {
      var s := AppendId(a, id).name;
      assert a.name == s[..|a.name|] == b.name;
    }
  }

  /** Different suffixes under the same parent give different identifiers. */
  lemma AppendIdDistinct(v: ValueId, x: string, y: string)
    ensures AppendId(v, x) == AppendId(v, y) ==> x == y
  {
    if AppendId(v, x) == AppendId(v, y) {
      var s := AppendId(v, x).name;
      assert x == s[|v.name| + 1..] == y;
    }
  }

  function DigitChar(d: nat): (c: char)
    requires d < 10
    ensures '0' <= c <= '9' && c as int - '0' as int == d
  {
    ('0' as int + d) as char
  }

  predicate IsDigits(s: string)
  {
    forall i :: 0 <= i < |s| ==> '0' <= s[i] <= '9'
  }

  /** The decimal rendering of a counter, as a formatted `usize` prints it. */
  function Decimal(n: nat): (r: string)
    ensures |r| >= 1 && IsDigits(r)
    decreases n
  {
    if n < 10 then [DigitChar(n)] else Decimal(n / 10) + [DigitChar(n % 10)]
  }

  /** Reads a string of decimal digits back as a number. */
  function ParseDecimal(s: string): nat
    requires IsDigits(s)
    decreases |s|
  {
    if |s| == 0 then 0
    else ParseDecimal(s[..|s| - 1]) * 10 + (s[|s| - 1] as int - '0' as int)
  }

  lemma {:induction false} DecimalRoundTrip(n: nat)
    ensures ParseDecimal(Decimal(n)) == n
    decreases n
  {
    if n >= 10 {
      var s := Decimal(n);
      assert s[..|s| - 1] == Decimal(n / 10);
      DecimalRoundTrip(n / 10);
    }
  }

  function AppendCounter(v: ValueId, counter: nat): (r: ValueId)
    ensures r == AppendId(v, Decimal(counter))
  {
    ValueId(v.name + "/" + Decimal(counter))
  }

  /** Distinct counters under one parent name distinct values. */
  lemma AppendCounterInjective(v: ValueId, c1: nat, c2: nat)
    ensures AppendCounter(v, c1) == AppendCounter(v, c2) ==> c1 == c2
  {
    AppendIdDistinct(v, Decimal(c1), Decimal(c2));
    DecimalRoundTrip(c1);
    DecimalRoundTrip(c2);
  }

  datatype ArrayRef = ArrayRef(ids: seq<ValueId>)

  /** Creating an array from no values is refused (the source panics); None stands for that. */
  function NewArrayRef(ids: seq<ValueId>): (r: Option<ArrayRef>)
    ensures r.Some? <==> |ids| > 0
    ensures r.Some? ==> r.value.ids == ids
  {
    if |ids| == 0 then None else Some(ArrayRef(ids))
  }

  datatype ValueRef = Value(id: ValueId) | Array(arr: ArrayRef)

  /** Every array reference that can be built holds at least one value. */
  predicate Valid(v: ValueRef)
  {
    v.Array? ==> |v.arr.ids| > 0
  }

  function Len(v: ValueRef): nat
  {
    match v
    case Value(_) => 1
    case Array(a) => |a.ids|
  }

  function IsArray(v: ValueRef): (b: bool)
    ensures b <==> v.Array?
  {
    v.Array?
  }

  /** The identifiers a reference iterates over, in order. */
  function Iter(v: ValueRef): (ids: seq<ValueId>)
    ensures |ids| == Len(v)
    ensures v.Value? ==> ids == [v.id]
    ensures v.Array? ==> ids == v.arr.ids
  {
    match v
    case Value(id) => [id]
    case Array(a) => a.ids
  }

  function MapAppend(ids: seq<ValueId>, id: string): (r: seq<ValueId>)
    ensures |r| == |ids|
    ensures forall i :: 0 <= i < |ids| ==> r[i] == AppendId(ids[i], id)
  {
    seq(|ids|, i requires 0 <= i < |ids| => AppendId(ids[i], id))
  }

  function AppendIdRef(v: ValueRef, id: string): (r: ValueRef)
    ensures IsArray(r) == IsArray(v) && Len(r) == Len(v)
    ensures Valid(v) ==> Valid(r)
    ensures forall i :: 0 <= i < Len(v) ==> Iter(r)[i] == AppendId(Iter(v)[i], id)
  {
    match v
    case Value(x) => Value(AppendId(x, id))
    case Array(a) => Array(ArrayRef(MapAppend(a.ids, id)))
  }

  /** A valid reference names at least one value; a single value names exactly one. */
  lemma LenPositive(v: ValueRef)
    requires Valid(v)
    ensures Len(v) >= 1 && (v.Value? ==> Len(v) == 1)
  {
  }

  /** Appending the same suffix to two different references gives two different references. */
  lemma AppendIdRefInjective(a: ValueRef, b: ValueRef, id: string)
    ensures AppendIdRef(a, id) == AppendIdRef(b, id) ==> a == b
  {
    if AppendIdRef(a, id) == AppendIdRef(b, id) {
      var ia, ib := Iter(a), Iter(b);
      forall i | 0 <= i < |ia|
        ensures ia[i] == ib[i]
      {
        AppendIdInjective(ia[i], ib[i], id);
      }
      assert ia == ib;
    }
  }
}
