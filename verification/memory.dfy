/**
 * The value and encoding memories of the garbling virtual machine.
 *
 * `ValueMemory` registers inputs and outputs under string identifiers,
 * records which inputs have been assigned and buffers the assigned values
 * until they are drained.  `EncodingMemory` stores at most one encoding
 * per value, keyed by the 64-bit hash of the value's identifier (a
 * parameter here).  Where the source panics (`expect`, `panic!`, an empty
 * array) the model returns `Panic`.
 */
module GarbleMemory {
  import opened Wrappers
  import opened Values
  import CT = CircuitTypes

  datatype Visibility = Public | Private | Blind

  datatype ValueDetails = Input(typ: CT.ValueType, visibility: Visibility) | Output(typ: CT.ValueType)

  datatype AssignedValue = PublicValue(v: CT.Value) | PrivateValue(v: CT.Value) | BlindValue(t: CT.ValueType)

  datatype AssignedValues = AssignedValues(public: seq<(ValueId, CT.Value)>, private: seq<(ValueId, CT.Value)>,
                                           blind: seq<(ValueId, CT.ValueType)>)

  datatype MemoryError =
    | DuplicateValueId(id: ValueId)
    | OutputValue(id: ValueId)
    | TypeMismatch(expected: Option<CT.ValueType>, actual: CT.ValueType)
    | BlindInput(id: ValueId)
    | DuplicateAssignment(id: ValueId)
    | Panic

  /** Which values are assigned, and the buffered assignments. */
  datatype Slots = Slots(assignedIds: set<ValueId>, buffer: map<ValueId, AssignedValue>)

  /** A buffered assignment belongs to an input, of its visibility and type. */
  predicate Agrees(d: ValueDetails, a: AssignedValue) {
    d.Input? &&
    match a
    case PublicValue(v) => d.visibility == Public && CT.ValueTypeOf(v) == d.typ
    case PrivateValue(v) => d.visibility == Private && CT.ValueTypeOf(v) == d.typ
    case BlindValue(t) => d.visibility == Blind && t == d.typ
  }

  /**
   * Only assigned values are buffered, only registered values are
   * assigned, and every buffered assignment agrees with its value.
   */
  predicate SlotsValid(details: map<ValueId, ValueDetails>, s: Slots) {
    s.buffer.Keys <= s.assignedIds && s.assignedIds <= details.Keys &&
    forall id :: id in s.buffer ==> id in details && Agrees(details[id], s.buffer[id])
  }

  /** The identifiers `id/0` … `id/(n-1)` of an array's elements. */
  function ElemIds(v: ValueId, n: nat): (ids: seq<ValueId>)
    ensures |ids| == n && forall i :: 0 <= i < n ==> ids[i] == AppendCounter(v, i)
  {
    seq(n, i requires 0 <= i < n => AppendCounter(v, i))
  }

  /** The elements of an array are distinct values. */
  lemma ElemIdsDistinct(v: ValueId, n: nat, i: nat, j: nat)
    requires i < j < n
    ensures ElemIds(v, n)[i] != ElemIds(v, n)[j]
  {
    AppendCounterInjective(v, i, j);
  }

  /** One more element extends the identifiers by `v/n`. */
  lemma ElemIdsSnoc(v: ValueId, n: nat)
    ensures ElemIds(v, n + 1) == ElemIds(v, n) + [AppendCounter(v, n)]
    ensures ElemIds(v, n + 1)[..n] == ElemIds(v, n)
  {
    assert ElemIds(v, n + 1) == ElemIds(v, n) + [AppendCounter(v, n)];
  }

  /** The first of the elements `id/0` … `id/(n-1)` that is already registered. */
  function FirstTaken(keys: set<ValueId>, v: ValueId, n: nat): (k: Option<nat>)
    ensures k.Some? ==> k.value < n && AppendCounter(v, k.value) in keys
    ensures forall i :: 0 <= i < n && (k.None? || i < k.value) ==> AppendCounter(v, i) !in keys
  {
    if n == 0 then None
    else
      var k := FirstTaken(keys, v, n - 1);
      if k.Some? then k
      else if AppendCounter(v, n - 1) in keys then Some(n - 1)
      else None
  }

  /** `m` with every key of `ks` mapped to `x`. */
  function WithAll<K, X>(m: map<K, X>, ks: seq<K>, x: X): (r: map<K, X>)
    ensures r.Keys == m.Keys + (set k | k in ks)
    ensures forall k :: k in r ==> r[k] == if k in ks then x else m[k]
  {
    if ks == [] then m
    else WithAll(m, ks[..|ks| - 1], x)[ks[|ks| - 1] := x]
  }

  /** Mapping one more key is one more update. */
  lemma WithAllSnoc<K, X>(m: map<K, X>, ks: seq<K>, k: K, x: X)
    ensures WithAll(m, ks + [k], x) == WithAll(m, ks, x)[k := x]
  {
    assert (ks + [k])[..|ks|] == ks;
  }

  /** Keys that are all new leave every existing entry as it was. */
  lemma WithAllFresh<K, X>(m: map<K, X>, ks: seq<K>, x: X)
    requires forall k :: k in ks ==> k !in m
    ensures forall k :: k in m ==> k in WithAll(m, ks, x) && WithAll(m, ks, x)[k] == m[k]
  {
  }

  /** The blind marking of `new_input`: each of `ids` is marked assigned and buffered as a blind value. */
  method MarkEach(marked: set<ValueId>, buffer: map<ValueId, AssignedValue>, ids: seq<ValueId>, t: CT.ValueType)
    returns (marked': set<ValueId>, buffer': map<ValueId, AssignedValue>)
    ensures marked' == marked + (set id | id in ids)
    ensures buffer' == WithAll(buffer, ids, BlindValue(t))
  {
    marked', buffer' := marked, buffer;
    var j := 0;
    while j < |ids|
      invariant j <= |ids|
      invariant marked' == marked + (set id | id in ids[..j])
      invariant buffer' == WithAll(buffer, ids[..j], BlindValue(t))
    {
      assert ids[..j + 1] == ids[..j] + [ids[j]];
      WithAllSnoc(buffer, ids[..j], ids[j], BlindValue(t));
      marked' := marked' + {ids[j]};
      buffer' := buffer'[ids[j] := BlindValue(t)];
      j := j + 1;
    }
    assert ids[..j] == ids;
  }

  /**
   * The walk of `new_input` and `new_output` over an array's elements, on
   * the registered values `m`: the elements up to the first one already
   * registered are added with details `d`.
   */
  method ScanElements(m: map<ValueId, ValueDetails>, v: ValueId, len: nat, d: ValueDetails)
    returns (r: Result<seq<ValueId>, MemoryError>, ds: map<ValueId, ValueDetails>)
    ensures var k := FirstTaken(m.Keys, v, len);
            (k.Some? ==> r == Err(DuplicateValueId(AppendCounter(v, k.value))) && ds == WithAll(m, ElemIds(v, k.value), d)) &&
            (k.None? ==> r == Ok(ElemIds(v, len)) && ds == WithAll(m, ElemIds(v, len), d))
  {
    var ids: seq<ValueId> := [];
    ds := m;
    var i := 0;
    while i < len
      invariant i <= len && ids == ElemIds(v, i)
      invariant FirstTaken(m.Keys, v, i).None?
      invariant ds == WithAll(m, ids, d)
    {
      var e := AppendCounter(v, i);
      if e in m {
        assert FirstTaken(m.Keys, v, len) == Some(i);
        return Err(DuplicateValueId(e)), ds;
      }
      forall j | 0 <= j < i
        ensures ids[j] != e
      {
        AppendCounterInjective(v, j, i);
      }
      assert FirstTaken(m.Keys, v, i + 1).None?;
      ElemIdsSnoc(v, i);
      ds := ds[e := d];
      ids := ids + [e];
      assert ids[..|ids| - 1] == ElemIds(v, i);
      i := i + 1;
    }
    r := Ok(ids);
  }

  /**
   * The checks of `assign` on one value, in the source's order: an
   * unregistered value panics, then an output, a type mismatch, a blind
   * input and a second assignment are refused; otherwise the value is
   * marked assigned and buffered with its visibility.
   */
  function AssignSpec(details: map<ValueId, ValueDetails>, s: Slots, id: ValueId, value: CT.Value): (r: Result<Slots, MemoryError>)
  {
    if id !in details then Err(Panic)
    else match details[id]
      case Output(_) => Err(OutputValue(id))
      case Input(t, vis) =>
        if t != CT.ValueTypeOf(value) then Err(TypeMismatch(Some(t), CT.ValueTypeOf(value)))
        else if vis == Blind then Err(BlindInput(id))
        else if id in s.assignedIds then Err(DuplicateAssignment(id))
        else Ok(Slots(s.assignedIds + {id}, s.buffer[id := if vis == Public then PublicValue(value) else PrivateValue(value)]))
  }

  /**
   * A successful assignment marks a value that was not assigned and
   * buffers it under its visibility; nothing else buffered changes.
   */
  lemma AssignMarksOnce(details: map<ValueId, ValueDetails>, s: Slots, id: ValueId, value: CT.Value)
    ensures var r := AssignSpec(details, s, id, value);
            r.Ok? ==> id !in s.assignedIds && r.value.assignedIds == s.assignedIds + {id} &&
                      r.value.buffer.Keys == s.buffer.Keys + {id} &&
                      r.value.buffer[id] in {PublicValue(value), PrivateValue(value)} &&
                      forall k :: k in s.buffer && k != id ==> r.value.buffer[k] == s.buffer[k]
  {
  }

  /** Assignment keeps the slots consistent with the registered values. */
  lemma AssignKeepsValid(details: map<ValueId, ValueDetails>, s: Slots, id: ValueId, value: CT.Value)
    ensures SlotsValid(details, s) && AssignSpec(details, s, id, value).Ok? ==>
              SlotsValid(details, AssignSpec(details, s, id, value).value)
  {
  }

  /** A value is assigned at most once: after one assignment every further one is refused. */
  lemma AssignAtMostOnce(details: map<ValueId, ValueDetails>, s: Slots, id: ValueId, v: CT.Value, w: CT.Value)
    requires AssignSpec(details, s, id, v).Ok?
    ensures AssignSpec(details, AssignSpec(details, s, id, v).value, id, w).Err?
    ensures CT.ValueTypeOf(w) == details[id].typ ==>
              AssignSpec(details, AssignSpec(details, s, id, v).value, id, w) == Err(DuplicateAssignment(id))
  {
  }

  /** A blind input is never assigned: the type check or the blind check refuses it. */
  lemma BlindNeverAssigned(details: map<ValueId, ValueDetails>, s: Slots, id: ValueId, v: CT.Value)
    requires id in details && details[id] == Input(details[id].typ, Blind)
    ensures AssignSpec(details, s, id, v).Err?
    ensures CT.ValueTypeOf(v) == details[id].typ ==> AssignSpec(details, s, id, v) == Err(BlindInput(id))
  {
  }

  /**
   * `assign` on an array after its type check: the elements are assigned
   * in order and the first refusal stops the walk, the elements before
   * it staying assigned.  `Outcome` holds the result and the slots after
   * the first `n` elements.
   */
  datatype Outcome = Outcome(r: Result<(), MemoryError>, s: Slots)

  function AssignElems(details: map<ValueId, ValueDetails>, s: Slots, ids: seq<ValueId>,
                       e: CT.PrimType, es: seq<seq<bool>>, n: nat): (o: Outcome)
    requires n <= |ids| && n <= |es|
    ensures s.assignedIds <= o.s.assignedIds
  {
    if n == 0 then Outcome(Ok(()), s)
    else
      var o := AssignElems(details, s, ids, e, es, n - 1);
      if o.r.Err? then o
      else match AssignSpec(details, o.s, ids[n - 1], CT.PrimValue(e, es[n - 1]))
        case Ok(s') => Outcome(Ok(()), s')
        case Err(x) => Outcome(Err(x), o.s)
  }

  /** Assigning an array's elements keeps the slots consistent with the registered values. */
  lemma {:induction false} AssignElemsKeepsValid(details: map<ValueId, ValueDetails>, s: Slots, ids: seq<ValueId>,
                                                 e: CT.PrimType, es: seq<seq<bool>>, n: nat)
    requires n <= |ids| && n <= |es| && SlotsValid(details, s)
    ensures SlotsValid(details, AssignElems(details, s, ids, e, es, n).s)
  {
    if n > 0 {
      AssignElemsKeepsValid(details, s, ids, e, es, n - 1);
      var o := AssignElems(details, s, ids, e, es, n - 1);
      AssignKeepsValid(details, o.s, ids[n - 1], CT.PrimValue(e, es[n - 1]));
    }
  }

  /** When the walk succeeds, every element of the array is assigned. */
  lemma {:induction false} AssignElemsAssignsAll(details: map<ValueId, ValueDetails>, s: Slots, ids: seq<ValueId>,
                                                 e: CT.PrimType, es: seq<seq<bool>>, n: nat)
    requires n <= |ids| && n <= |es|
    ensures var o := AssignElems(details, s, ids, e, es, n);
            o.r.Ok? ==> forall i :: 0 <= i < n ==> ids[i] in o.s.assignedIds
  {
    if n > 0 {
      AssignElemsAssignsAll(details, s, ids, e, es, n - 1);
      var prev := AssignElems(details, s, ids, e, es, n - 1);
      if prev.r.Ok? {
        var step := AssignSpec(details, prev.s, ids[n - 1], CT.PrimValue(e, es[n - 1]));
        if step.Ok? {
          assert AssignElems(details, s, ids, e, es, n).s.assignedIds == prev.s.assignedIds + {ids[n - 1]};
        }
      }
    }
  }

  /** Once an element is refused, the walk over the array stays where it stopped. */
  lemma {:induction false} AssignElemsStopped(details: map<ValueId, ValueDetails>, s: Slots, ids: seq<ValueId>,
                                              e: CT.PrimType, es: seq<seq<bool>>, n: nat, m: nat)
    requires n <= m <= |ids| && m <= |es| && AssignElems(details, s, ids, e, es, n).r.Err?
    ensures AssignElems(details, s, ids, e, es, m) == AssignElems(details, s, ids, e, es, n)
    decreases m
  {
    if m > n {
      AssignElemsStopped(details, s, ids, e, es, n, m - 1);
    }
  }

  /** The element walk of `assign`, one `AssignSpec` step per element. */
  method AssignEach(details: map<ValueId, ValueDetails>, s: Slots, ids: seq<ValueId>, e: CT.PrimType, es: seq<seq<bool>>)
    returns (o: Outcome)
    requires |ids| == |es|
    ensures o == AssignElems(details, s, ids, e, es, |ids|)
  {
    var cur := s;
    var j := 0;
    while j < |ids|
      invariant j <= |ids|
      invariant AssignElems(details, s, ids, e, es, j) == Outcome(Ok(()), cur)
    {
      var step := AssignSpec(details, cur, ids[j], CT.PrimValue(e, es[j]));
      if step.Err? {
        AssignElemsStopped(details, s, ids, e, es, j + 1, |ids|);
        return Outcome(Err(step.error), cur);
      }
      cur := step.value;
      j := j + 1;
    }
    o := Outcome(Ok(()), cur);
  }

  /** The type an array of `len` elements of type `elem` has; arrays of arrays have none here. */
  function ArrayType(elem: CT.ValueType, len: nat): (t: Option<CT.ValueType>)
    ensures t.Some? <==> elem.Prim?
    ensures t.Some? ==> t.value == CT.Array(elem.p, len)
  {
    if elem.Prim? then Some(CT.Array(elem.p, len)) else None
  }

  /** Every identifier a list of references iterates over, in order. */
  function FlatIds(values: seq<ValueRef>): (ids: seq<ValueId>)
    ensures forall v :: v in values ==> forall id :: id in Iter(v) ==> id in ids
  {
    if values == [] then [] else FlatIds(values[..|values| - 1]) + Iter(values[|values| - 1])
  }

  datatype Drained = Drained(out: AssignedValues, buffer: map<ValueId, AssignedValue>)

  /**
   * `drain_assigned` over the first `n` identifiers: each buffered one
   * leaves the buffer and joins the list of its kind.
   */
  function DrainSpec(buffer: map<ValueId, AssignedValue>, ids: seq<ValueId>, n: nat): (d: Drained)
    requires n <= |ids|
    ensures d.buffer.Keys == buffer.Keys - (set i | 0 <= i < n :: ids[i])
    ensures forall k :: k in d.buffer ==> d.buffer[k] == buffer[k]
    ensures forall p :: p in d.out.public ==> p.0 in buffer && buffer[p.0] == PublicValue(p.1)
    ensures forall p :: p in d.out.private ==> p.0 in buffer && buffer[p.0] == PrivateValue(p.1)
    ensures forall p :: p in d.out.blind ==> p.0 in buffer && buffer[p.0] == BlindValue(p.1)
  {
    if n == 0 then Drained(AssignedValues([], [], []), buffer)
    else
      var d := DrainSpec(buffer, ids, n - 1);
      var id := ids[n - 1];
      if id !in d.buffer then d
      else
        var rest := d.buffer - {id};
        match d.buffer[id]
        case PublicValue(v) => Drained(d.out.(public := d.out.public + [(id, v)]), rest)
        case PrivateValue(v) => Drained(d.out.(private := d.out.private + [(id, v)]), rest)
        case BlindValue(t) => Drained(d.out.(blind := d.out.blind + [(id, t)]), rest)
  }

  /** The walk of `drain_assigned` over the identifiers, on the buffer alone. */
  method DrainEach(buffer: map<ValueId, AssignedValue>, ids: seq<ValueId>) returns (d: Drained)
    ensures d == DrainSpec(buffer, ids, |ids|)
  {
    var public: seq<(ValueId, CT.Value)> := [];
    var private: seq<(ValueId, CT.Value)> := [];
    var blind: seq<(ValueId, CT.ValueType)> := [];
    var rest := buffer;
    var i := 0;
    while i < |ids|
      invariant i <= |ids|
      invariant DrainSpec(buffer, ids, i) == Drained(AssignedValues(public, private, blind), rest)
    {
      var id := ids[i];
      if id in rest {
        var a := rest[id];
        rest := rest - {id};
        match a
        case PublicValue(v) => public := public + [(id, v)];
        case PrivateValue(v) => private := private + [(id, v)];
        case BlindValue(t) => blind := blind + [(id, t)];
      }
      i := i + 1;
    }
    d := Drained(AssignedValues(public, private, blind), rest);
  }

  /** After the drain none of the identifiers is buffered. */
  lemma DrainRemovesAll(buffer: map<ValueId, AssignedValue>, ids: seq<ValueId>)
    ensures forall id :: id in ids ==> id !in DrainSpec(buffer, ids, |ids|).buffer
  {
    forall id | id in ids
      ensures id !in DrainSpec(buffer, ids, |ids|).buffer
    {
      var k :| 0 <= k < |ids| && ids[k] == id;
      assert id in (set j | 0 <= j < |ids| :: ids[j]);
    }
  }

  /** Draining a buffer that holds none of the identifiers finds nothing and leaves it as it is. */
  lemma {:induction false} DrainNothing(buffer: map<ValueId, AssignedValue>, ids: seq<ValueId>, n: nat)
    requires n <= |ids| && forall i :: 0 <= i < n ==> ids[i] !in buffer
    ensures DrainSpec(buffer, ids, n) == Drained(AssignedValues([], [], []), buffer)
  {
    if n > 0 {
      DrainNothing(buffer, ids, n - 1);
    }
  }

  /** A second drain over the same references returns nothing. */
  lemma DrainTwice(buffer: map<ValueId, AssignedValue>, ids: seq<ValueId>)
    ensures var first := DrainSpec(buffer, ids, |ids|);
            DrainSpec(first.buffer, ids, |ids|) == Drained(AssignedValues([], [], []), first.buffer)
  {
    var first := DrainSpec(buffer, ids, |ids|);
    DrainRemovesAll(buffer, ids);
    DrainNothing(first.buffer, ids, |ids|);
  }

  class ValueMemory {
    var idToRef: map<string, ValueRef>
    var refToId: map<ValueRef, string>
    var details: map<ValueId, ValueDetails>
    var assignedIds: set<ValueId>
    var assignedBuffer: map<ValueId, AssignedValue>

    ghost predicate Valid()
      reads this
    {
      SlotsValid(details, Slots(assignedIds, assignedBuffer))
    }

    /** `default`: nothing registered. */
    constructor ()
      ensures Valid()
      ensures idToRef == map[] && refToId == map[] && details == map[] && assignedIds == {} && assignedBuffer == map[]
    {
      idToRef := map[];
      refToId := map[];
      details := map[];
      assignedIds := {};
      assignedBuffer := map[];
    }

    /**
     * Registers the elements `v/0` … `v/(len-1)` with details `d`, in
     * order; the first one already registered stops the walk with
     * `DuplicateValueId`, the elements before it staying registered.
     */
    method AddElements(v: ValueId, len: nat, d: ValueDetails) returns (r: Result<seq<ValueId>, MemoryError>)
      requires Valid()
      modifies this
      ensures Valid()
      ensures var k := FirstTaken(old(details).Keys, v, len);
              (k.Some? ==> r == Err(DuplicateValueId(AppendCounter(v, k.value))) &&
                           details == WithAll(old(details), ElemIds(v, k.value), d)) &&
              (k.None? ==> r == Ok(ElemIds(v, len)) && details == WithAll(old(details), ElemIds(v, len), d))
      ensures forall k :: k in old(details) ==> k in details && details[k] == old(details)[k]
      ensures idToRef == old(idToRef) && refToId == old(refToId)
      ensures assignedIds == old(assignedIds) && assignedBuffer == old(assignedBuffer)
    {
      var ds;
      r, ds := ScanElements(details, v, len, d);
      var k := FirstTaken(details.Keys, v, len);
      var n := if k.Some? then k.value else len;
      WithAllFresh(details, ElemIds(v, n), d);
      details := ds;
    }

    /** Marks each of `ids` assigned and buffers it as a blind value of type `t`. */
    method MarkBlind(ids: seq<ValueId>, t: CT.ValueType)
      requires Valid() && forall id :: id in ids ==> id in details && details[id] == Input(t, Blind)
      modifies this
      ensures Valid()
      ensures assignedIds == old(assignedIds) + (set id | id in ids) &&
              assignedBuffer == WithAll(old(assignedBuffer), ids, BlindValue(t))
      ensures details == old(details) && idToRef == old(idToRef) && refToId == old(refToId)
    {
      var marked, buffer := MarkEach(assignedIds, assignedBuffer, ids, t);
      assignedIds, assignedBuffer := marked, buffer;
    }

    /**
     * `new_input`: an array registers its elements `id/0` … in order and
     * refuses an element already registered; a single value refuses an
     * identifier already registered.  A blind input is marked assigned
     * and buffered at once.  An array of length zero panics.  On success
     * the reference is recorded under the identifier and the other way
     * round.
     */
    method NewInput(id: string, typ: CT.ValueType, vis: Visibility) returns (r: Result<ValueRef, MemoryError>)
      requires Valid()
      modifies this
      ensures Valid()
      ensures forall k :: k in old(details) ==> k in details && details[k] == old(details)[k]
      ensures typ.Prim? && ValueId(id) in old(details) ==> r == Err(DuplicateValueId(ValueId(id))) && unchanged(this)
      ensures typ.Prim? && ValueId(id) !in old(details) ==>
                r == Ok(ValueRef.Value(ValueId(id))) &&
                details == old(details)[ValueId(id) := Input(typ, vis)] &&
                (vis == Blind ==> assignedIds == old(assignedIds) + {ValueId(id)} &&
                                  assignedBuffer == old(assignedBuffer)[ValueId(id) := BlindValue(typ)])
      ensures typ.Array? ==>
                var k := FirstTaken(old(details).Keys, ValueId(id), typ.len);
                var added := if k.Some? then k.value else typ.len;
                details == WithAll(old(details), ElemIds(ValueId(id), added), Input(CT.Prim(typ.elem), vis)) &&
                (k.Some? ==> r == Err(DuplicateValueId(AppendCounter(ValueId(id), k.value)))) &&
                (k.None? && typ.len == 0 ==> r == Err(Panic)) &&
                (k.None? && typ.len > 0 ==>
                   r == Ok(ValueRef.Array(ArrayRef(ElemIds(ValueId(id), typ.len)))) &&
                   (vis == Blind ==> assignedIds == old(assignedIds) + (set x | x in ElemIds(ValueId(id), typ.len)) &&
                                     assignedBuffer == WithAll(old(assignedBuffer), ElemIds(ValueId(id), typ.len),
                                                               BlindValue(CT.Prim(typ.elem)))))
      ensures r.Ok? ==> idToRef == old(idToRef)[id := r.value] && refToId == old(refToId)[r.value := id]
      ensures r.Err? ==> idToRef == old(idToRef) && refToId == old(refToId)
      ensures (r.Ok? && vis != Blind) || r.Err? ==> assignedIds == old(assignedIds) && assignedBuffer == old(assignedBuffer)
    {
      var v := ValueId(id);
      var vr: ValueRef;
      if typ.Array? {
        var d := Input(CT.Prim(typ.elem), vis);
        var added := AddElements(v, typ.len, d);
        if added.Err? {
          return Err(added.error);
        }
        var ids := added.value;
        if vis == Blind {
          MarkBlind(ids, CT.Prim(typ.elem));
        }
        var arr := NewArrayRef(ids);
        if arr.None? {
          return Err(Panic);
        }
        vr := ValueRef.Array(arr.value);
      } else {
        if v in details {
          return Err(DuplicateValueId(v));
        }
        details := details[v := Input(typ, vis)];
        if vis == Blind {
          assignedIds := assignedIds + {v};
          assignedBuffer := assignedBuffer[v := BlindValue(typ)];
        }
        vr := ValueRef.Value(v);
      }
      idToRef := idToRef[id := vr];
      refToId := refToId[vr := id];
      return Ok(vr);
    }

    /**
     * `new_output`: as `new_input`, registering outputs, which are never
     * assigned.
     */
    method NewOutput(id: string, typ: CT.ValueType) returns (r: Result<ValueRef, MemoryError>)
      requires Valid()
      modifies this
      ensures Valid()
      ensures forall k :: k in old(details) ==> k in details && details[k] == old(details)[k]
      ensures assignedIds == old(assignedIds) && assignedBuffer == old(assignedBuffer)
      ensures typ.Prim? && ValueId(id) in old(details) ==> r == Err(DuplicateValueId(ValueId(id))) && unchanged(this)
      ensures typ.Prim? && ValueId(id) !in old(details) ==>
                r == Ok(ValueRef.Value(ValueId(id))) && details == old(details)[ValueId(id) := Output(typ)]
      ensures typ.Array? ==>
                var k := FirstTaken(old(details).Keys, ValueId(id), typ.len);
                var added := if k.Some? then k.value else typ.len;
                details == WithAll(old(details), ElemIds(ValueId(id), added), Output(CT.Prim(typ.elem))) &&
                (k.Some? ==> r == Err(DuplicateValueId(AppendCounter(ValueId(id), k.value)))) &&
                (k.None? && typ.len == 0 ==> r == Err(Panic)) &&
                (k.None? && typ.len > 0 ==> r == Ok(ValueRef.Array(ArrayRef(ElemIds(ValueId(id), typ.len)))))
      ensures r.Ok? ==> idToRef == old(idToRef)[id := r.value] && refToId == old(refToId)[r.value := id]
      ensures r.Err? ==> idToRef == old(idToRef) && refToId == old(refToId)
    {
      var v := ValueId(id);
      var vr: ValueRef;
      if typ.Array? {
        var added := AddElements(v, typ.len, Output(CT.Prim(typ.elem)));
        if added.Err? {
          return Err(added.error);
        }
        var arr := NewArrayRef(added.value);
        if arr.None? {
          return Err(Panic);
        }
        vr := ValueRef.Array(arr.value);
      } else {
        if v in details {
          return Err(DuplicateValueId(v));
        }
        details := details[v := Output(typ)];
        vr := ValueRef.Value(v);
      }
      idToRef := idToRef[id := vr];
      refToId := refToId[vr := id];
      return Ok(vr);
    }

    /** `assign` on a single value. */
    method AssignValue(id: ValueId, value: CT.Value) returns (r: Result<(), MemoryError>)
      requires Valid()
      modifies this
      ensures Valid()
      ensures var spec := AssignSpec(details, old(Slots(assignedIds, assignedBuffer)), id, value);
              (spec.Ok? ==> r == Ok(()) && Slots(assignedIds, assignedBuffer) == spec.value) &&
              (spec.Err? ==> r == Err(spec.error) && assignedIds == old(assignedIds) && assignedBuffer == old(assignedBuffer))
      ensures details == old(details) && idToRef == old(idToRef) && refToId == old(refToId)
    {
      var spec := AssignSpec(details, Slots(assignedIds, assignedBuffer), id, value);
      AssignKeepsValid(details, Slots(assignedIds, assignedBuffer), id, value);
      if spec.Err? {
        return Err(spec.error);
      }
      var d := details[id];
      assignedBuffer := assignedBuffer[id := if d.visibility == Public then PublicValue(value) else PrivateValue(value)];
      assignedIds := assignedIds + {id};
      return Ok(());
    }

    /**
     * `assign`: a single value as above.  An array whose first element is
     * not registered panics; a value whose type is not the array's is
     * refused; otherwise the elements are assigned in order until one is
     * refused.
     */
    method Assign(vr: ValueRef, value: CT.Value) returns (r: Result<(), MemoryError>)
      requires Valid()
      modifies this
      ensures Valid()
      ensures vr.Value? ==>
                var spec := AssignSpec(details, old(Slots(assignedIds, assignedBuffer)), vr.id, value);
                (spec.Ok? ==> r == Ok(()) && Slots(assignedIds, assignedBuffer) == spec.value) &&
                (spec.Err? ==> r == Err(spec.error) && assignedIds == old(assignedIds) && assignedBuffer == old(assignedBuffer))
      ensures vr.Array? && (|vr.arr.ids| == 0 || vr.arr.ids[0] !in details) ==> r == Err(Panic) && unchanged(this)
      ensures vr.Array? && |vr.arr.ids| > 0 && vr.arr.ids[0] in details ==>
                var expected := ArrayType(details[vr.arr.ids[0]].typ, |vr.arr.ids|);
                (expected != Some(CT.ValueTypeOf(value)) ==>
                   r == Err(TypeMismatch(expected, CT.ValueTypeOf(value))) && unchanged(this)) &&
                (expected == Some(CT.ValueTypeOf(value)) ==>
                   var o := AssignElems(details, old(Slots(assignedIds, assignedBuffer)), vr.arr.ids,
                                        value.elem, value.elems, |vr.arr.ids|);
                   r == o.r && Slots(assignedIds, assignedBuffer) == o.s)
      ensures old(assignedIds) <= assignedIds
      ensures details == old(details) && idToRef == old(idToRef) && refToId == old(refToId)
    {
      if vr.Value? {
        r := AssignValue(vr.id, value);
        return;
      }
      var ids := vr.arr.ids;
      if |ids| == 0 || ids[0] !in details {
        return Err(Panic);
      }
      var expected := ArrayType(details[ids[0]].typ, |ids|);
      if expected != Some(CT.ValueTypeOf(value)) {
        return Err(TypeMismatch(expected, CT.ValueTypeOf(value)));
      }
      var o := AssignEach(details, Slots(assignedIds, assignedBuffer), ids, value.elem, value.elems);
      AssignElemsKeepsValid(details, Slots(assignedIds, assignedBuffer), ids, value.elem, value.elems, |ids|);
      assignedIds, assignedBuffer := o.s.assignedIds, o.s.buffer;
      r := o.r;
    }

    /**
     * `drain_assigned`: every buffered identifier of the references leaves
     * the buffer, sorted into public, private and blind values.  The
     * values stay marked assigned.
     */
    method DrainAssigned(values: seq<ValueRef>) returns (out: AssignedValues)
      requires Valid()
      modifies this
      ensures Valid()
      ensures var ids := FlatIds(values);
              var d := DrainSpec(old(assignedBuffer), ids, |ids|);
              out == d.out && assignedBuffer == d.buffer
      ensures forall v :: v in values ==> forall id :: id in Iter(v) ==> id !in assignedBuffer
      ensures assignedIds == old(assignedIds) && details == old(details)
      ensures idToRef == old(idToRef) && refToId == old(refToId)
    {
      var ids := FlatIds(values);
      var public: seq<(ValueId, CT.Value)> := [];
      var private: seq<(ValueId, CT.Value)> := [];
      var blind: seq<(ValueId, CT.ValueType)> := [];
      var d := DrainEach(assignedBuffer, ids);
      assignedBuffer := d.buffer;
      out := d.out;
      DrainRemovesAll(old(assignedBuffer), ids);
    }

    /** `get_ref_by_id`. */
    function GetRefById(id: string): (r: Option<ValueRef>)
      reads this
      ensures r.Some? <==> id in idToRef
      ensures r.Some? ==> r.value == idToRef[id]
    {
      if id in idToRef then Some(idToRef[id]) else None
    }

    /** `get_value_type`: an unregistered value panics. */
    function GetValueType(vr: ValueRef): (r: Result<CT.ValueType, MemoryError>)
      reads this
      ensures r.Err? <==> (vr.Value? && vr.id !in details) ||
                          (vr.Array? && (|vr.arr.ids| == 0 || vr.arr.ids[0] !in details ||
                                         details[vr.arr.ids[0]].typ.Array?))
      ensures r.Ok? && vr.Value? ==> r.value == details[vr.id].typ
      ensures r.Ok? && vr.Array? ==> r.value == CT.Array(details[vr.arr.ids[0]].typ.p, |vr.arr.ids|)
    {
      match vr
      case Value(id) => if id in details then Ok(details[id].typ) else Err(Panic)
      case Array(a) =>
        if |a.ids| == 0 || a.ids[0] !in details then Err(Panic)
        else
          var t := ArrayType(details[a.ids[0]].typ, |a.ids|);
          if t.None? then Err(Panic) else Ok(t.value)
    }
  }

  /** Draining the same references twice: the second drain returns nothing. */
  method DrainTwiceEmpty(m: ValueMemory, values: seq<ValueRef>) returns (first: AssignedValues, second: AssignedValues)
    requires m.Valid()
    modifies m
    ensures m.Valid() && second == AssignedValues([], [], [])
    ensures first == DrainSpec(old(m.assignedBuffer), FlatIds(values), |FlatIds(values)|).out
  {
    first := m.DrainAssigned(values);
    DrainTwice(old(m.assignedBuffer), FlatIds(values));
    second := m.DrainAssigned(values);
  }

  /** A stored encoding of a value: one for a single value, one per element for an array. */
  datatype Encoded<E> = Single(labels: E) | Elements(elems: seq<E>)

  datatype EncodingError = DuplicateId(id: ValueId) | EncodingPanic

  /** A `u64`. */
  type U64 = x: int | 0 <= x < 0x1_0000_0000_0000_0000

  /**
   * `set_encoding_by_id` on the stored encodings `m`, keyed by `key`: a
   * taken key is refused, anything else is stored.
   */
  function SetById<E>(key: ValueId -> U64, m: map<U64, E>, id: ValueId, e: E): (Result<(), EncodingError>, map<U64, E>) {
    if key(id) in m then (Err(DuplicateId(id)), m) else (Ok(()), m[key(id) := e])
  }

  /** The element loop of `set_encoding`: the elements in order, up to the first refusal. */
  function SetElems<E>(key: ValueId -> U64, m: map<U64, E>, ids: seq<ValueId>, es: seq<E>): (Result<(), EncodingError>, map<U64, E>)
    requires |ids| == |es|
    decreases |ids|
  {
    if ids == [] then (Ok(()), m)
    else
      var first := SetById(key, m, ids[0], es[0]);
      if first.0.Err? then first else SetElems(key, first.1, ids[1..], es[1..])
  }

  /**
   * `set_encoding` on the stored encodings: a single value is stored by
   * its identifier and an array element by element; a single value with
   * an array encoding, or an array with a single encoding or one of
   * another length, panics with nothing stored.
   */
  function SetSpec<E>(key: ValueId -> U64, m: map<U64, E>, vr: ValueRef, enc: Encoded<E>): (Result<(), EncodingError>, map<U64, E>) {
    match vr
    case Value(id) => if enc.Elements? then (Err(EncodingPanic), m) else SetById(key, m, id, enc.labels)
    case Array(a) =>
      if enc.Single? || |enc.elems| != |a.ids| then (Err(EncodingPanic), m)
      else SetElems(key, m, a.ids, enc.elems)
  }

  /**
   * A successful element loop stored every element under a key that was
   * free, no two elements sharing a key, and added nothing else.
   */
  lemma {:induction false} SetElemsOk<E>(key: ValueId -> U64, m: map<U64, E>, ids: seq<ValueId>, es: seq<E>)
    requires |ids| == |es|
    ensures var r := SetElems(key, m, ids, es);
            r.0.Ok? ==>
              (forall i :: 0 <= i < |ids| ==> key(ids[i]) !in m && key(ids[i]) in r.1 && r.1[key(ids[i])] == es[i]) &&
              (forall i, j :: 0 <= i < j < |ids| ==> key(ids[i]) != key(ids[j])) &&
              forall k :: k in m ==> k in r.1 && r.1[k] == m[k]
    decreases |ids|
  {
    var r := SetElems(key, m, ids, es);
    if ids != [] && r.0.Ok? {
      var m1 := m[key(ids[0]) := es[0]];
      SetElemsOk(key, m1, ids[1..], es[1..]);
      forall i | 0 < i < |ids|
        ensures key(ids[i]) != key(ids[0]) && r.1[key(ids[i])] == es[i]
      {
        assert ids[1..][i - 1] == ids[i] && es[1..][i - 1] == es[i];
      }
    }
  }

  /** A complete element walk adds exactly the elements' keys. */
  lemma {:induction false} SetElemsOkKeys<E>(key: ValueId -> U64, m: map<U64, E>, ids: seq<ValueId>, es: seq<E>)
    requires |ids| == |es|
    ensures var r := SetElems(key, m, ids, es);
            r.0.Ok? ==> r.1.Keys == m.Keys + (set i | 0 <= i < |ids| :: key(ids[i]))
    decreases |ids|
  {
    var r := SetElems(key, m, ids, es);
    if ids != [] && r.0.Ok? {
      SetElemsOkKeys(key, m[key(ids[0]) := es[0]], ids[1..], es[1..]);
      assert (set i | 0 <= i < |ids| :: key(ids[i])) == {key(ids[0])} + (set i | 0 <= i < |ids| - 1 :: key(ids[1..][i]));
    }
  }


  /**
   * A refused element loop stopped at an element whose key was taken by
   * then; the elements before it stay stored.
   */
  lemma {:induction false} SetElemsStopped<E>(key: ValueId -> U64, m: map<U64, E>, ids: seq<ValueId>, es: seq<E>)
    requires |ids| == |es|
    ensures var r := SetElems(key, m, ids, es);
            r.0.Err? ==>
              exists k :: 0 <= k < |ids| && r.0 == Err(DuplicateId(ids[k])) &&
                          SetElems(key, m, ids[..k], es[..k]) == (Ok(()), r.1) && key(ids[k]) in r.1
    decreases |ids|
  {
    var r := SetElems(key, m, ids, es);
    if ids != [] && r.0.Err? {
      if key(ids[0]) in m {
        assert ids[..0] == [] && es[..0] == [];
        assert r.0 == Err(DuplicateId(ids[0]));
      } else {
        var m1 := m[key(ids[0]) := es[0]];
        SetElemsStopped(key, m1, ids[1..], es[1..]);
        var k :| 0 <= k < |ids| - 1 && r.0 == Err(DuplicateId(ids[1..][k])) &&
                 SetElems(key, m1, ids[1..][..k], es[1..][..k]) == (Ok(()), r.1) && key(ids[1..][k]) in r.1;
        assert ids[..k + 1][1..] == ids[1..][..k] && es[..k + 1][1..] == es[1..][..k];
        assert SetElems(key, m, ids[..k + 1], es[..k + 1]) == SetElems(key, m1, ids[1..][..k], es[1..][..k]);
      }
    }
  }

  /** The element loop only stores under the elements' keys and keeps what was stored. */
  lemma {:induction false} SetElemsKeys<E>(key: ValueId -> U64, m: map<U64, E>, ids: seq<ValueId>, es: seq<E>)
    requires |ids| == |es|
    ensures var r := SetElems(key, m, ids, es);
            r.1.Keys <= m.Keys + (set id | id in ids :: key(id)) && forall k :: k in m ==> k in r.1 && r.1[k] == m[k]
    decreases |ids|
  {
    if ids != [] && key(ids[0]) !in m {
      SetElemsKeys(key, m[key(ids[0]) := es[0]], ids[1..], es[1..]);
      assert forall id :: id in ids[1..] ==> id in ids;
    }
  }

  /**
   * `set_encoding`, whatever its outcome, only stores under the keys of
   * the value's identifiers and keeps every stored encoding.
   */
  lemma SetSpecKeys<E>(key: ValueId -> U64, m: map<U64, E>, vr: ValueRef, enc: Encoded<E>)
    ensures var r := SetSpec(key, m, vr, enc);
            r.1.Keys <= m.Keys + (set id | id in Iter(vr) :: key(id)) && forall k :: k in m ==> k in r.1 && r.1[k] == m[k]
  {
    if vr.Array? && enc.Elements? && |enc.elems| == |vr.arr.ids| {
      SetElemsKeys(key, m, vr.arr.ids, enc.elems);
    }
  }

  class EncodingMemory<E(==)> {
    /** `ValueId::to_u64`: the 64-bit hash the encodings are keyed by. */
    const toU64: ValueId -> U64
    var encodings: map<U64, E>

    constructor (toU64: ValueId -> U64)
      ensures this.toU64 == toU64 && encodings == map[]
    {
      this.toU64 := toU64;
      encodings := map[];
    }

    /**
     * `set_encoding_by_id`: refuses when an encoding is stored under the
     * identifier's hash, and otherwise stores it; nothing stored changes.
     */
    method SetEncodingById(id: ValueId, enc: E) returns (r: Result<(), EncodingError>)
      modifies this
      ensures toU64(id) in old(encodings) ==> r == Err(DuplicateId(id)) && encodings == old(encodings)
      ensures toU64(id) !in old(encodings) ==> r == Ok(()) && encodings == old(encodings)[toU64(id) := enc]
    {
      if toU64(id) in encodings {
        return Err(DuplicateId(id));
      }
      encodings := encodings[toU64(id) := enc];
      return Ok(());
    }

    /**
     * `set_encoding`: a single value as above; an array with one encoding
     * per element sets the elements in order until one is refused; any
     * other shape panics.  The new encodings are exactly `SetSpec`'s,
     * elements stored before a refused one included; what a successful
     * call stores can be read back, and nothing stored before changes.
     */
    method SetEncoding(vr: ValueRef, enc: Encoded<E>) returns (r: Result<(), EncodingError>)
      modifies this
      ensures (r, encodings) == SetSpec(toU64, old(encodings), vr, enc)
      ensures forall k :: k in old(encodings) ==> k in encodings && encodings[k] == old(encodings)[k]
      ensures vr.Value? && enc.Single? ==>
                (toU64(vr.id) in old(encodings) <==> r == Err(DuplicateId(vr.id)))
      ensures (vr.Value? && enc.Elements?) || (vr.Array? && (enc.Single? || |enc.elems| != |vr.arr.ids|)) ==>
                r == Err(EncodingPanic) && encodings == old(encodings)
      ensures r.Ok? ==> GetEncoding(vr) == Some(enc)
      ensures r.Err? && r.error.DuplicateId? ==> r.error.id in Iter(vr)
    {
      match vr
      case Value(id) =>
        if enc.Elements? {
          return Err(EncodingPanic);
        }
        r := SetEncodingById(id, enc.labels);
      case Array(a) =>
        if enc.Single? || |enc.elems| != |a.ids| {
          return Err(EncodingPanic);
        }
        ghost var keys := seq(|a.ids|, i requires 0 <= i < |a.ids| => toU64(a.ids[i]));
        var j := 0;
        assert a.ids[0..] == a.ids && enc.elems[0..] == enc.elems;
        while j < |a.ids|
          invariant j <= |a.ids|
          invariant SetElems(toU64, old(encodings), a.ids, enc.elems) == SetElems(toU64, encodings, a.ids[j..], enc.elems[j..])
          invariant forall k :: k in old(encodings) ==> k in encodings && encodings[k] == old(encodings)[k]
          invariant forall i :: 0 <= i < j ==> keys[i] in encodings && encodings[keys[i]] == enc.elems[i]
        {
          assert a.ids[j..][1..] == a.ids[j + 1..] && enc.elems[j..][1..] == enc.elems[j + 1..];
          var rj := SetEncodingById(a.ids[j], enc.elems[j]);
          if rj.Err? {
            return rj;
          }
          j := j + 1;
        }
        forall id | id in a.ids
          ensures toU64(id) in encodings
        {
          var i :| 0 <= i < |a.ids| && a.ids[i] == id;
          assert keys[i] in encodings;
        }
        assert GetEncoding(vr).value.elems == enc.elems;
        r := Ok(());
    }

    /** `get_encoding_by_id`. */
    function GetEncodingById(id: ValueId): (r: Option<E>)
      reads this
      ensures r.Some? <==> toU64(id) in encodings
      ensures r.Some? ==> r.value == encodings[toU64(id)]
    {
      if toU64(id) in encodings then Some(encodings[toU64(id)]) else None
    }

    /** `get_encoding`: an array's encoding exists only when every element's does. */
    function GetEncoding(vr: ValueRef): (r: Option<Encoded<E>>)
      reads this
      ensures r.Some? <==> forall id :: id in Iter(vr) ==> toU64(id) in encodings
      ensures r.Some? && vr.Value? ==> r.value == Single(encodings[toU64(vr.id)])
      ensures r.Some? && vr.Array? ==>
                r.value.Elements? && |r.value.elems| == |vr.arr.ids| &&
                forall i :: 0 <= i < |vr.arr.ids| ==> r.value.elems[i] == encodings[toU64(vr.arr.ids[i])]
    {
      match vr
      case Value(id) => if toU64(id) in encodings then Some(Single(encodings[toU64(id)])) else None
      case Array(a) =>
        if forall id :: id in a.ids ==> toU64(id) in encodings
        then
          var encs := encodings;
          Some(Elements(seq(|a.ids|, i requires 0 <= i < |a.ids| => encs[toU64(a.ids[i])])))
        else None
    }

    /** `contains`. */
    predicate Contains(id: ValueId)
      reads this
    {
      toU64(id) in encodings
    }
  }
}
