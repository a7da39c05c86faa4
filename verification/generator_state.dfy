/**
 * The bookkeeping of the garbled-circuit generator: which values have an
 * encoding, which encodings are active (sent to the evaluator) and which
 * circuits, identified by their input and output references, have been
 * garbled.
 *
 * The encoder (`ChaChaEncoder::encode_by_type`, deterministic under its
 * seed), the garbling core and the selection of an active encoding from a
 * full one are parameters.  The transport (sinks, oblivious transfer,
 * batching of encrypted gates) is not modelled.
 */
module GeneratorState {
  import opened Wrappers
  import opened Values
  import CT = CircuitTypes
  import opened GarbleMemory
  import opened Ordering

  /** A circuit is identified by its input and output references. */
  datatype CircuitRefs = CircuitRefs(inputs: seq<ValueRef>, outputs: seq<ValueRef>)

  datatype GeneratorError =
    | CoreError
    | ValueError
    | DuplicateEncoding(vr: ValueRef)
    | MissingEncoding(vr: ValueRef)
    | EncodingRegistryError(err: EncodingError)
    | Panic

  /** Value identifiers are ordered by their names (`Ord` derived on the string). */
  function IdName(id: ValueId): string {
    id.name
  }

  /** The entries whose identifier is not active, in order. */
  function FilterInactive<X>(xs: seq<(ValueId, X)>, active: set<ValueId>): (r: seq<(ValueId, X)>)
    ensures forall i :: 0 <= i < |r| ==> r[i] in xs && r[i].0 !in active
    ensures forall i :: 0 <= i < |xs| && xs[i].0 !in active ==> xs[i] in r
    ensures |r| <= |xs|
  {
    if xs == [] then []
    else
      var rest := FilterInactive(xs[..|xs| - 1], active);
      assert xs == xs[..|xs| - 1] + [xs[|xs| - 1]];
      if xs[|xs| - 1].0 in active then rest else rest + [xs[|xs| - 1]]
  }

  /** Nothing passes the filter when every identifier is active. */
  lemma {:induction false} FilterAllActive<X>(xs: seq<(ValueId, X)>, active: set<ValueId>)
    requires forall i :: 0 <= i < |xs| ==> xs[i].0 in active
    ensures FilterInactive(xs, active) == []
  {
    if xs != [] {
      FilterAllActive(xs[..|xs| - 1], active);
    }
  }

  /**
   * `activate_encoding` on the stored encodings `encs`, keyed by `key`:
   * a value without an encoding, then a value already active, is refused.
   */
  function ActivateOne<E>(key: ValueId -> U64, encs: map<U64, E>, active: set<ValueId>, id: ValueId): (r: Result<E, GeneratorError>)
  {
    if key(id) !in encs then Err(MissingEncoding(ValueRef.Value(id)))
    else if id in active then Err(DuplicateEncoding(ValueRef.Value(id)))
    else Ok(encs[key(id)])
  }

  /** The result and the active set after activating the first `n` entries. */
  datatype Activated<A> = Activated(r: Result<seq<A>, GeneratorError>, active: set<ValueId>)

  /**
   * The send paths after filtering and sorting: each entry is activated
   * and its encoding passed through `sel` in order; the first refusal
   * stops the walk, the entries before it staying active.
   */
  function ActivatePrefix<E, X, A>(key: ValueId -> U64, encs: map<U64, E>, sel: (E, X) -> Option<A>,
                                   active: set<ValueId>, xs: seq<(ValueId, X)>, n: nat): (o: Activated<A>)
    requires n <= |xs|
  {
    if n == 0 then Activated(Ok([]), active)
    else
      var prev := ActivatePrefix(key, encs, sel, active, xs, n - 1);
      if prev.r.Err? then prev
      else match ActivateOne(key, encs, prev.active, xs[n - 1].0)
        case Err(x) => Activated(Err(x), prev.active)
        case Ok(e) =>
          var act := prev.active + {xs[n - 1].0};
          match sel(e, xs[n - 1].1)
          case None => Activated(Err(ValueError), act)
          case Some(a) => Activated(Ok(prev.r.value + [a]), act)
  }

  /** Once an entry is refused, the walk stays where it stopped. */
  lemma {:induction false} ActivateStopped<E, X, A>(key: ValueId -> U64, encs: map<U64, E>, sel: (E, X) -> Option<A>,
                                                   active: set<ValueId>, xs: seq<(ValueId, X)>, n: nat, m: nat)
    requires n <= m <= |xs| && ActivatePrefix(key, encs, sel, active, xs, n).r.Err?
    ensures ActivatePrefix(key, encs, sel, active, xs, m) == ActivatePrefix(key, encs, sel, active, xs, n)
    decreases m
  {
    if m > n {
      ActivateStopped(key, encs, sel, active, xs, n, m - 1);
    }
  }

  /** A successful walk made exactly its entries active. */
  lemma {:induction false} ActivateOkActive<E, X, A>(key: ValueId -> U64, encs: map<U64, E>, sel: (E, X) -> Option<A>,
                                                    active: set<ValueId>, xs: seq<(ValueId, X)>, n: nat)
    requires n <= |xs|
    ensures var o := ActivatePrefix(key, encs, sel, active, xs, n);
            o.r.Ok? ==> |o.r.value| == n && o.active == active + (set i | 0 <= i < n :: xs[i].0)
  {
    if n > 0 {
      ActivateOkActive(key, encs, sel, active, xs, n - 1);
      if ActivatePrefix(key, encs, sel, active, xs, n).r.Ok? {
        assert (set i | 0 <= i < n :: xs[i].0) == (set i | 0 <= i < n - 1 :: xs[i].0) + {xs[n - 1].0};
      }
    }
  }

  /**
   * Each entry of a successful walk was inactive before and stored, and
   * its result is the selection from its stored encoding.
   */
  lemma {:induction false} ActivateOkEntries<E, X, A>(key: ValueId -> U64, encs: map<U64, E>, sel: (E, X) -> Option<A>,
                                                     active: set<ValueId>, xs: seq<(ValueId, X)>, n: nat)
    requires n <= |xs|
    ensures var o := ActivatePrefix(key, encs, sel, active, xs, n);
            o.r.Ok? ==> |o.r.value| == n &&
                        forall i :: 0 <= i < n ==> xs[i].0 !in active && key(xs[i].0) in encs &&
                                                   sel(encs[key(xs[i].0)], xs[i].1) == Some(o.r.value[i])
  {
    if n > 0 {
      ActivateOkEntries(key, encs, sel, active, xs, n - 1);
      ActivateOkActive(key, encs, sel, active, xs, n - 1);
      var prev := ActivatePrefix(key, encs, sel, active, xs, n - 1);
      var o := ActivatePrefix(key, encs, sel, active, xs, n);
      if o.r.Ok? {
        assert prev.r.Ok? && o.r.value == prev.r.value + [o.r.value[n - 1]];
        assert xs[n - 1].0 !in prev.active;
      }
    }
  }

  /** The entries of a successful walk have distinct identifiers. */
  lemma {:induction false} ActivateOkDistinct<E, X, A>(key: ValueId -> U64, encs: map<U64, E>, sel: (E, X) -> Option<A>,
                                                      active: set<ValueId>, xs: seq<(ValueId, X)>, n: nat)
    requires n <= |xs|
    ensures ActivatePrefix(key, encs, sel, active, xs, n).r.Ok? ==> forall i, j :: 0 <= i < j < n ==> xs[i].0 != xs[j].0
  {
    if n > 0 {
      ActivateOkDistinct(key, encs, sel, active, xs, n - 1);
      ActivateOkActive(key, encs, sel, active, xs, n - 1);
      var prev := ActivatePrefix(key, encs, sel, active, xs, n - 1);
      if ActivatePrefix(key, encs, sel, active, xs, n).r.Ok? {
        forall i | 0 <= i < n - 1
          ensures xs[i].0 != xs[n - 1].0
        {
          assert xs[i].0 in prev.active;
        }
      }
    }
  }

  /**
   * Conversely, distinct inactive stored entries whose selections all
   * succeed are all activated.
   */
  lemma {:induction false} ActivateSucceeds<E, X, A>(key: ValueId -> U64, encs: map<U64, E>, sel: (E, X) -> Option<A>,
                                                    active: set<ValueId>, xs: seq<(ValueId, X)>, n: nat)
    requires n <= |xs|
    requires forall i :: 0 <= i < n ==> xs[i].0 !in active && key(xs[i].0) in encs && sel(encs[key(xs[i].0)], xs[i].1).Some?
    requires forall i, j :: 0 <= i < j < n ==> xs[i].0 != xs[j].0
    ensures ActivatePrefix(key, encs, sel, active, xs, n).r.Ok?
    ensures ActivatePrefix(key, encs, sel, active, xs, n).active == active + (set i | 0 <= i < n :: xs[i].0)
  {
    if n > 0 {
      ActivateSucceeds(key, encs, sel, active, xs, n - 1);
      assert (set i | 0 <= i < n :: xs[i].0) == (set i | 0 <= i < n - 1 :: xs[i].0) + {xs[n - 1].0};
      assert xs[n - 1].0 !in (set i | 0 <= i < n - 1 :: xs[i].0);
    }
  }

  /** The same identifier twice in one batch: the second activation is refused. */
  lemma {:induction false} ActivateTwiceRefused<E, X, A>(key: ValueId -> U64, encs: map<U64, E>, sel: (E, X) -> Option<A>,
                                                        active: set<ValueId>, xs: seq<(ValueId, X)>, i: nat, j: nat)
    requires i < j < |xs| && xs[i].0 == xs[j].0
    ensures ActivatePrefix(key, encs, sel, active, xs, |xs|).r.Err?
  {
    ActivateOkDistinct(key, encs, sel, active, xs, |xs|);
  }

  /** The walk of the send paths, one `activate_encoding` per entry. */
  method ActivateEach<E, X, A>(key: ValueId -> U64, encs: map<U64, E>, sel: (E, X) -> Option<A>,
                               active: set<ValueId>, xs: seq<(ValueId, X)>) returns (o: Activated<A>)
    ensures o == ActivatePrefix(key, encs, sel, active, xs, |xs|)
  {
    var act := active;
    var out: seq<A> := [];
    var j := 0;
    while j < |xs|
      invariant j <= |xs|
      invariant ActivatePrefix(key, encs, sel, active, xs, j) == Activated(Ok(out), act)
    {
      var id := xs[j].0;
      if key(id) !in encs {
        ActivateStopped(key, encs, sel, active, xs, j + 1, |xs|);
        return Activated(Err(MissingEncoding(ValueRef.Value(id))), act);
      }
      if id in act {
        ActivateStopped(key, encs, sel, active, xs, j + 1, |xs|);
        return Activated(Err(DuplicateEncoding(ValueRef.Value(id))), act);
      }
      act := act + {id};
      var a := sel(encs[key(id)], xs[j].1);
      if a.None? {
        ActivateStopped(key, encs, sel, active, xs, j + 1, |xs|);
        return Activated(Err(ValueError), act);
      }
      out := out + [a.value];
      j := j + 1;
    }
    o := Activated(Ok(out), act);
  }

  /** The encodings of `vrs` in order; the first value without one is reported. */
  function LookupAll<E>(m: EncodingMemory<E>, vrs: seq<ValueRef>): (r: Result<seq<Encoded<E>>, GeneratorError>)
    reads m
    ensures r.Ok? ==> |r.value| == |vrs| && forall i :: 0 <= i < |vrs| ==> m.GetEncoding(vrs[i]) == Some(r.value[i])
    ensures r.Err? ==> exists i :: 0 <= i < |vrs| && m.GetEncoding(vrs[i]).None? && r.error == MissingEncoding(vrs[i])
  {
    if vrs == [] then Ok([])
    else
      var first := LookupAll(m, vrs[..|vrs| - 1]);
      if first.Err? then first
      else match m.GetEncoding(vrs[|vrs| - 1])
        case None => Err(MissingEncoding(vrs[|vrs| - 1]))
        case Some(e) => Ok(first.value + [e])
  }

  /** Every value has an encoding exactly when the lookup succeeds. */
  lemma {:induction false} LookupAllOk<E>(m: EncodingMemory<E>, vrs: seq<ValueRef>)
    ensures LookupAll(m, vrs).Ok? <==> forall i :: 0 <= i < |vrs| ==> m.GetEncoding(vrs[i]).Some?
  {
    if vrs != [] {
      LookupAllOk(m, vrs[..|vrs| - 1]);
    }
  }

  /** The identifiers of a reference, as a set. */
  function IdsOf(vr: ValueRef): (s: set<ValueId>)
    ensures forall id :: id in s <==> id in Iter(vr)
  {
    set id | id in Iter(vr)
  }

  /** The identifiers of the first `n` outputs. */
  function OutputIds(outputs: seq<ValueRef>, n: nat): set<ValueId>
    requires n <= |outputs|
  {
    if n == 0 then {} else OutputIds(outputs, n - 1) + IdsOf(outputs[n - 1])
  }

  /** The outcome of storing outputs: the result, the stored encodings and the active values. */
  datatype Stored<E> = Stored(r: Result<(), GeneratorError>, encs: map<U64, E>, active: set<ValueId>)

  /**
   * The end of `generate` on the stored encodings `encs` and the active
   * values: the first `n` outputs, each paired with an encoding, are
   * stored by `set_encoding` and their identifiers made active, in order.
   * A refusal stops the walk with what was stored by then; a panic of
   * `set_encoding` is a panic.
   */
  function StorePrefix<E>(key: ValueId -> U64, encs: map<U64, E>, active: set<ValueId>,
                          outputs: seq<ValueRef>, es: seq<Encoded<E>>, n: nat): (o: Stored<E>)
    requires n <= |outputs| && n <= |es|
  {
    if n == 0 then Stored(Ok(()), encs, active)
    else
      var prev := StorePrefix(key, encs, active, outputs, es, n - 1);
      if prev.r.Err? then prev
      else
        var set1 := SetSpec(key, prev.encs, outputs[n - 1], es[n - 1]);
        if set1.0.Err? then
          Stored(Err(if set1.0.error.EncodingPanic? then GeneratorError.Panic else EncodingRegistryError(set1.0.error)), set1.1, prev.active)
        else Stored(Ok(()), set1.1, prev.active + IdsOf(outputs[n - 1]))
  }

  /** Once an output is refused, the walk stays where it stopped. */
  lemma {:induction false} StoreStopped<E>(key: ValueId -> U64, encs: map<U64, E>, active: set<ValueId>,
                                          outputs: seq<ValueRef>, es: seq<Encoded<E>>, n: nat, m: nat)
    requires n <= m <= |outputs| && m <= |es| && StorePrefix(key, encs, active, outputs, es, n).r.Err?
    ensures StorePrefix(key, encs, active, outputs, es, m) == StorePrefix(key, encs, active, outputs, es, n)
    decreases m
  {
    if m > n {
      StoreStopped(key, encs, active, outputs, es, n, m - 1);
    }
  }

  /**
   * Storing the outputs adds only the outputs' identifiers to the active
   * values, all of them on success, and keeps every encoding stored
   * before.
   */
  lemma {:induction false} StorePrefixActive<E>(key: ValueId -> U64, encs: map<U64, E>, active: set<ValueId>,
                                               outputs: seq<ValueRef>, es: seq<Encoded<E>>, n: nat)
    requires n <= |outputs| && n <= |es|
    ensures var o := StorePrefix(key, encs, active, outputs, es, n);
            active <= o.active <= active + OutputIds(outputs, n) &&
            (o.r.Ok? ==> o.active == active + OutputIds(outputs, n)) &&
            forall k :: k in encs ==> k in o.encs && o.encs[k] == encs[k]
  {
    if n > 0 {
      StorePrefixActive(key, encs, active, outputs, es, n - 1);
      var prev := StorePrefix(key, encs, active, outputs, es, n - 1);
      if prev.r.Ok? {
        SetSpecKeys(key, prev.encs, outputs[n - 1], es[n - 1]);
      }
    }
  }

  /** The keys of a set of identifiers. */
  function KeysOf(key: ValueId -> U64, ids: set<ValueId>): set<U64> {
    set id | id in ids :: key(id)
  }

  /** Storing the outputs stores only under the keys of their identifiers. */
  lemma {:induction false} StorePrefixKeys<E>(key: ValueId -> U64, encs: map<U64, E>, active: set<ValueId>,
                                             outputs: seq<ValueRef>, es: seq<Encoded<E>>, n: nat)
    requires n <= |outputs| && n <= |es|
    ensures StorePrefix(key, encs, active, outputs, es, n).encs.Keys <= encs.Keys + KeysOf(key, OutputIds(outputs, n))
  {
    if n > 0 {
      StorePrefixKeys(key, encs, active, outputs, es, n - 1);
      var prev := StorePrefix(key, encs, active, outputs, es, n - 1);
      if prev.r.Ok? {
        var vr := outputs[n - 1];
        SetSpecKeys(key, prev.encs, vr, es[n - 1]);
        var before, last := OutputIds(outputs, n - 1), IdsOf(vr);
        assert (set id | id in Iter(vr) :: key(id)) == KeysOf(key, last);
        assert OutputIds(outputs, n) == before + last;
        assert KeysOf(key, before + last) == KeysOf(key, before) + KeysOf(key, last);
      }
    }
  }

  /** A successful `set_encoding` stores the encoding so that it reads back. */
  lemma SetSpecStores<E>(key: ValueId -> U64, m: map<U64, E>, vr: ValueRef, enc: Encoded<E>)
    ensures SetSpec(key, m, vr, enc).0.Ok? ==> Stores(key, SetSpec(key, m, vr, enc).1, vr, enc)
  {
    if vr.Array? && enc.Elements? && |enc.elems| == |vr.arr.ids| {
      SetElemsOk(key, m, vr.arr.ids, enc.elems);
      var r := SetSpec(key, m, vr, enc);
      if r.0.Ok? {
        forall id | id in Iter(vr)
          ensures key(id) in r.1
        {
          var i :| 0 <= i < |vr.arr.ids| && vr.arr.ids[i] == id;
        }
      }
    }
  }

  /** An active value keeps having an encoding, whatever the outcome of the walk. */
  lemma {:induction false} StorePrefixActiveStored<E>(key: ValueId -> U64, encs: map<U64, E>, active: set<ValueId>,
                                                     outputs: seq<ValueRef>, es: seq<Encoded<E>>, n: nat)
    requires n <= |outputs| && n <= |es|
    requires forall id :: id in active ==> key(id) in encs
    ensures var o := StorePrefix(key, encs, active, outputs, es, n);
            forall id :: id in o.active ==> key(id) in o.encs
  {
    if n > 0 {
      StorePrefixActiveStored(key, encs, active, outputs, es, n - 1);
      var prev := StorePrefix(key, encs, active, outputs, es, n - 1);
      if prev.r.Ok? {
        SetSpecKeys(key, prev.encs, outputs[n - 1], es[n - 1]);
        SetSpecStores(key, prev.encs, outputs[n - 1], es[n - 1]);
      }
    }
  }

  /** After a successful walk every output reads back its encoding and its identifiers are active. */
  lemma {:induction false} StorePrefixStores<E>(key: ValueId -> U64, encs: map<U64, E>, active: set<ValueId>,
                                               outputs: seq<ValueRef>, es: seq<Encoded<E>>, n: nat)
    requires n <= |outputs| && n <= |es|
    ensures var o := StorePrefix(key, encs, active, outputs, es, n);
            o.r.Ok? ==> forall i :: 0 <= i < n ==> Stores(key, o.encs, outputs[i], es[i]) && IdsOf(outputs[i]) <= o.active
  {
    if n > 0 {
      var prev := StorePrefix(key, encs, active, outputs, es, n - 1);
      var o := StorePrefix(key, encs, active, outputs, es, n);
      if o.r.Ok? {
        assert prev.r.Ok?;
        StorePrefixStores(key, encs, active, outputs, es, n - 1);
        SetSpecKeys(key, prev.encs, outputs[n - 1], es[n - 1]);
        SetSpecStores(key, prev.encs, outputs[n - 1], es[n - 1]);
        forall i | 0 <= i < n - 1
          ensures Stores(key, o.encs, outputs[i], es[i])
        {
          StoresKept(key, prev.encs, o.encs, outputs[i], es[i]);
        }
      }
    }
  }

  /**
   * The encodings after `generate_input_encodings_by_id` on the first `n`
   * values: each value without a stored encoding gets the encoder's.
   */
  function EncodeAll<E>(key: ValueId -> U64, encodeByType: (U64, CT.ValueType) -> E, m: map<U64, E>,
                        values: seq<(ValueId, CT.ValueType)>, n: nat): map<U64, E>
    requires n <= |values|
  {
    if n == 0 then m
    else
      var prev := EncodeAll(key, encodeByType, m, values, n - 1);
      var k := key(values[n - 1].0);
      if k in prev then prev else prev[k := encodeByType(k, values[n - 1].1)]
  }

  /**
   * Encoding the values adds exactly their keys, keeps every stored
   * encoding, and stores under a new key the encoder's encoding for the
   * first value with that key.
   */
  lemma {:induction false} EncodeAllSpec<E>(key: ValueId -> U64, encodeByType: (U64, CT.ValueType) -> E, m: map<U64, E>,
                                           values: seq<(ValueId, CT.ValueType)>, n: nat)
    requires n <= |values|
    ensures var r := EncodeAll(key, encodeByType, m, values, n);
            r.Keys == m.Keys + (set i | 0 <= i < n :: key(values[i].0)) &&
            (forall k :: k in m ==> r[k] == m[k]) &&
            forall k :: k in r && k !in m ==>
              exists i :: 0 <= i < n && key(values[i].0) == k && r[k] == encodeByType(k, values[i].1) &&
                          forall j :: 0 <= j < i ==> key(values[j].0) != k
  {
    if n > 0 {
      EncodeAllSpec(key, encodeByType, m, values, n - 1);
      assert (set i | 0 <= i < n :: key(values[i].0)) ==
             (set i | 0 <= i < n - 1 :: key(values[i].0)) + {key(values[n - 1].0)};
      var prev := EncodeAll(key, encodeByType, m, values, n - 1);
      var k := key(values[n - 1].0);
      if k !in prev {
        forall j | 0 <= j < n - 1
          ensures key(values[j].0) != k
        {
          assert key(values[j].0) in (set i | 0 <= i < n - 1 :: key(values[i].0));
        }
      }
    }
  }

  class State<E(==), H(==)> {
    /** `ChaChaEncoder::encode_by_type`: the encoding of a value from its key and type. */
    const encodeByType: (U64, CT.ValueType) -> E
    const memory: EncodingMemory<E>
    var garbled: map<CircuitRefs, Option<H>>
    var active: set<ValueId>

    /** An active value always has an encoding. */
    ghost predicate Valid()
      reads this, memory
    {
      forall id :: id in active ==> memory.toU64(id) in memory.encodings
    }

    /** `State::new`: nothing encoded, active or garbled. */
    constructor (encodeByType: (U64, CT.ValueType) -> E, toU64: ValueId -> U64)
      ensures Valid() && fresh(memory)
      ensures this.encodeByType == encodeByType && memory.toU64 == toU64
      ensures memory.encodings == map[] && garbled == map[] && active == {}
    {
      this.encodeByType := encodeByType;
      memory := new EncodingMemory(toU64);
      garbled := map[];
      active := {};
    }

    /**
     * `encode_by_id`: a stored encoding is returned as it is; otherwise
     * the encoder's is stored and returned.
     */
    method EncodeById(id: ValueId, ty: CT.ValueType) returns (enc: E)
      requires Valid()
      modifies memory
      ensures Valid()
      ensures memory.toU64(id) in old(memory.encodings) ==>
                enc == old(memory.encodings)[memory.toU64(id)] && memory.encodings == old(memory.encodings)
      ensures memory.toU64(id) !in old(memory.encodings) ==>
                enc == encodeByType(memory.toU64(id), ty) &&
                memory.encodings == old(memory.encodings)[memory.toU64(id) := enc]
      ensures memory.GetEncodingById(id) == Some(enc)
    {
      var stored := memory.GetEncodingById(id);
      if stored.Some? {
        return stored.value;
      }
      enc := encodeByType(memory.toU64(id), ty);
      var r := memory.SetEncodingById(id, enc);
      assert r.Ok?;
    }

    /**
     * `encode`: a single value of a non-array type, or an array whose
     * length is the type's, is encoded id by id; any other combination
     * panics.  Every identifier of the value ends up with an encoding,
     * and what was stored before stays.
     */
    method Encode(vr: ValueRef, ty: CT.ValueType) returns (r: Result<Encoded<E>, GeneratorError>)
      requires Valid()
      modifies memory
      ensures Valid()
      ensures r.Err? <==> (vr.Value? && ty.Array?) || (vr.Array? && !(ty.Array? && |vr.arr.ids| == ty.len))
      ensures r.Err? ==> r.error == GeneratorError.Panic && memory.encodings == old(memory.encodings)
      ensures r.Ok? ==> memory.GetEncoding(vr) == Some(r.value)
      ensures forall k :: k in old(memory.encodings) ==> k in memory.encodings && memory.encodings[k] == old(memory.encodings)[k]
      ensures r.Ok? && vr.Value? ==>
                r.value == Single(if memory.toU64(vr.id) in old(memory.encodings) then old(memory.encodings)[memory.toU64(vr.id)]
                                  else encodeByType(memory.toU64(vr.id), ty))
      ensures r.Ok? && vr.Array? ==>
                forall i :: 0 <= i < |vr.arr.ids| ==>
                  var k := memory.toU64(vr.arr.ids[i]);
                  r.value.elems[i] == if k in old(memory.encodings) then old(memory.encodings)[k]
                                      else encodeByType(k, CT.Prim(ty.elem))
    {
      match vr
      case Value(id) =>
        if ty.Array? {
          return Err(GeneratorError.Panic);
        }
        var e := EncodeById(id, ty);
        GetEncodingStores(memory, vr, Single(e));
        r := Ok(Single(e));
      case Array(a) =>
        if !(ty.Array? && |a.ids| == ty.len) {
          return Err(GeneratorError.Panic);
        }
        var elems: seq<E> := [];
        var j := 0;
        while j < |a.ids|
          invariant j <= |a.ids| && |elems| == j
          invariant Valid()
          invariant forall k :: k in old(memory.encodings) ==> k in memory.encodings && memory.encodings[k] == old(memory.encodings)[k]
          invariant forall i :: 0 <= i < j ==> (memory.toU64(a.ids[i]) in memory.encodings &&
                                               memory.encodings[memory.toU64(a.ids[i])] == elems[i])
          invariant forall k :: k in memory.encodings && k !in old(memory.encodings) ==>
                      memory.encodings[k] == encodeByType(k, CT.Prim(ty.elem))
          invariant forall i :: 0 <= i < j ==>
                      var k := memory.toU64(a.ids[i]);
                      elems[i] == if k in old(memory.encodings) then old(memory.encodings)[k]
                                  else encodeByType(k, CT.Prim(ty.elem))
        {
          var e := EncodeById(a.ids[j], CT.Prim(ty.elem));
          elems := elems + [e];
          j := j + 1;
        }
        forall id | id in a.ids
          ensures memory.toU64(id) in memory.encodings
        {
          var i :| 0 <= i < |a.ids| && a.ids[i] == id;
        }
        GetEncodingStores(memory, vr, Elements(elems));
        r := Ok(Elements(elems));
    }

    /**
     * `activate_encoding`: a value without an encoding, then a value
     * already active, is refused; otherwise it becomes active and its
     * encoding is returned.
     */
    method ActivateEncoding(id: ValueId) returns (r: Result<E, GeneratorError>)
      requires Valid()
      modifies this
      ensures Valid()
      ensures r == ActivateOne(memory.toU64, memory.encodings, old(active), id)
      ensures active == if r.Ok? then old(active) + {id} else old(active)
      ensures garbled == old(garbled)
    {
      var stored := memory.GetEncodingById(id);
      if stored.None? {
        return Err(MissingEncoding(ValueRef.Value(id)));
      }
      if id in active {
        return Err(DuplicateEncoding(ValueRef.Value(id)));
      }
      active := active + {id};
      return Ok(stored.value);
    }

    /**
     * The state part of `ot_send_active_encodings` and
     * `direct_send_active_encodings`: the entries whose value is not
     * active are sorted by identifier, then activated in that order and
     * passed through `sel`.
     */
    method SendActive<X, A>(values: seq<(ValueId, X)>, sel: (E, X) -> Option<A>) returns (r: Result<seq<A>, GeneratorError>)
      requires Valid()
      modifies this
      ensures Valid()
      ensures var pending := SortBy(FilterInactive(values, old(active)), IdName);
              var o := ActivatePrefix(memory.toU64, memory.encodings, sel, old(active), pending, |pending|);
              r == o.r && active == o.active
      ensures garbled == old(garbled)
    {
      if |values| == 0 {
        return Ok([]);
      }
      var pending := SortBy(FilterInactive(values, active), IdName);
      var o := ActivateEach(memory.toU64, memory.encodings, sel, active, pending);
      ActivateKeepsStored(memory.toU64, memory.encodings, sel, active, pending, |pending|);
      active := o.active;
      r := o.r;
    }

    /** `ot_send_active_encodings`: the full encodings of the newly active values, sent by oblivious transfer. */
    method OtSendActiveEncodings(values: seq<(ValueId, CT.ValueType)>) returns (r: Result<seq<E>, GeneratorError>)
      requires Valid()
      modifies this
      ensures Valid()
      ensures var pending := SortBy(FilterInactive(values, old(active)), IdName);
              var o := ActivatePrefix(memory.toU64, memory.encodings, Full, old(active), pending, |pending|);
              r == o.r && active == o.active
      ensures garbled == old(garbled)
    {
      r := SendActive(values, Full);
    }

    /**
     * `direct_send_active_encodings`: the active encodings of the newly
     * active values, `select` choosing each from the full encoding by the
     * plaintext; a failed selection is a `ValueError`.
     */
    method DirectSendActiveEncodings<A>(values: seq<(ValueId, CT.Value)>, select: (E, CT.Value) -> Option<A>)
      returns (r: Result<seq<A>, GeneratorError>)
      requires Valid()
      modifies this
      ensures Valid()
      ensures var pending := SortBy(FilterInactive(values, old(active)), IdName);
              var o := ActivatePrefix(memory.toU64, memory.encodings, select, old(active), pending, |pending|);
              r == o.r && active == o.active
      ensures garbled == old(garbled)
    {
      r := SendActive(values, select);
    }

    /**
     * `generate`: circuit references garbled before give back the stored
     * output encodings and hash (a missing one panics).  Otherwise every
     * input needs an encoding; the circuit is garbled by `garble`, and
     * each output, paired with its encoding, is stored and made active
     * as `StorePrefix` states; only when that succeeds are the references
     * recorded.
     */
    method Generate(inputs: seq<ValueRef>, outputs: seq<ValueRef>,
                    garble: seq<Encoded<E>> -> Result<(seq<Encoded<E>>, Option<H>), GeneratorError>)
      returns (r: Result<(seq<Encoded<E>>, Option<H>), GeneratorError>)
      requires Valid()
      modifies this, memory
      ensures Valid()
      ensures forall k :: k in old(memory.encodings) ==> k in memory.encodings && memory.encodings[k] == old(memory.encodings)[k]
      ensures old(active) <= active
      ensures CircuitRefs(inputs, outputs) in old(garbled) ==>
                var stored := old(LookupAll(memory, outputs));
                r == (if stored.Ok? then Ok((stored.value, old(garbled)[CircuitRefs(inputs, outputs)])) else Err(GeneratorError.Panic)) &&
                garbled == old(garbled) && active == old(active) && memory.encodings == old(memory.encodings)
      ensures CircuitRefs(inputs, outputs) !in old(garbled) && old(LookupAll(memory, inputs)).Err? ==>
                r == Err(old(LookupAll(memory, inputs)).error) && garbled == old(garbled) && active == old(active) &&
                memory.encodings == old(memory.encodings)
      ensures CircuitRefs(inputs, outputs) !in old(garbled) && old(LookupAll(memory, inputs)).Ok? ==>
                var g := garble(old(LookupAll(memory, inputs)).value);
                (g.Err? ==> r == g && garbled == old(garbled) && active == old(active) &&
                            memory.encodings == old(memory.encodings)) &&
                (g.Ok? ==>
                   var n := if |outputs| < |g.value.0| then |outputs| else |g.value.0|;
                   var o := StorePrefix(memory.toU64, old(memory.encodings), old(active), outputs, g.value.0, n);
                   memory.encodings == o.encs && active == o.active &&
                   (o.r.Ok? ==> r == g && garbled == old(garbled)[CircuitRefs(inputs, outputs) := g.value.1]) &&
                   (o.r.Err? ==> r == Err(o.r.error) && garbled == old(garbled)))
      ensures r.Ok? && CircuitRefs(inputs, outputs) !in old(garbled) ==>
                forall i :: 0 <= i < |outputs| && i < |r.value.0| ==>
                  memory.GetEncoding(outputs[i]) == Some(r.value.0[i]) &&
                  forall id :: id in Iter(outputs[i]) ==> id in active
      ensures r.Err? ==> garbled == old(garbled)
    {
      var refs := CircuitRefs(inputs, outputs);
      if refs in garbled {
        var stored := LookupAll(memory, outputs);
        if stored.Err? {
          return Err(GeneratorError.Panic);
        }
        return Ok((stored.value, garbled[refs]));
      }
      var ins := LookupAll(memory, inputs);
      if ins.Err? {
        return Err(ins.error);
      }
      var g := garble(ins.value);
      if g.Err? {
        return g;
      }
      var stored := StoreOutputs(outputs, g.value.0);
      if stored.Err? {
        return Err(stored.error);
      }
      garbled := garbled[refs := g.value.1];
      r := g;
    }

    /**
     * The end of `generate`: each output paired with an encoding is
     * stored and its identifiers made active, in order; a refusal of the
     * encoding memory stops the walk with what was stored by then, and a
     * shape mismatch panics.
     */
    method StoreOutputs(outputs: seq<ValueRef>, encs: seq<Encoded<E>>) returns (r: Result<(), GeneratorError>)
      requires Valid()
      modifies this, memory
      ensures Valid() && garbled == old(garbled) && old(active) <= active
      ensures forall k :: k in old(memory.encodings) ==> k in memory.encodings && memory.encodings[k] == old(memory.encodings)[k]
      ensures var n := if |outputs| < |encs| then |outputs| else |encs|;
              var o := StorePrefix(memory.toU64, old(memory.encodings), old(active), outputs, encs, n);
              r == o.r && memory.encodings == o.encs && active == o.active
      ensures r.Ok? ==> forall i :: 0 <= i < |outputs| && i < |encs| ==>
                          memory.GetEncoding(outputs[i]) == Some(encs[i]) &&
                          forall id :: id in Iter(outputs[i]) ==> id in active
    {
      var n := if |outputs| < |encs| then |outputs| else |encs|;
      ghost var key, encs0, active0 := memory.toU64, memory.encodings, active;
      StorePrefixActive(key, encs0, active0, outputs, encs, n);
      StorePrefixActiveStored(key, encs0, active0, outputs, encs, n);
      StorePrefixStores(key, encs0, active0, outputs, encs, n);
      var j := 0;
      while j < n
        invariant j <= n && garbled == old(garbled)
        invariant StorePrefix(key, encs0, active0, outputs, encs, j) == Stored(Ok(()), memory.encodings, active)
      {
        var rs := memory.SetEncoding(outputs[j], encs[j]);
        if rs.Err? {
          StoreStopped(key, encs0, active0, outputs, encs, j + 1, n);
          return Err(if rs.error.EncodingPanic? then GeneratorError.Panic else EncodingRegistryError(rs.error));
        }
        active := active + IdsOf(outputs[j]);
        j := j + 1;
      }
      forall i | 0 <= i < n
        ensures memory.GetEncoding(outputs[i]) == Some(encs[i])
      {
        GetEncodingStores(memory, outputs[i], encs[i]);
      }
      r := Ok(());
    }

    /** `get_encodings_by_id`: the stored encodings of `ids`, or nothing when one is missing. */
    function GetEncodingsById(ids: seq<ValueId>): (r: Option<seq<E>>)
      reads this, memory
      ensures r.Some? <==> forall i :: 0 <= i < |ids| ==> memory.toU64(ids[i]) in memory.encodings
      ensures r.Some? ==> |r.value| == |ids| &&
                          forall i :: 0 <= i < |ids| ==> r.value[i] == memory.encodings[memory.toU64(ids[i])]
    {
      if ids == [] then Some([])
      else
        var first := GetEncodingsById(ids[..|ids| - 1]);
        var last := memory.GetEncodingById(ids[|ids| - 1]);
        if first.None? || last.None? then None else Some(first.value + [last.value])
    }

    /**
     * `generate_input_encodings_by_id`: every listed value ends up with an
     * encoding, those stored before unchanged and the others the
     * encoder's, and nothing else is stored.
     */
    method GenerateInputEncodingsById(values: seq<(ValueId, CT.ValueType)>)
      requires Valid()
      modifies memory
      ensures Valid()
      ensures forall k :: k in old(memory.encodings) ==> k in memory.encodings && memory.encodings[k] == old(memory.encodings)[k]
      ensures forall i :: 0 <= i < |values| ==> memory.toU64(values[i].0) in memory.encodings
      ensures memory.encodings == EncodeAll(memory.toU64, encodeByType, old(memory.encodings), values, |values|)
    {
      var j := 0;
      while j < |values|
        invariant j <= |values| && Valid()
        invariant memory.encodings == EncodeAll(memory.toU64, encodeByType, old(memory.encodings), values, j)
        invariant forall k :: k in old(memory.encodings) ==> k in memory.encodings && memory.encodings[k] == old(memory.encodings)[k]
        invariant forall i :: 0 <= i < j ==> memory.toU64(values[i].0) in memory.encodings
      {
        var _ := EncodeById(values[j].0, values[j].1);
        j := j + 1;
      }
    }

    /** `decode`: the decoding information of each value; a value without an encoding is reported. */
    function Decode<D>(values: seq<ValueRef>, decoding: Encoded<E> -> D): (r: Result<seq<D>, GeneratorError>)
      reads this, memory
      ensures r.Ok? <==> LookupAll(memory, values).Ok?
      ensures r.Ok? ==> |r.value| == |values| &&
                        forall i :: 0 <= i < |values| ==> Some(r.value[i]) == Map(memory.GetEncoding(values[i]), decoding)
    {
      var all := LookupAll(memory, values);
      if all.Err? then Err(all.error)
      else Ok(seq(|values|, i requires 0 <= i < |values| && i < |all.value| => decoding(all.value[i])))
    }
  }

  /** Encoding a value a second time returns the first encoding and stores nothing new. */
  method EncodeByIdTwice<E(==), H(==)>(s: State<E, H>, id: ValueId, ty: CT.ValueType, ty': CT.ValueType)
    returns (first: E, second: E)
    requires s.Valid()
    modifies s.memory
    ensures second == first && s.memory.GetEncodingById(id) == Some(first)
  {
    first := s.EncodeById(id, ty);
    ghost var stored := s.memory.encodings;
    second := s.EncodeById(id, ty');
    assert s.memory.encodings == stored;
  }

  /**
   * After a successful send every value of the batch is active, so the
   * same batch sent again has nothing left to activate.
   */
  lemma SendAgainSkipsAll<E, X, A>(key: ValueId -> U64, encs: map<U64, E>, sel: (E, X) -> Option<A>,
                                   active: set<ValueId>, values: seq<(ValueId, X)>)
    ensures var pending := SortBy(FilterInactive(values, active), IdName);
            var o := ActivatePrefix(key, encs, sel, active, pending, |pending|);
            o.r.Ok? ==> (forall i :: 0 <= i < |values| ==> values[i].0 in o.active) &&
                        FilterInactive(values, o.active) == []
  {
    var pending := SortBy(FilterInactive(values, active), IdName);
    var o := ActivatePrefix(key, encs, sel, active, pending, |pending|);
    if o.r.Ok? {
      ActivateOkActive(key, encs, sel, active, pending, |pending|);
      forall i | 0 <= i < |values|
        ensures values[i].0 in o.active
      {
        if values[i].0 !in active {
          assert values[i] in multiset(pending);
          var k :| 0 <= k < |pending| && pending[k] == values[i];
          assert values[i].0 in (set i | 0 <= i < |pending| :: pending[i].0);
        }
      }
      FilterAllActive(values, o.active);
    }
  }

  /**
   * `generate` a second time on the same references returns what the
   * first call returned, without garbling again, provided the garbling
   * yields one encoding per output.
   */
  method GenerateTwice<E(==), H(==)>(s: State<E, H>, inputs: seq<ValueRef>, outputs: seq<ValueRef>,
                                    garble: seq<Encoded<E>> -> Result<(seq<Encoded<E>>, Option<H>), GeneratorError>)
    returns (first: Result<(seq<Encoded<E>>, Option<H>), GeneratorError>,
             second: Result<(seq<Encoded<E>>, Option<H>), GeneratorError>)
    requires s.Valid()
    requires forall ins :: garble(ins).Ok? ==> |garble(ins).value.0| == |outputs|
    modifies s, s.memory
    ensures first.Ok? ==> second == first
  {
    first := s.Generate(inputs, outputs, garble);
    if first.Ok? {
      var stored := LookupAll(s.memory, outputs);
      LookupAllOk(s.memory, outputs);
      assert stored.Ok? && stored.value == first.value.0;
    }
    second := s.Generate(inputs, outputs, garble);
  }

  /** The selection of the oblivious-transfer path: the full encoding itself. */
  function Full<E>(e: E, t: CT.ValueType): Option<E> {
    Some(e)
  }

  function Map<X, Y>(o: Option<X>, f: X -> Y): (r: Option<Y>)
    ensures r.Some? <==> o.Some?
    ensures r.Some? ==> r.value == f(o.value)
  {
    if o.Some? then Some(f(o.value)) else None
  }

  /** Activation only picks stored values, so an active value keeps having an encoding. */
  lemma {:induction false} ActivateKeepsStored<E, X, A>(key: ValueId -> U64, encs: map<U64, E>, sel: (E, X) -> Option<A>,
                                                       active: set<ValueId>, xs: seq<(ValueId, X)>, n: nat)
    requires n <= |xs| && forall id :: id in active ==> key(id) in encs
    ensures forall id :: id in ActivatePrefix(key, encs, sel, active, xs, n).active ==> key(id) in encs
  {
    if n > 0 {
      ActivateKeepsStored(key, encs, sel, active, xs, n - 1);
    }
  }

  /** `encs` holds `enc` as the encoding of `vr`, keyed by `key`. */
  ghost predicate Stores<E>(key: ValueId -> U64, encs: map<U64, E>, vr: ValueRef, enc: Encoded<E>) {
    (forall id :: id in Iter(vr) ==> key(id) in encs) &&
    (vr.Value? ==> enc == Single(encs[key(vr.id)])) &&
    (vr.Array? ==> enc.Elements? && |enc.elems| == |vr.arr.ids| &&
                   forall i :: 0 <= i < |vr.arr.ids| ==> enc.elems[i] == encs[key(vr.arr.ids[i])])
  }

  /** What `get_encoding` reads back is what the memory stores. */
  lemma GetEncodingStores<E>(m: EncodingMemory<E>, vr: ValueRef, enc: Encoded<E>)
    ensures m.GetEncoding(vr) == Some(enc) <==> Stores(m.toU64, m.encodings, vr, enc)
  {
    if Stores(m.toU64, m.encodings, vr, enc) && vr.Array? {
      assert m.GetEncoding(vr).value.elems == enc.elems;
    }
  }

  /** Storing more encodings, write-once, keeps every stored one. */
  lemma StoresKept<E>(key: ValueId -> U64, before: map<U64, E>, after: map<U64, E>, vr: ValueRef, enc: Encoded<E>)
    requires forall k :: k in before ==> k in after && after[k] == before[k]
    requires Stores(key, before, vr, enc)
    ensures Stores(key, after, vr, enc)
  {
  }
}
