/**
 * Cuckoo hashing of the Ferret multi-point correlated OT: values are placed
 * into a table of about 1.5·t slots with several hash functions, evicting
 * and re-placing occupants; the matching buckets list, for every slot, each
 * (value, hash function) pair that hashes there.
 *
 * The keyed AES hashes are the parameter `hash(k, v)`: the 128-bit output of
 * hash function k on value v, read as an unsigned integer.  The number of
 * hash functions and the number of placement attempts per value are the
 * parameters `hashNum` and `trials`.
 */
module Cuckoo {
  import opened Wrappers

  const U64Bound: nat := 0x1_0000_0000_0000_0000

  datatype Item = Item(value: nat, hashIndex: nat)

  datatype CuckooHashError = CuckooHashError
  datatype BucketError = NotInBucket | OutOfRange

  type Hash = (nat, nat) -> nat

  /** The number of hash functions: at least one. */
  type HashCount = n: nat | n > 0 witness 1

  /** `ceil(1.5·t)`, written in integers. */
  function TableLength(t: nat): (m: nat)
    ensures 2 * m == 3 * t || 2 * m == 3 * t + 1
    ensures t > 0 ==> m > 0
  {
    (3 * t + 1) / 2
  }

  /** The slot for a value under hash function k: the hash truncated to 64 bits, modulo the range. */
  function HashToIndex(hash: Hash, k: nat, range: nat, v: nat): (pos: nat)
    requires range > 0
    ensures pos < range
  {
    (hash(k, v) % U64Bound) % range
  }

  // The cuckoo table.

  /** Every occupied slot holds an item that its own hash function sends there. */
  predicate Placed(hash: Hash, hashNum: HashCount, t: seq<Option<Item>>)
  {
    forall k :: 0 <= k < |t| && t[k].Some? ==>
      t[k].value.hashIndex < hashNum && HashToIndex(hash, t[k].value.hashIndex, |t|, t[k].value.value) == k
  }

  /** Whether a slot holds value v (1) or not (0). */
  function SlotCount(s: Option<Item>, v: nat): nat
  {
    if s.Some? && s.value.value == v then 1 else 0
  }

  /** How many slots of a table hold value v. */
  function Count(t: seq<Option<Item>>, v: nat): nat
  {
    CountFrom(t, 0, v)
  }

  function CountFrom(t: seq<Option<Item>>, i: nat, v: nat): nat
    requires i <= |t|
    decreases |t| - i
  {
    if i == |t| then 0 else SlotCount(t[i], v) + CountFrom(t, i + 1, v)
  }

  /** Slots after k do not see an update at k. */
  lemma {:induction false} CountFromAfter(t: seq<Option<Item>>, k: nat, s: Option<Item>, i: nat, v: nat)
    requires k < i <= |t|
    ensures CountFrom(t[k := s], i, v) == CountFrom(t, i, v)
    decreases |t| - i
  {
    if i < |t| {
      CountFromAfter(t, k, s, i + 1, v);
      assert t[k := s][i] == t[i];
    }
  }

  lemma {:induction false} CountFromUpdate(t: seq<Option<Item>>, k: nat, s: Option<Item>, i: nat, v: nat)
    requires i <= k < |t|
    ensures CountFrom(t[k := s], i, v) + SlotCount(t[k], v) == CountFrom(t, i, v) + SlotCount(s, v)
    decreases k - i
  {
    if i == k {
      CountFromAfter(t, k, s, k + 1, v);
    } else {
      CountFromUpdate(t, k, s, i + 1, v);
      assert t[k := s][i] == t[i];
    }
  }

  /** Overwriting slot k removes its old value and adds the new one. */
  lemma CountUpdate(t: seq<Option<Item>>, k: nat, s: Option<Item>, v: nat)
    requires k < |t|
    ensures Count(t[k := s], v) + SlotCount(t[k], v) == Count(t, v) + SlotCount(s, v)
  {
    CountFromUpdate(t, k, s, 0, v);
  }

  function EmptyTable(m: nat): (t: seq<Option<Item>>)
    ensures |t| == m && forall k :: 0 <= k < m ==> t[k].None?
  {
    seq(m, _ => None)
  }

  /** An empty table holds no value and trivially keeps every item in its own slot. */
  lemma {:induction false} EmptyTableSpec(hash: Hash, hashNum: HashCount, m: nat, v: nat)
    ensures Count(EmptyTable(m), v) == 0 && Placed(hash, hashNum, EmptyTable(m))
  {
    EmptyCountFrom(m, 0, v);
  }

  lemma {:induction false} EmptyCountFrom(m: nat, i: nat, v: nat)
    requires i <= m
    ensures CountFrom(EmptyTable(m), i, v) == 0
    decreases m - i
  {
    if i < m {
      EmptyCountFrom(m, i + 1, v);
    }
  }

  /**
   * Places an item, evicting the occupant of its slot; the evicted item
   * moves on to its next hash function.  After `trials` placements that all
   * evicted, the insertion fails.
   */
  function Place(hash: Hash, hashNum: HashCount, t: seq<Option<Item>>, item: Item, trials: nat): (r: Result<seq<Option<Item>>, CuckooHashError>)
    requires |t| > 0
    ensures r.Ok? ==> |r.value| == |t|
    decreases trials
  {
    if trials == 0 then Err(CuckooHashError)
    else
      var pos := HashToIndex(hash, item.hashIndex, |t|, item.value);
      var t' := t[pos := Some(item)];
      match t[pos]
      case None => Ok(t')
      case Some(x) => Place(hash, hashNum, t', Item(x.value, (x.hashIndex + 1) % hashNum), trials - 1)
  }

  /** Writing an item into the slot its own hash function picks keeps the table placed. */
  lemma PlacedUpdate(hash: Hash, hashNum: HashCount, t: seq<Option<Item>>, pos: nat, item: Item)
    requires Placed(hash, hashNum, t) && pos < |t| && item.hashIndex < hashNum
    requires HashToIndex(hash, item.hashIndex, |t|, item.value) == pos
    ensures Placed(hash, hashNum, t[pos := Some(item)])
  {
  }

  /** A successful placement keeps every item in its own slot and adds exactly the new value. */
  lemma {:induction false} PlaceSpec(hash: Hash, hashNum: HashCount, t: seq<Option<Item>>, item: Item, trials: nat, v: nat)
    requires |t| > 0 && Placed(hash, hashNum, t) && item.hashIndex < hashNum
    requires Place(hash, hashNum, t, item, trials).Ok?
    ensures Placed(hash, hashNum, Place(hash, hashNum, t, item, trials).value)
    ensures Count(Place(hash, hashNum, t, item, trials).value, v) == Count(t, v) + (if v == item.value then 1 else 0)
    decreases trials
  {
    var pos := HashToIndex(hash, item.hashIndex, |t|, item.value);
    var t' := t[pos := Some(item)];
    CountUpdate(t, pos, Some(item), v);
    PlacedUpdate(hash, hashNum, t, pos, item);
    if t[pos].None? {
      assert Place(hash, hashNum, t, item, trials) == Ok(t');
    } else {
      var x := t[pos].value;
      var next := Item(x.value, (x.hashIndex + 1) % hashNum);
      assert Place(hash, hashNum, t, item, trials) == Place(hash, hashNum, t', next, trials - 1);
      PlaceSpec(hash, hashNum, t', next, trials - 1, v);
    }
  }

  /** Inserts the values in order into a table, stopping at the first that cannot be placed. */
  function InsertAll(hash: Hash, hashNum: HashCount, trials: nat, t: seq<Option<Item>>, alphas: seq<nat>): (r: Result<seq<Option<Item>>, CuckooHashError>)
    requires |t| > 0
    ensures r.Ok? ==> |r.value| == |t|
    decreases |alphas|
  {
    if |alphas| == 0 then Ok(t)
    else match Place(hash, hashNum, t, Item(alphas[0], 0), trials)
      case Err(e) => Err(e)
      case Ok(t') => InsertAll(hash, hashNum, trials, t', alphas[1..])
  }

  lemma {:induction false} InsertAllSpec(hash: Hash, hashNum: HashCount, trials: nat, t: seq<Option<Item>>, alphas: seq<nat>, v: nat)
    requires |t| > 0 && Placed(hash, hashNum, t)
    requires InsertAll(hash, hashNum, trials, t, alphas).Ok?
    ensures Placed(hash, hashNum, InsertAll(hash, hashNum, trials, t, alphas).value)
    ensures Count(InsertAll(hash, hashNum, trials, t, alphas).value, v) == Count(t, v) + multiset(alphas)[v]
    decreases |alphas|
  {
    if |alphas| > 0 {
      var r := Place(hash, hashNum, t, Item(alphas[0], 0), trials);
      assert r.Ok?;
      var t' := r.value;
      PlaceSpec(hash, hashNum, t, Item(alphas[0], 0), trials, v);
      assert InsertAll(hash, hashNum, trials, t, alphas) == InsertAll(hash, hashNum, trials, t', alphas[1..]);
      InsertAllSpec(hash, hashNum, trials, t', alphas[1..], v);
      assert multiset(alphas) == multiset{alphas[0]} + multiset(alphas[1..]) by {
        assert alphas == [alphas[0]] + alphas[1..];
      }
    }
  }

  /** One step of `InsertAll`: place the first value, then insert the rest. */
  lemma InsertAllStep(hash: Hash, hashNum: HashCount, trials: nat, t: seq<Option<Item>>, alphas: seq<nat>)
    requires |t| > 0 && |alphas| > 0
    ensures var p := Place(hash, hashNum, t, Item(alphas[0], 0), trials);
            InsertAll(hash, hashNum, trials, t, alphas) ==
              if p.Err? then Err(p.error) else InsertAll(hash, hashNum, trials, p.value, alphas[1..])
  {
  }

  /** The table `insert` builds: `ceil(1.5·t)` empty slots, then every value placed in order. */
  function InsertSpec(hash: Hash, hashNum: HashCount, trials: nat, alphas: seq<nat>): Result<seq<Option<Item>>, CuckooHashError>
  {
    var m := TableLength(|alphas|);
    if m == 0 then Ok([]) else InsertAll(hash, hashNum, trials, EmptyTable(m), alphas)
  }

  /**
   * On success the table has `ceil(1.5·t)` slots, each value is stored as
   * often as it was inserted, and each item sits in its own slot.
   */
  lemma InsertSpecCorrect(hash: Hash, hashNum: HashCount, trials: nat, alphas: seq<nat>)
    requires InsertSpec(hash, hashNum, trials, alphas).Ok?
    ensures var t := InsertSpec(hash, hashNum, trials, alphas).value;
            |t| == TableLength(|alphas|) && Placed(hash, hashNum, t) &&
            forall v :: Count(t, v) == multiset(alphas)[v]
  {
    var m := TableLength(|alphas|);
    if m > 0 {
      forall v
        ensures Count(InsertSpec(hash, hashNum, trials, alphas).value, v) == multiset(alphas)[v]
      {
        EmptyTableSpec(hash, hashNum, m, v);
        InsertAllSpec(hash, hashNum, trials, EmptyTable(m), alphas, v);
      }
      EmptyTableSpec(hash, hashNum, m, 0);
      InsertAllSpec(hash, hashNum, trials, EmptyTable(m), alphas, 0);
    }
  }

  /** Places one value by repeated eviction, in place. */
  method HashValue(hash: Hash, hashNum: HashCount, trials: nat, table: array<Option<Item>>, value: nat)
    returns (r: Result<(), CuckooHashError>)
    requires table.Length > 0
    modifies table
    ensures Place(hash, hashNum, old(table[..]), Item(value, 0), trials) ==
              if r.Ok? then Ok(table[..]) else Err(r.error)
  {
    ghost var t0 := table[..];
    var item := Item(value, 0);
    var trial := 0;
    while trial < trials
      invariant 0 <= trial <= trials
      invariant Place(hash, hashNum, t0, Item(value, 0), trials) == Place(hash, hashNum, table[..], item, trials - trial)
    {
      var pos := HashToIndex(hash, item.hashIndex, table.Length, item.value);
      var previous := table[pos];
      table[pos] := Some(item);
      if previous.Some? {
        var x := previous.value;
        item := Item(x.value, (x.hashIndex + 1) % hashNum);
      } else {
        return Ok(());
      }
      trial := trial + 1;
    }
    return Err(CuckooHashError);
  }

  /** Builds the cuckoo table for the given values. */
  method Insert(hash: Hash, hashNum: HashCount, trials: nat, alphas: seq<nat>) returns (r: Result<seq<Option<Item>>, CuckooHashError>)
    ensures r == InsertSpec(hash, hashNum, trials, alphas)
  {
    var m := TableLength(|alphas|);
    if m == 0 {
      return Ok([]);
    }
    var table := new Option<Item>[m](_ => None);
    assert table[..] == EmptyTable(m);
    var i := 0;
    assert alphas[0..] == alphas;
    while i < |alphas|
      invariant 0 <= i <= |alphas|
      invariant table.Length == m
      invariant InsertSpec(hash, hashNum, trials, alphas) == InsertAll(hash, hashNum, trials, table[..], alphas[i..])
    {
      ghost var before := table[..];
      var res := HashValue(hash, hashNum, trials, table, alphas[i]);
      InsertAllStep(hash, hashNum, trials, before, alphas[i..]);
      assert alphas[i..][0] == alphas[i] && alphas[i..][1..] == alphas[i + 1..];
      if res.Err? {
        return Err(res.error);
      }
      i := i + 1;
    }
    return Ok(table[..]);
  }

  // The buckets.

  /** Appends `Item(v, k)` to the bucket that hash function k sends v to. */
  function Push(hash: Hash, bs: seq<seq<Item>>, v: nat, k: nat): (r: seq<seq<Item>>)
    requires |bs| > 0
    ensures |r| == |bs|
  {
    var pos := HashToIndex(hash, k, |bs|, v);
    bs[pos := bs[pos] + [Item(v, k)]]
  }

  /** Pushes v under the first k hash functions, in order. */
  function PushFirst(hash: Hash, bs: seq<seq<Item>>, v: nat, k: nat): (r: seq<seq<Item>>)
    requires |bs| > 0
    ensures |r| == |bs|
    decreases k
  {
    if k == 0 then bs else Push(hash, PushFirst(hash, bs, v, k - 1), v, k - 1)
  }

  /** The buckets for values `0..n`: each value is pushed once per hash function. */
  function Buckets(hash: Hash, hashNum: HashCount, m: nat, n: nat): (r: seq<seq<Item>>)
    requires m > 0
    ensures |r| == m
    decreases n
  {
    if n == 0 then EmptyBuckets(m) else PushFirst(hash, Buckets(hash, hashNum, m, n - 1), n - 1, hashNum)
  }

  lemma {:induction false} PushFirstMembers(hash: Hash, bs: seq<seq<Item>>, v: nat, k: nat, x: Item, b: nat)
    requires |bs| > 0 && b < |bs|
    ensures x in PushFirst(hash, bs, v, k)[b] <==>
              x in bs[b] || (x.value == v && x.hashIndex < k && HashToIndex(hash, x.hashIndex, |bs|, v) == b)
    decreases k
  {
    if k > 0 {
      PushFirstMembers(hash, bs, v, k - 1, x, b);
    }
  }

  /** An item sits in bucket b exactly when its value is below n, its hash function exists and sends it to b. */
  lemma {:induction false} BucketMembers(hash: Hash, hashNum: HashCount, m: nat, n: nat, x: Item, b: nat)
    requires m > 0 && b < m
    ensures x in Buckets(hash, hashNum, m, n)[b] <==>
              x.value < n && x.hashIndex < hashNum && HashToIndex(hash, x.hashIndex, m, x.value) == b
    decreases n
  {
    if n > 0 {
      BucketMembers(hash, hashNum, m, n - 1, x, b);
      PushFirstMembers(hash, Buckets(hash, hashNum, m, n - 1), n - 1, hashNum, x, b);
    }
  }

  function TotalSize(bs: seq<seq<Item>>): nat
    decreases |bs|
  {
    if |bs| == 0 then 0 else TotalSize(bs[..|bs| - 1]) + |bs[|bs| - 1]|
  }

  lemma {:induction false} TotalSizePush(bs: seq<seq<Item>>, pos: nat, x: Item)
    requires pos < |bs|
    ensures TotalSize(bs[pos := bs[pos] + [x]]) == TotalSize(bs) + 1
    decreases |bs|
  {
    var u := bs[pos := bs[pos] + [x]];
    if pos < |bs| - 1 {
      assert u[..|u| - 1] == bs[..|bs| - 1][pos := bs[pos] + [x]];
      TotalSizePush(bs[..|bs| - 1], pos, x);
    } else {
      assert u[..|u| - 1] == bs[..|bs| - 1];
    }
  }

  function EmptyBuckets(m: nat): (bs: seq<seq<Item>>)
    ensures |bs| == m && forall b :: 0 <= b < m ==> bs[b] == []
  {
    seq(m, _ => [])
  }

  lemma {:induction false} TotalSizeEmpty(m: nat)
    ensures TotalSize(EmptyBuckets(m)) == 0
  {
    if m > 0 {
      assert EmptyBuckets(m)[..m - 1] == EmptyBuckets(m - 1);
      TotalSizeEmpty(m - 1);
    }
  }

  /** The buckets for `0..n` hold `n · hashNum` items in total. */
  lemma {:induction false} BucketsSize(hash: Hash, hashNum: HashCount, m: nat, n: nat)
    requires m > 0
    ensures TotalSize(Buckets(hash, hashNum, m, n)) == n * hashNum
    decreases n
  {
    if n == 0 {
      TotalSizeEmpty(m);
    } else {
      BucketsSize(hash, hashNum, m, n - 1);
      PushFirstSize(hash, Buckets(hash, hashNum, m, n - 1), n - 1, hashNum);
    }
  }

  lemma {:induction false} PushFirstSize(hash: Hash, bs: seq<seq<Item>>, v: nat, k: nat)
    requires |bs| > 0
    ensures TotalSize(PushFirst(hash, bs, v, k)) == TotalSize(bs) + k
    decreases k
  {
    if k > 0 {
      var p := PushFirst(hash, bs, v, k - 1);
      PushFirstSize(hash, bs, v, k - 1);
      TotalSizePush(p, HashToIndex(hash, k - 1, |p|, v), Item(v, k - 1));
    }
  }

  /** Pushes value v under every hash function, in order. */
  method PushValue(hash: Hash, hashNum: HashCount, bs: array<seq<Item>>, v: nat)
    requires bs.Length > 0
    modifies bs
    ensures bs[..] == PushFirst(hash, old(bs[..]), v, hashNum)
  {
    ghost var before := bs[..];
    var k := 0;
    while k < hashNum
      invariant 0 <= k <= hashNum
      invariant bs[..] == PushFirst(hash, before, v, k)
    {
      var pos := HashToIndex(hash, k, bs.Length, v);
      bs[pos] := bs[pos] + [Item(v, k)];
      k := k + 1;
    }
  }

  /** Builds the buckets for values `0..n` by pushing, value by value and hash function by hash function. */
  method BucketInsert(hash: Hash, hashNum: HashCount, m: nat, n: nat) returns (buckets: seq<seq<Item>>)
    requires m > 0
    ensures buckets == Buckets(hash, hashNum, m, n)
  {
    var bs := new seq<Item>[m](_ => []);
    assert bs[..] == Buckets(hash, hashNum, m, 0);
    var i := 0;
    while i < n
      invariant 0 <= i <= n
      invariant bs.Length == m
      invariant bs[..] == Buckets(hash, hashNum, m, i)
    {
      PushValue(hash, hashNum, bs, i);
      i := i + 1;
    }
    return bs[..];
  }

  /** The position of the first item equal to the one sought, or `NotInBucket`. */
  function FindPos(bucket: seq<Item>, item: Item): (r: Result<nat, BucketError>)
    ensures r.Err? <==> item !in bucket
    ensures r.Err? ==> r.error == NotInBucket
    ensures r.Ok? ==> r.value < |bucket| && bucket[r.value] == item
                      && forall j :: 0 <= j < r.value ==> bucket[j] != item
    decreases |bucket|
  {
    if |bucket| == 0 then Err(NotInBucket)
    else if bucket[0] == item then Ok(0)
    else match FindPos(bucket[1..], item)
      case Err(e) => Err(e)
      case Ok(p) => Ok(p + 1)
  }

  /**
   * Every item of a table built from values below n is found in the bucket
   * at its own slot, when the buckets are built for `0..n` over the same
   * number of slots.
   */
  lemma TableInBuckets(hash: Hash, hashNum: HashCount, t: seq<Option<Item>>, n: nat)
    requires |t| > 0 && Placed(hash, hashNum, t)
    requires forall k :: 0 <= k < |t| && t[k].Some? ==> t[k].value.value < n
    ensures forall k :: 0 <= k < |t| && t[k].Some? ==>
              t[k].value in Buckets(hash, hashNum, |t|, n)[k] && FindPos(Buckets(hash, hashNum, |t|, n)[k], t[k].value).Ok?
  {
    forall k | 0 <= k < |t| && t[k].Some?
      ensures t[k].value in Buckets(hash, hashNum, |t|, n)[k]
    {
      BucketMembers(hash, hashNum, |t|, n, t[k].value, k);
    }
  }
}
