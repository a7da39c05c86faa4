/**
 * Feed vectors shared by plaintext evaluation, garbling and garbled
 * evaluation: one optional entry per circuit feed, inputs written by
 * zipping each input's feeds with the value's bits (or labels), and the
 * bookkeeping that shows every feed a gate reads has been written.
 */
module Feeds {
  import opened Wrappers
  import opened Components
  import opened CircuitTypes

  function Nones<T>(n: nat): (r: seq<Option<T>>)
    ensures |r| == n
    ensures forall i :: 0 <= i < n ==> r[i].None?
  {
    seq(n, _ => None)
  }

  /** Writes `vs` onto the feeds `ns`, pair by pair (ids beyond the vector are never written). */
  function SetPairs<T>(f: seq<Option<T>>, ns: seq<Feed>, vs: seq<T>): (r: seq<Option<T>>)
    requires |ns| == |vs|
    ensures |r| == |f|
  {
    if ns == [] then f
    else
      var g := SetPairs(f, ns[..|ns| - 1], vs[..|vs| - 1]);
      var id := ns[|ns| - 1].id;
      if id < |g| then g[id := Some(vs[|vs| - 1])] else g
  }

  /** Writes one input: as many pairs as the shorter list has (a zip of feeds and values). */
  function SetZip<T>(f: seq<Option<T>>, ns: seq<Feed>, vs: seq<T>): (r: seq<Option<T>>)
    ensures |r| == |f|
  {
    var m := if |ns| <= |vs| then |ns| else |vs|;
    SetPairs(f, ns[..m], vs[..m])
  }

  /** The vector after writing every input's entries onto its feeds, in input order. */
  function SetInputs<T>(f: seq<Option<T>>, rs: seq<BinaryRepr>, vals: seq<seq<T>>): (r: seq<Option<T>>)
    requires |rs| == |vals|
    ensures |r| == |f|
  {
    if rs == [] then f
    else
      var n := |rs| - 1;
      SetZip(SetInputs(f, rs[..n], vals[..n]), ReprNodes(rs[n]), vals[n])
  }

  lemma SetInputsStep<T>(f: seq<Option<T>>, rs: seq<BinaryRepr>, vals: seq<seq<T>>, k: nat)
    requires |rs| == |vals| && k < |rs|
    ensures SetInputs(f, rs[..k + 1], vals[..k + 1]) == SetZip(SetInputs(f, rs[..k], vals[..k]), ReprNodes(rs[k]), vals[k])
  {
    var rs', vals' := rs[..k + 1], vals[..k + 1];
    assert rs'[..k] == rs[..k] && vals'[..k] == vals[..k];
  }

  predicate NodesIn(ns: seq<Feed>, n: nat) {
    forall i :: 0 <= i < |ns| ==> ns[i].id < n
  }

  predicate InputsIn(rs: seq<BinaryRepr>, n: nat) {
    forall k :: 0 <= k < |rs| ==> NodesIn(ReprNodes(rs[k]), n)
  }

  /** The ids of the feeds a list of nodes names. */
  function NodeIds(ns: seq<Feed>): set<nat> {
    set i | 0 <= i < |ns| :: ns[i].id
  }

  /** The ids of every feed of the given inputs. */
  function InputIds(rs: seq<BinaryRepr>): set<nat> {
    if rs == [] then {} else InputIds(rs[..|rs| - 1]) + NodeIds(ReprNodes(rs[|rs| - 1]))
  }

  /** The ids the gates write. */
  function OutIds(gs: seq<Gate>): set<nat> {
    set i | 0 <= i < |gs| :: gs[i].z.id
  }

  /** The ids a gate reads. */
  function ReadIds(g: Gate): set<nat> {
    match g
    case XorGate(x, y, _) => {x.id, y.id}
    case AndGate(x, y, _) => {x.id, y.id}
    case InvGate(x, _) => {x.id}
  }

  predicate OutputsIn(gs: seq<Gate>, n: nat) {
    forall i :: 0 <= i < |gs| ==> gs[i].z.id < n
  }

  /** Every gate reads only feeds of `defined` or outputs of earlier gates. */
  predicate ReadsBefore(gs: seq<Gate>, defined: set<nat>) {
    forall i {:trigger ReadIds(gs[i])} :: 0 <= i < |gs| ==> ReadIds(gs[i]) <= defined + OutIds(gs[..i])
  }

  /** The outputs of a prefix, one gate longer. */
  lemma OutIdsPrefix(gs: seq<Gate>, n: nat)
    requires 0 < n <= |gs|
    ensures OutIds(gs[..n]) == OutIds(gs[..n - 1]) + {gs[n - 1].z.id}
  {
    OutIdsSnoc(gs[..n]);
    assert gs[..n][..n - 1] == gs[..n - 1];
  }

  lemma OutIdsSnoc(gs: seq<Gate>)
    requires gs != []
    ensures OutIds(gs) == OutIds(gs[..|gs| - 1]) + {gs[|gs| - 1].z.id}
  {
    var n := |gs| - 1;
    forall id | id in OutIds(gs) ensures id in OutIds(gs[..n]) + {gs[n].z.id} {
      var i :| 0 <= i < |gs| && gs[i].z.id == id;
      if i < n {
        assert gs[..n][i] == gs[i];
      }
    }
    forall id | id in OutIds(gs[..n]) ensures id in OutIds(gs) {
      var i :| 0 <= i < n && gs[..n][i].z.id == id;
      assert gs[i] == gs[..n][i];
    }
  }

  /** Writing pairs sets every named feed and unsets none. */
  lemma {:induction false} SetPairsDefines<T>(f: seq<Option<T>>, ns: seq<Feed>, vs: seq<T>)
    requires |ns| == |vs| && NodesIn(ns, |f|)
    ensures forall id :: id in NodeIds(ns) ==> id < |f| && SetPairs(f, ns, vs)[id].Some?
    ensures forall id :: 0 <= id < |f| && f[id].Some? ==> SetPairs(f, ns, vs)[id].Some?
  {
    if ns != [] {
      var n := |ns| - 1;
      assert forall i :: 0 <= i < n ==> ns[..n][i] == ns[i];
      SetPairsDefines(f, ns[..n], vs[..n]);
      assert forall id :: id in NodeIds(ns) ==> id in NodeIds(ns[..n]) || id == ns[n].id;
    }
  }

  /** After the inputs are written, every input feed is set, and every feed set before still is. */
  lemma {:induction false} SetInputsDefines<T>(f: seq<Option<T>>, rs: seq<BinaryRepr>, vals: seq<seq<T>>)
    requires |rs| == |vals| && InputsIn(rs, |f|)
    requires forall k :: 0 <= k < |rs| ==> |ReprNodes(rs[k])| <= |vals[k]|
    ensures forall id :: id in InputIds(rs) ==> id < |f| && SetInputs(f, rs, vals)[id].Some?
    ensures forall id :: 0 <= id < |f| && f[id].Some? ==> SetInputs(f, rs, vals)[id].Some?
  {
    if rs != [] {
      var n := |rs| - 1;
      assert forall k :: 0 <= k < n ==> rs[..n][k] == rs[k] && vals[..n][k] == vals[k];
      assert InputsIn(rs[..n], |f|);
      SetInputsDefines(f, rs[..n], vals[..n]);
      var ns := ReprNodes(rs[n]);
      var m := |ns|;
      assert ns[..m] == ns;
      SetPairsDefines(SetInputs(f, rs[..n], vals[..n]), ns, vals[n][..m]);
    }
  }

  // ------------------------------------------------------- input type checks

  /** The first index from `k` on whose actual type differs from the expected one, checked in order. */
  function MismatchFrom(expected: seq<ValueType>, actual: seq<ValueType>, k: nat): (r: Option<nat>)
    requires |expected| == |actual| && k <= |expected|
    ensures r.Some? ==> k <= r.value < |expected|
    decreases |expected| - k
  {
    if k == |expected| then None
    else if expected[k] != actual[k] then Some(k)
    else MismatchFrom(expected, actual, k + 1)
  }

  /** The scan finds the least index whose types differ, and finds none exactly when all agree. */
  lemma {:induction false} MismatchFromSpec(expected: seq<ValueType>, actual: seq<ValueType>, k: nat)
    requires |expected| == |actual| && k <= |expected|
    ensures var r := MismatchFrom(expected, actual, k);
      && (r.Some? ==> k <= r.value < |expected| && expected[r.value] != actual[r.value]
                      && forall j :: k <= j < r.value ==> expected[j] == actual[j])
      && (r.None? <==> forall j :: k <= j < |expected| ==> expected[j] == actual[j])
    decreases |expected| - k
  {
    if k < |expected| && expected[k] == actual[k] {
      MismatchFromSpec(expected, actual, k + 1);
    }
  }

  function ReprTypes(rs: seq<BinaryRepr>): (r: seq<ValueType>)
    ensures |r| == |rs|
    ensures forall k :: 0 <= k < |rs| ==> r[k] == ReprType(rs[k])
  {
    seq(|rs|, k requires 0 <= k < |rs| => ReprType(rs[k]))
  }

  // ------------------------------------------------------------ the methods

  /** Writes one input's entries onto its feeds, as a zip. */
  method WriteZip<T>(feeds: array<Option<T>>, nodes: seq<Feed>, vs: seq<T>)
    requires NodesIn(nodes, feeds.Length)
    modifies feeds
    ensures feeds[..] == SetZip(old(feeds[..]), nodes, vs)
  {
    ghost var before := feeds[..];
    var j := 0;
    while j < |nodes| && j < |vs|
      invariant j <= |nodes| && j <= |vs|
      invariant feeds[..] == SetPairs(before, nodes[..j], vs[..j])
    {
      feeds[nodes[j].id] := Some(vs[j]);
      assert nodes[..j + 1][..j] == nodes[..j] && vs[..j + 1][..j] == vs[..j];
      j := j + 1;
    }
  }

  /**
   * The input loop shared by plaintext evaluation, the generator and the
   * evaluator: checks each input's type in order and writes its entries;
   * reports the first input of the wrong type.
   */
  method WriteInputs<T>(feeds: array<Option<T>>, inputs: seq<BinaryRepr>, actual: seq<ValueType>, vals: seq<seq<T>>)
    returns (m: Option<nat>)
    requires |inputs| == |actual| == |vals| && InputsIn(inputs, feeds.Length)
    modifies feeds
    ensures m == MismatchFrom(ReprTypes(inputs), actual, 0)
    ensures m.None? ==> feeds[..] == SetInputs(old(feeds[..]), inputs, vals)
  {
    ghost var f0 := feeds[..];
    var k := 0;
    while k < |inputs|
      invariant k <= |inputs|
      invariant MismatchFrom(ReprTypes(inputs), actual, 0) == MismatchFrom(ReprTypes(inputs), actual, k)
      invariant feeds[..] == SetInputs(f0, inputs[..k], vals[..k])
    {
      if ReprType(inputs[k]) != actual[k] {
        return Some(k);
      }
      WriteInput(feeds, f0, inputs, vals, k);
      k := k + 1;
    }
    assert inputs[..k] == inputs && vals[..k] == vals;
    return None;
  }

  /** Writes the entries of input `k`, the inputs before it being written already. */
  method WriteInput<T>(feeds: array<Option<T>>, ghost f0: seq<Option<T>>, inputs: seq<BinaryRepr>, vals: seq<seq<T>>, k: nat)
    requires |inputs| == |vals| && k < |inputs| && InputsIn(inputs, feeds.Length)
    requires feeds[..] == SetInputs(f0, inputs[..k], vals[..k])
    modifies feeds
    ensures feeds[..] == SetInputs(f0, inputs[..k + 1], vals[..k + 1])
  {
    SetInputsStep(f0, inputs, vals, k);
    WriteZip(feeds, ReprNodes(inputs[k]), vals[k]);
  }
}
