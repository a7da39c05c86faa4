/**
 * The state logic of the DEAP (dual execution with asymmetric privacy)
 * protocol: the commitments and decommitments each party keeps until
 * finalization, the role guards of the proving operations, the operation
 * identifiers of a dual execution, the one-time finalization with the
 * follower's check of the leader's openings, and the recombination of
 * shared outputs.
 *
 * Garbling, evaluation, oblivious transfer and the channel are not
 * modelled: what they produce (an output digest, an equality check, a
 * message received) is a parameter, and the hash commitment is the
 * parameter `commit`, the commitment a decommitment opens.
 */
module Deap {
  import opened Wrappers
  import opened Ordering
  import CT = CircuitTypes

  datatype Role = Leader | Follower

  /** A hash, an equality check or a commitment: a byte string. */
  type Digest = seq<bv8>

  /** `Decommitment<T>`: the committed data and the nonce that opens the commitment. */
  datatype Decommitment = Decommitment(nonce: Digest, data: Digest)

  datatype FinalizationError =
    | AlreadyFinalized
    | InvalidEncoderSeed
    | CommitmentError
    | InvalidEqualityCheck
    | InvalidProof

  datatype DeapError =
    | RoleError(msg: string)
    | Finalization(err: FinalizationError)
    | VerificationError

  /** The protocol messages whose sending the model records. */
  datatype Message =
    | HashCommitment(commitment: Digest)
    | EncoderSeed(seed: seq<bv8>)
    | EqualityCheckDecommitments(openings: seq<Decommitment>)
    | ProofDecommitments(openings: seq<Decommitment>)

  // ---------------------------------------------------------------------
  // Operation identifiers
  // ---------------------------------------------------------------------

  /**
   * `execute`: the identifiers under which this party generates and
   * evaluates; the leader generates `{id}/0` and evaluates `{id}/1`, the
   * follower the other way round.
   */
  function ExecuteIds(id: string, role: Role): (r: (string, string))
    ensures r.0 != r.1
    ensures {r.0, r.1} == {id + "/0", id + "/1"}
  {
    assert (id + "/0")[|id| + 1] != (id + "/1")[|id| + 1];
    match role
    case Leader => (id + "/0", id + "/1")
    case Follower => (id + "/1", id + "/0")
  }

  /** What one party generates under an execution, the other evaluates. */
  lemma ExecuteIdsAgree(id: string)
    ensures ExecuteIds(id, Leader).0 == ExecuteIds(id, Follower).1
    ensures ExecuteIds(id, Leader).1 == ExecuteIds(id, Follower).0
  {
  }

  lemma SuffixCancel(a: string, b: string, s: string)
    requires a + s == b + s
    ensures a == b
  {
    assert a == (a + s)[..|a|];
    assert b == (b + s)[..|b|];
  }

  /**
   * Within one party, a generator identifier is never an evaluator
   * identifier, and distinct executions use distinct identifiers.
   */
  lemma ExecuteIdsDistinct(a: string, b: string, role: Role)
    ensures ExecuteIds(a, role).0 != ExecuteIds(b, role).1
    ensures a != b ==> ExecuteIds(a, role).0 != ExecuteIds(b, role).0
    ensures a != b ==> ExecuteIds(a, role).1 != ExecuteIds(b, role).1
  {
    var x, y := ExecuteIds(a, role), ExecuteIds(b, role);
    assert x.0[|x.0| - 1] != y.1[|y.1| - 1];
    if x.0 == y.0 {
      if role.Leader? { SuffixCancel(a, b, "/0"); } else { SuffixCancel(a, b, "/1"); }
    }
    if x.1 == y.1 {
      if role.Leader? { SuffixCancel(a, b, "/1"); } else { SuffixCancel(a, b, "/0"); }
    }
  }

  // ---------------------------------------------------------------------
  // Draining the stored maps
  // ---------------------------------------------------------------------

  /** Operation identifiers are ordered as strings. */
  function OpName(id: string): string {
    id
  }

  /** `xs` lists every entry of `m` exactly once. */
  ghost predicate Entries<X>(xs: seq<(string, X)>, m: map<string, X>) {
    DistinctNames(xs, OpName) &&
    (forall i :: 0 <= i < |xs| ==> xs[i].0 in m && m[xs[i].0] == xs[i].1) &&
    (forall k :: k in m ==> (k, m[k]) in xs)
  }

  lemma EntriesNames<X>(xs: seq<(string, X)>, m: map<string, X>)
    requires Entries(xs, m)
    ensures Names(xs, OpName) == m.Keys
  {
    forall k | k in m
      ensures k in Names(xs, OpName)
    {
      var i :| 0 <= i < |xs| && xs[i] == (k, m[k]);
    }
  }

  /** One listing of the entries of `m` (the order is immaterial): some entry last, after a listing of the others. */
  ghost function MapEntries<X>(m: map<string, X>): (xs: seq<(string, X)>)
    ensures m == map[] ==> xs == []
    ensures m != map[] ==>
              xs != [] && xs[|xs| - 1].0 in m &&
              xs == MapEntries(m - {xs[|xs| - 1].0}) + [(xs[|xs| - 1].0, m[xs[|xs| - 1].0])]
    decreases |m|
  {
    if m == map[] then []
    else
      var k :| k in m;
      MapEntries(m - {k}) + [(k, m[k])]
  }

  /** A listing of `m` without `k`, followed by the entry of `k`, lists `m`. */
  lemma EntriesSnoc<X>(rest: seq<(string, X)>, m: map<string, X>, k: string)
    requires k in m && Entries(rest, m - {k})
    ensures Entries(rest + [(k, m[k])], m)
  {
    var xs := rest + [(k, m[k])];
    forall i | 0 <= i < |rest|
      ensures xs[i] == rest[i] && rest[i].0 in m && rest[i].0 != k && m[rest[i].0] == rest[i].1
    {
    }
    forall i, j | 0 <= i < j < |xs|
      ensures OpName(xs[i].0) != OpName(xs[j].0)
    {
      if j == |rest| {
        assert xs[i].0 != k;
      }
    }
    forall k' | k' in m
      ensures (k', m[k']) in xs
    {
      if k' != k {
        assert (k', (m - {k})[k']) in rest;
      }
    }
  }

  lemma {:induction false} MapEntriesLists<X>(m: map<string, X>)
    ensures Entries(MapEntries(m), m)
    decreases |m|
  {
    if m != map[] {
      var xs := MapEntries(m);
      var k := xs[|xs| - 1].0;
      MapEntriesLists(m - {k});
      EntriesSnoc(MapEntries(m - {k}), m, k);
    }
  }

  /** Sorting a listing keeps it a listing. */
  lemma SortKeepsEntries<X>(xs: seq<(string, X)>, m: map<string, X>)
    requires Entries(xs, m)
    ensures Entries(SortBy(xs, OpName), m)
  {
    var r := SortBy(xs, OpName);
    PermutationKeepsDistinct(xs, r, OpName);
    forall i | 0 <= i < |r|
      ensures r[i].0 in m && m[r[i].0] == r[i].1
    {
      assert r[i] in multiset(r);
      var j :| 0 <= j < |xs| && xs[j] == r[i];
    }
    forall k | k in m
      ensures (k, m[k]) in r
    {
      assert (k, m[k]) in multiset(xs);
    }
  }

  /** The entries of `m` in ascending order of their identifiers. */
  ghost function SortedEntries<X>(m: map<string, X>): (xs: seq<(string, X)>)
    ensures Entries(xs, m) && SortedBy(xs, OpName)
  {
    MapEntriesLists(m);
    SortKeepsEntries(MapEntries(m), m);
    SortBy(MapEntries(m), OpName)
  }

  /**
   * A sorted listing of a map is unique: the order in which the map is
   * drained does not show in the finalized state.
   */
  lemma SortedListingUnique<X>(xs: seq<(string, X)>, m: map<string, X>)
    requires Entries(xs, m) && SortedBy(xs, OpName)
    ensures xs == SortedEntries(m)
  {
    var ys := SortedEntries(m);
    EntriesNames(xs, m);
    EntriesNames(ys, m);
    SortedKeysAlign(xs, ys, OpName);
    forall i | 0 <= i < |xs|
      ensures xs[i] == ys[i]
    {
      assert xs[i].0 == ys[i].0;
    }
  }

  /**
   * Two maps with the same identifiers, each sorted: the i-th entries
   * belong to the same operation, so pairing them by position (as the
   * follower's check does) pairs each decommitment with its commitment.
   */
  lemma SortedEntriesAlign<X, Y>(m: map<string, X>, n: map<string, Y>)
    requires m.Keys == n.Keys
    ensures |SortedEntries(m)| == |SortedEntries(n)|
    ensures forall i :: 0 <= i < |SortedEntries(m)| ==> SortedEntries(m)[i].0 == SortedEntries(n)[i].0
  {
    EntriesNames(SortedEntries(m), m);
    EntriesNames(SortedEntries(n), n);
    SortedKeysAlign(SortedEntries(m), SortedEntries(n), OpName);
  }

  /** `HashMap::drain().collect()`: the entries of `m` in an order of its choosing. */
  method Drain<X>(m: map<string, X>) returns (xs: seq<(string, X)>)
    ensures Entries(xs, m)
  {
    xs := [];
    var keys := m.Keys;
    while keys != {}
      invariant keys <= m.Keys
      invariant DistinctNames(xs, OpName)
      invariant forall i :: 0 <= i < |xs| ==> xs[i].0 in m && m[xs[i].0] == xs[i].1 && xs[i].0 !in keys
      invariant forall k :: k in m && k !in keys ==> (k, m[k]) in xs
      decreases keys
    {
      var k :| k in keys;
      xs := xs + [(k, m[k])];
      keys := keys - {k};
    }
  }

  /** The four lists `finalize_state` hands over, each sorted by operation identifier. */
  datatype FinalizedState = FinalizedState(
    eqDecommitments: seq<(string, Decommitment)>,
    eqCommitments: seq<(string, (Digest, Digest))>,
    proofDecommitments: seq<(string, Decommitment)>,
    proofCommitments: seq<(string, (Digest, Digest))>)

  /** The data of the decommitments, in order. */
  function Openings(xs: seq<(string, Decommitment)>): (r: seq<Decommitment>)
    ensures |r| == |xs| && forall i :: 0 <= i < |xs| ==> r[i] == xs[i].1
  {
    seq(|xs|, i requires 0 <= i < |xs| => xs[i].1)
  }

  // ---------------------------------------------------------------------
  // The follower's check of the leader's openings
  // ---------------------------------------------------------------------

  /**
   * Each opening opens the commitment stored at its position and reveals
   * the value expected there, and there is one opening per commitment.
   */
  predicate Opens(openings: seq<Decommitment>, stored: seq<(string, (Digest, Digest))>, commit: Decommitment -> Digest) {
    |openings| == |stored| &&
    forall i :: 0 <= i < |stored| ==> commit(openings[i]) == stored[i].1.1 && openings[i].data == stored[i].1.0
  }

  /**
   * The check as written: `zip` pairs openings with stored commitments and
   * stops at the shorter list.  A failed opening is a `CommitmentError`, a
   * revealed value other than the expected one is `mismatch`.
   */
  function ZipCheck(openings: seq<Decommitment>, stored: seq<(string, (Digest, Digest))>,
                    commit: Decommitment -> Digest, mismatch: FinalizationError): (r: Option<FinalizationError>)
    ensures r.Some? ==> r.value in {CommitmentError, mismatch}
    decreases |openings|
  {
    if openings == [] || stored == [] then None
    else if commit(openings[0]) != stored[0].1.1 then Some(CommitmentError)
    else if openings[0].data != stored[0].1.0 then Some(mismatch)
    else ZipCheck(openings[1..], stored[1..], commit, mismatch)
  }

  /**
   * With no openings at all the check as written passes, whatever was
   * committed: a leader who sends an empty list is never checked.
   */
  lemma ZipCheckSkipsMissing(stored: seq<(string, (Digest, Digest))>, commit: Decommitment -> Digest, mismatch: FinalizationError)
    requires stored != []
    ensures ZipCheck([], stored, commit, mismatch) == None
    ensures !Opens([], stored, commit)
  {
  }

  /** The check with the count of openings held to the count of commitments. */
  function OpeningsCheck(openings: seq<Decommitment>, stored: seq<(string, (Digest, Digest))>,
                         commit: Decommitment -> Digest, mismatch: FinalizationError): (r: Option<FinalizationError>)
    ensures r.Some? ==> r.value in {CommitmentError, mismatch}
  {
    if |openings| != |stored| then Some(mismatch) else ZipCheck(openings, stored, commit, mismatch)
  }

  lemma {:induction false} ZipCheckPasses(openings: seq<Decommitment>, stored: seq<(string, (Digest, Digest))>,
                                          commit: Decommitment -> Digest, mismatch: FinalizationError)
    requires |openings| == |stored|
    ensures ZipCheck(openings, stored, commit, mismatch) == None <==> Opens(openings, stored, commit)
    decreases |openings|
  {
    if openings != [] {
      ZipCheckPasses(openings[1..], stored[1..], commit, mismatch);
      if Opens(openings, stored, commit) {
        assert Opens(openings[1..], stored[1..], commit);
      }
      if Opens(openings[1..], stored[1..], commit) && commit(openings[0]) == stored[0].1.1 && openings[0].data == stored[0].1.0 {
        forall i | 0 < i < |stored|
          ensures commit(openings[i]) == stored[i].1.1 && openings[i].data == stored[i].1.0
        {
          assert openings[i] == openings[1..][i - 1] && stored[i] == stored[1..][i - 1];
        }
      }
    }
  }

  /** The corrected check passes exactly when every commitment is opened to its expected value. */
  lemma OpeningsCheckSound(openings: seq<Decommitment>, stored: seq<(string, (Digest, Digest))>,
                           commit: Decommitment -> Digest, mismatch: FinalizationError)
    ensures OpeningsCheck(openings, stored, commit, mismatch) == None <==> Opens(openings, stored, commit)
  {
    if |openings| == |stored| {
      ZipCheckPasses(openings, stored, commit, mismatch);
    }
  }

  /** The follower's loop over the openings, with the corrected count check. */
  method CheckEach(openings: seq<Decommitment>, stored: seq<(string, (Digest, Digest))>,
                   commit: Decommitment -> Digest, mismatch: FinalizationError) returns (r: Option<FinalizationError>)
    ensures r == OpeningsCheck(openings, stored, commit, mismatch)
  {
    if |openings| != |stored| {
      return Some(mismatch);
    }
    var i := 0;
    while i < |openings|
      invariant 0 <= i <= |openings|
      invariant ZipCheck(openings[i..], stored[i..], commit, mismatch) == OpeningsCheck(openings, stored, commit, mismatch)
    {
      if commit(openings[i]) != stored[i].1.1 {
        return Some(CommitmentError);
      }
      if openings[i].data != stored[i].1.0 {
        return Some(mismatch);
      }
      assert openings[i..][1..] == openings[i + 1..] && stored[i..][1..] == stored[i + 1..];
      i := i + 1;
    }
    return None;
  }

  /** The follower's verdict: the equality checks first, then the proofs. */
  function FollowerVerdict(eqOpenings: seq<Decommitment>, proofOpenings: seq<Decommitment>,
                           eqStored: seq<(string, (Digest, Digest))>, proofStored: seq<(string, (Digest, Digest))>,
                           commit: Decommitment -> Digest): (r: Option<FinalizationError>)
    ensures r.Some? ==> r.value in {CommitmentError, InvalidEqualityCheck, InvalidProof}
  {
    var e := OpeningsCheck(eqOpenings, eqStored, commit, InvalidEqualityCheck);
    if e.Some? then e else OpeningsCheck(proofOpenings, proofStored, commit, InvalidProof)
  }

  /**
   * The leader's openings of its decommitment maps and the follower's
   * commitment maps hold the same identifiers, and each decommitment opens
   * the commitment of its identifier to the expected value.
   */
  ghost predicate Matches(decs: map<string, Decommitment>, comms: map<string, (Digest, Digest)>, commit: Decommitment -> Digest) {
    decs.Keys == comms.Keys &&
    forall id :: id in decs ==> commit(decs[id]) == comms[id].1 && decs[id].data == comms[id].0
  }

  lemma MatchesOpens(decs: map<string, Decommitment>, comms: map<string, (Digest, Digest)>, commit: Decommitment -> Digest)
    requires Matches(decs, comms, commit)
    ensures Opens(Openings(SortedEntries(decs)), SortedEntries(comms), commit)
  {
    SortedEntriesAlign(decs, comms);
    var xs, ys := SortedEntries(decs), SortedEntries(comms);
    forall i | 0 <= i < |ys|
      ensures commit(xs[i].1) == ys[i].1.1 && xs[i].1.data == ys[i].1.0
    {
      assert xs[i].0 == ys[i].0;
    }
  }

  /**
   * An honest run passes the follower's check: when the leader's openings
   * match the follower's commitments identifier by identifier, the
   * position-wise check of the sorted lists finds no fault; and whenever
   * the check passes, every stored commitment was opened to its expected
   * value.
   */
  lemma HonestFinalizePasses(eqDecs: map<string, Decommitment>, eqComms: map<string, (Digest, Digest)>,
                             proofDecs: map<string, Decommitment>, proofComms: map<string, (Digest, Digest)>,
                             commit: Decommitment -> Digest)
    requires Matches(eqDecs, eqComms, commit) && Matches(proofDecs, proofComms, commit)
    ensures FollowerVerdict(Openings(SortedEntries(eqDecs)), Openings(SortedEntries(proofDecs)),
                            SortedEntries(eqComms), SortedEntries(proofComms), commit) == None
  {
    MatchesOpens(eqDecs, eqComms, commit);
    MatchesOpens(proofDecs, proofComms, commit);
    OpeningsCheckSound(Openings(SortedEntries(eqDecs)), SortedEntries(eqComms), commit, InvalidEqualityCheck);
    OpeningsCheckSound(Openings(SortedEntries(proofDecs)), SortedEntries(proofComms), commit, InvalidProof);
  }

  /** A passing verdict means both lists of openings open every stored commitment. */
  lemma VerdictPassedOpensAll(eqOpenings: seq<Decommitment>, proofOpenings: seq<Decommitment>,
                              eqStored: seq<(string, (Digest, Digest))>, proofStored: seq<(string, (Digest, Digest))>,
                              commit: Decommitment -> Digest)
    ensures FollowerVerdict(eqOpenings, proofOpenings, eqStored, proofStored, commit) == None <==>
            Opens(eqOpenings, eqStored, commit) && Opens(proofOpenings, proofStored, commit)
  {
    OpeningsCheckSound(eqOpenings, eqStored, commit, InvalidEqualityCheck);
    OpeningsCheckSound(proofOpenings, proofStored, commit, InvalidProof);
  }

  // ---------------------------------------------------------------------
  // The protocol state
  // ---------------------------------------------------------------------

  /** `State`: what each party keeps until finalization, by operation identifier. */
  class DeapState {
    /** Equality-check decommitments withheld by the leader. */
    var eqDecommitments: map<string, Decommitment>
    /** The follower's expected equality check and the leader's commitment to it. */
    var eqCommitments: map<string, (Digest, Digest)>
    /** Output-proof decommitments withheld by the leader. */
    var proofDecommitments: map<string, Decommitment>
    /** The follower's expected output digest and the leader's commitment to it. */
    var proofCommitments: map<string, (Digest, Digest)>

    constructor()
      ensures eqDecommitments == map[] && eqCommitments == map[]
      ensures proofDecommitments == map[] && proofCommitments == map[]
    {
      eqDecommitments := map[];
      eqCommitments := map[];
      proofDecommitments := map[];
      proofCommitments := map[];
    }

    /** `finalize_state`: empties the four maps and hands over their entries sorted by identifier. */
    method FinalizeState() returns (f: FinalizedState)
      modifies this
      ensures f == FinalizedState(SortedEntries(old(eqDecommitments)), SortedEntries(old(eqCommitments)),
                                  SortedEntries(old(proofDecommitments)), SortedEntries(old(proofCommitments)))
      ensures eqDecommitments == map[] && eqCommitments == map[]
      ensures proofDecommitments == map[] && proofCommitments == map[]
    {
      var ed := Drain(eqDecommitments);
      var ec := Drain(eqCommitments);
      var pd := Drain(proofDecommitments);
      var pc := Drain(proofCommitments);
      SortKeepsEntries(ed, eqDecommitments);
      SortKeepsEntries(ec, eqCommitments);
      SortKeepsEntries(pd, proofDecommitments);
      SortKeepsEntries(pc, proofCommitments);
      SortedListingUnique(SortBy(ed, OpName), eqDecommitments);
      SortedListingUnique(SortBy(ec, OpName), eqCommitments);
      SortedListingUnique(SortBy(pd, OpName), proofDecommitments);
      SortedListingUnique(SortBy(pc, OpName), proofCommitments);
      f := FinalizedState(SortBy(ed, OpName), SortBy(ec, OpName), SortBy(pd, OpName), SortBy(pc, OpName));
      eqDecommitments := map[];
      eqCommitments := map[];
      proofDecommitments := map[];
      proofCommitments := map[];
    }
  }

  /** `DEAP`: one party of the protocol. */
  class Deap {
    const role: Role
    /** The seed of this party's encoder, revealed to the leader at finalization. */
    const encoderSeed: seq<bv8>
    const state: DeapState
    var finalized: bool

    /** The leader only withholds decommitments, the follower only keeps commitments. */
    predicate Valid()
      reads this, state
    {
      (role.Leader? ==> state.eqCommitments == map[] && state.proofCommitments == map[]) &&
      (role.Follower? ==> state.eqDecommitments == map[] && state.proofDecommitments == map[])
    }

    /** `DEAP::new`. */
    constructor(role: Role, encoderSeed: seq<bv8>)
      ensures this.role == role && this.encoderSeed == encoderSeed && !finalized
      ensures fresh(state) && Valid()
      ensures state.eqDecommitments == map[] && state.eqCommitments == map[]
      ensures state.proofDecommitments == map[] && state.proofCommitments == map[]
    {
      this.role := role;
      this.encoderSeed := encoderSeed;
      this.state := new DeapState();
      this.finalized := false;
    }

    /**
     * `defer_prove`: only the leader proves.  It withholds the
     * decommitment of its output digest under `id` and sends the
     * commitment.
     */
    method DeferProve(id: string, outputDigest: Digest, nonce: Digest, commit: Decommitment -> Digest)
      returns (r: Result<Message, DeapError>)
      requires Valid()
      modifies state
      ensures Valid()
      ensures role.Follower? ==> r == Err(RoleError("DEAP follower can not act as the prover")) && unchanged(state)
      ensures role.Leader? ==>
                r == Ok(HashCommitment(commit(Decommitment(nonce, outputDigest)))) &&
                state.proofDecommitments == old(state.proofDecommitments)[id := Decommitment(nonce, outputDigest)] &&
                state.eqDecommitments == old(state.eqDecommitments) &&
                state.eqCommitments == old(state.eqCommitments) &&
                state.proofCommitments == old(state.proofCommitments)
    {
      if role.Follower? {
        return Err(RoleError("DEAP follower can not act as the prover"));
      }
      var d := Decommitment(nonce, outputDigest);
      state.proofDecommitments := state.proofDecommitments[id := d];
      r := Ok(HashCommitment(commit(d)));
    }

    /**
     * `defer_verify`: only the follower verifies.  It keeps the digest it
     * expects and the leader's commitment under `id`.
     */
    method DeferVerify(id: string, expectedDigest: Digest, commitment: Digest) returns (r: Result<(), DeapError>)
      requires Valid()
      modifies state
      ensures Valid()
      ensures role.Leader? ==> r == Err(RoleError("DEAP leader can not act as the verifier")) && unchanged(state)
      ensures role.Follower? ==>
                r == Ok(()) &&
                state.proofCommitments == old(state.proofCommitments)[id := (expectedDigest, commitment)] &&
                state.eqDecommitments == old(state.eqDecommitments) &&
                state.eqCommitments == old(state.eqCommitments) &&
                state.proofDecommitments == old(state.proofDecommitments)
    {
      if role.Leader? {
        return Err(RoleError("DEAP leader can not act as the verifier"));
      }
      state.proofCommitments := state.proofCommitments[id := (expectedDigest, commitment)];
      r := Ok(());
    }

    /**
     * The state part of `decode`: the leader withholds the decommitment of
     * its equality check and sends the commitment; the follower keeps the
     * equality check it expects with the leader's commitment.
     */
    method DeferEqualityCheck(id: string, check: Digest, nonce: Digest, commit: Decommitment -> Digest, peerCommitment: Digest)
      returns (sent: Option<Message>)
      requires Valid()
      modifies state
      ensures Valid()
      ensures state.proofDecommitments == old(state.proofDecommitments)
      ensures state.proofCommitments == old(state.proofCommitments)
      ensures role.Leader? ==>
                sent == Some(HashCommitment(commit(Decommitment(nonce, check)))) &&
                state.eqDecommitments == old(state.eqDecommitments)[id := Decommitment(nonce, check)] &&
                state.eqCommitments == old(state.eqCommitments)
      ensures role.Follower? ==>
                sent == None &&
                state.eqCommitments == old(state.eqCommitments)[id := (check, peerCommitment)] &&
                state.eqDecommitments == old(state.eqDecommitments)
    {
      if role.Leader? {
        var d := Decommitment(nonce, check);
        state.eqDecommitments := state.eqDecommitments[id := d];
        sent := Some(HashCommitment(commit(d)));
      } else {
        state.eqCommitments := state.eqCommitments[id := (check, peerCommitment)];
        sent := None;
      }
    }

    /**
     * `finalize`, at most once: the flag is set and the state drained
     * before anything else.  The leader takes the follower's encoder seed
     * (32 bytes), has its evaluator verify the follower's work
     * (`verified`) and reveals its openings in identifier order.  The
     * follower reveals its seed, then checks the leader's openings against
     * its commitments in identifier order.
     */
    method Finalize(commit: Decommitment -> Digest, peerSeed: seq<bv8>, verified: bool,
                    eqOpenings: seq<Decommitment>, proofOpenings: seq<Decommitment>)
      returns (r: Result<Option<seq<bv8>>, DeapError>, sent: seq<Message>)
      requires Valid()
      modifies this, state
      ensures Valid() && finalized
      ensures old(finalized) ==> r == Err(Finalization(AlreadyFinalized)) && sent == [] && unchanged(state)
      ensures !old(finalized) ==>
                state.eqDecommitments == map[] && state.eqCommitments == map[] &&
                state.proofDecommitments == map[] && state.proofCommitments == map[]
      ensures !old(finalized) && role.Leader? ==>
                if |peerSeed| != 32 then r == Err(Finalization(InvalidEncoderSeed)) && sent == []
                else if !verified then r == Err(VerificationError) && sent == []
                else r == Ok(Some(peerSeed)) &&
                     sent == [EqualityCheckDecommitments(Openings(SortedEntries(old(state.eqDecommitments)))),
                              ProofDecommitments(Openings(SortedEntries(old(state.proofDecommitments))))]
      ensures !old(finalized) && role.Follower? ==>
                sent == [EncoderSeed(encoderSeed)] &&
                var v := FollowerVerdict(eqOpenings, proofOpenings, SortedEntries(old(state.eqCommitments)),
                                         SortedEntries(old(state.proofCommitments)), commit);
                r == (if v.Some? then Err(Finalization(v.value)) else Ok(None))
    {
      if finalized {
        return Err(Finalization(AlreadyFinalized)), [];
      }
      finalized := true;
      var f := state.FinalizeState();
      if role.Leader? {
        if |peerSeed| != 32 {
          return Err(Finalization(InvalidEncoderSeed)), [];
        }
        if !verified {
          return Err(VerificationError), [];
        }
        sent := [EqualityCheckDecommitments(Openings(f.eqDecommitments)), ProofDecommitments(Openings(f.proofDecommitments))];
        r := Ok(Some(peerSeed));
      } else {
        sent := [EncoderSeed(encoderSeed)];
        var e := CheckEach(eqOpenings, f.eqCommitments, commit, InvalidEqualityCheck);
        if e.Some? {
          return Err(Finalization(e.value)), sent;
        }
        var p := CheckEach(proofOpenings, f.proofCommitments, commit, InvalidProof);
        if p.Some? {
          return Err(Finalization(p.value)), sent;
        }
        r := Ok(None);
      }
    }
  }

  // ---------------------------------------------------------------------
  // Shared and private decoding
  // ---------------------------------------------------------------------

  /** `^` on bit strings of equal length. */
  function XorBits(a: seq<bool>, b: seq<bool>): (r: seq<bool>)
    requires |a| == |b|
    ensures |r| == |a| && forall i :: 0 <= i < |r| ==> r[i] == (a[i] != b[i])
  {
    seq(|a|, i requires 0 <= i < |a| => a[i] != b[i])
  }

  /** Two values of the same type with the same bit layout. */
  predicate SameShape(a: CT.Value, b: CT.Value) {
    match a
    case PrimValue(p, xs) => b.PrimValue? && b.p == p && |b.bits| == |xs|
    case ArrayValue(e, xs) =>
      b.ArrayValue? && b.elem == e && |b.elems| == |xs| &&
      forall i :: 0 <= i < |xs| ==> |b.elems[i]| == |xs[i]|
  }

  /** For well-formed values, having the same shape is having the same type. */
  lemma SameShapeIsSameType(a: CT.Value, b: CT.Value)
    requires CT.ValueValid(a) && CT.ValueValid(b)
    ensures SameShape(a, b) <==> CT.ValueTypeOf(a) == CT.ValueTypeOf(b)
  {
  }

  /**
   * `^` on values: bitwise, element by element for arrays; values of
   * different types do not combine.
   */
  function XorValue(a: CT.Value, b: CT.Value): (r: Option<CT.Value>)
    ensures r.Some? <==> SameShape(a, b)
    ensures r.Some? ==> SameShape(a, r.value) && SameShape(r.value, a)
  {
    if !SameShape(a, b) then None
    else match a
      case PrimValue(p, xs) => Some(CT.PrimValue(p, XorBits(xs, b.bits)))
      case ArrayValue(e, xs) =>
        Some(CT.ArrayValue(e, seq(|xs|, i requires 0 <= i < |xs| => XorBits(xs[i], b.elems[i]))))
  }

  lemma XorBitsInverse(a: seq<bool>, b: seq<bool>)
    requires |a| == |b|
    ensures XorBits(XorBits(a, b), b) == a
  {
    assert forall i :: 0 <= i < |a| ==> XorBits(XorBits(a, b), b)[i] == a[i];
  }

  /**
   * Masking with a one-time pad and unmasking with it again gives back
   * the value: what `decode_private` returns is the plaintext.
   */
  lemma XorValueInverse(a: CT.Value, b: CT.Value)
    requires SameShape(a, b)
    ensures XorValue(a, b).Some? && XorValue(XorValue(a, b).value, b) == Some(a)
  {
    var m := XorValue(a, b).value;
    var back := XorValue(m, b).value;
    match a
    case PrimValue(p, xs) =>
      XorBitsInverse(xs, b.bits);
    case ArrayValue(e, xs) =>
      forall i | 0 <= i < |xs|
        ensures back.elems[i] == xs[i]
      {
        XorBitsInverse(xs[i], b.elems[i]);
      }
      assert back.elems == xs;
  }

  /** `decode_shared`: the leader removes its pad from the masked value, the follower keeps its pad as its share. */
  function SharedOutput(role: Role, masked: CT.Value, otp: CT.Value): Option<CT.Value> {
    match role
    case Leader => XorValue(masked, otp)
    case Follower => Some(otp)
  }

  /** The output of the shared one-time-pad circuit: the value under both parties' pads. */
  function MaskShared(v: CT.Value, otp0: CT.Value, otp1: CT.Value): Option<CT.Value> {
    match XorValue(v, otp0)
    case None => None
    case Some(t) => XorValue(t, otp1)
  }

  lemma XorBitsRecombine(v: seq<bool>, p: seq<bool>, q: seq<bool>)
    requires |v| == |p| == |q|
    ensures XorBits(XorBits(XorBits(XorBits(v, p), q), p), q) == v
  {
    assert forall i :: 0 <= i < |v| ==> XorBits(XorBits(XorBits(XorBits(v, p), q), p), q)[i] == v[i];
  }

  /**
   * The leader's pad is `otp_0`, the follower's `otp_1`; the two shares
   * `decode_shared` returns recombine by `^` into the plaintext.
   */
  lemma SharesRecombine(v: CT.Value, otp0: CT.Value, otp1: CT.Value)
    requires SameShape(v, otp0) && SameShape(v, otp1)
    ensures MaskShared(v, otp0, otp1).Some?
    ensures var masked := MaskShared(v, otp0, otp1).value;
            var l := SharedOutput(Leader, masked, otp0);
            var f := SharedOutput(Follower, masked, otp1);
            l.Some? && f.Some? && XorValue(l.value, f.value) == Some(v)
  {
    var t := XorValue(v, otp0).value;
    var masked := XorValue(t, otp1).value;
    var l := XorValue(masked, otp0).value;
    var back := XorValue(l, otp1).value;
    match v
    case PrimValue(p, xs) =>
      XorBitsRecombine(xs, otp0.bits, otp1.bits);
    case ArrayValue(e, xs) =>
      forall i | 0 <= i < |xs|
        ensures back.elems[i] == xs[i]
      {
        XorBitsRecombine(xs[i], otp0.elems[i], otp1.elems[i]);
      }
      assert back.elems == xs;
  }
}
