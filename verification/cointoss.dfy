/**
 * The two-party coin toss: the sender commits to its seeds, the receiver
 * reveals its seeds, the sender opens its commitments, and both parties
 * output the pairwise XOR of the two seed lists.  Each protocol state is a
 * value; each step consumes one state and returns the next.
 *
 * The hash commitment is a parameter `commit(nonce, data)`, and the random
 * nonce drawn for the i-th seed is the parameter `nonce(i)`.
 */
module Cointoss {
  import opened Wrappers
  import opened Blocks

  type Hash = seq<bv8>

  datatype Decommitment = Decommitment(nonce: Block, data: Block)

  datatype CointossError =
    | CommitmentError
    | CountMismatch(expected: nat, actual: nat)

  datatype SenderInitialized = SenderInitialized(seeds: seq<Block>)
  datatype SenderCommitted = SenderCommitted(seeds: seq<Block>, decommitments: seq<Decommitment>)
  datatype ReceiverInitialized = ReceiverInitialized(seeds: seq<Block>)
  datatype ReceiverReceived = ReceiverReceived(seeds: seq<Block>, commitments: seq<Hash>)

  datatype SenderCommitments = SenderCommitments(commitments: seq<Hash>)
  datatype SenderPayload = SenderPayload(decommitments: seq<Decommitment>)
  datatype ReceiverPayload = ReceiverPayload(seeds: seq<Block>)

  /** A decommitment opens a commitment when it hashes to it. */
  predicate Opens(commit: (Block, Block) -> Hash, d: Decommitment, c: Hash)
  {
    commit(d.nonce, d.data) == c
  }

  /** Pairwise XOR of two seed lists of the same length. */
  function XorAll(a: seq<Block>, b: seq<Block>): (r: seq<Block>)
    requires |a| == |b|
    ensures |r| == |a|
    ensures forall i :: 0 <= i < |a| ==> r[i] == Xor(a[i], b[i])
  {
    seq(|a|, i requires 0 <= i < |a| => Xor(a[i], b[i]))
  }

  /** XOR of seeds does not depend on which party's list comes first. */
  lemma XorAllComm(a: seq<Block>, b: seq<Block>)
    requires |a| == |b|
    ensures XorAll(a, b) == XorAll(b, a)
  {
    forall i | 0 <= i < |a|
      ensures XorAll(a, b)[i] == XorAll(b, a)[i]
    {
      XorComm(a[i], b[i]);
    }
  }

  /** The sender commits to every seed, one commitment per seed. */
  function Send(s: SenderInitialized, commit: (Block, Block) -> Hash, nonce: nat -> Block)
    : (r: (SenderCommitted, SenderCommitments))
    ensures r.0.seeds == s.seeds
    ensures |r.1.commitments| == |s.seeds| == |r.0.decommitments|
    ensures forall i :: 0 <= i < |s.seeds| ==>
              r.0.decommitments[i].data == s.seeds[i]
              && Opens(commit, r.0.decommitments[i], r.1.commitments[i])
  {
    var ds := seq(|s.seeds|, i requires 0 <= i < |s.seeds| => Decommitment(nonce(i), s.seeds[i]));
    var cs := seq(|s.seeds|, i requires 0 <= i < |s.seeds| => commit(ds[i].nonce, ds[i].data));
    (SenderCommitted(s.seeds, ds), SenderCommitments(cs))
  }

  /** The sender's output: its seeds XORed with the receiver's, plus its openings. */
  function SenderFinalize(s: SenderCommitted, p: ReceiverPayload)
    : (r: Result<(seq<Block>, SenderPayload), CointossError>)
    ensures |s.seeds| != |p.seeds| <==> r.Err?
    ensures r.Err? ==> r.error == CountMismatch(|s.seeds|, |p.seeds|)
    ensures r.Ok? ==> r.value.0 == XorAll(s.seeds, p.seeds)
                      && r.value.1.decommitments == s.decommitments
  {
    if |s.seeds| != |p.seeds| then Err(CountMismatch(|s.seeds|, |p.seeds|))
    else Ok((XorAll(s.seeds, p.seeds), SenderPayload(s.decommitments)))
  }

  /** The receiver keeps the commitments and reveals its seeds. */
  function Reveal(r: ReceiverInitialized, c: SenderCommitments)
    : (res: Result<(ReceiverReceived, ReceiverPayload), CointossError>)
    ensures |c.commitments| != |r.seeds| <==> res.Err?
    ensures res.Err? ==> res.error == CountMismatch(|c.commitments|, |r.seeds|)
    ensures res.Ok? ==> res.value.0 == ReceiverReceived(r.seeds, c.commitments)
                        && res.value.1.seeds == r.seeds
  {
    if |c.commitments| != |r.seeds| then Err(CountMismatch(|c.commitments|, |r.seeds|))
    else Ok((ReceiverReceived(r.seeds, c.commitments), ReceiverPayload(r.seeds)))
  }

  /** Opens the decommitments in order, stopping at the first that fails. */
  function OpenAll(commit: (Block, Block) -> Hash, ds: seq<Decommitment>, seeds: seq<Block>, cs: seq<Hash>)
    : (r: Result<seq<Block>, CointossError>)
    requires |ds| == |seeds| == |cs|
    ensures r.Err? <==> exists i :: 0 <= i < |ds| && !Opens(commit, ds[i], cs[i])
    ensures r.Err? ==> r.error == CommitmentError
    ensures r.Ok? ==> |r.value| == |ds|
                      && forall i :: 0 <= i < |ds| ==> r.value[i] == Xor(seeds[i], ds[i].data)
    decreases |ds|
  {
    if |ds| == 0 then Ok([])
    else if !Opens(commit, ds[0], cs[0]) then Err(CommitmentError)
    else
      match OpenAll(commit, ds[1..], seeds[1..], cs[1..])
      case Err(e) =>
        assert exists i :: 0 <= i < |ds| - 1 && !Opens(commit, ds[1..][i], cs[1..][i]);
        Err(e)
      case Ok(rest) =>
        assert forall i :: 1 <= i < |ds| ==> ds[i] == ds[1..][i - 1] && cs[i] == cs[1..][i - 1];
        Ok([Xor(seeds[0], ds[0].data)] + rest)
  }

  /** The receiver checks the counts, verifies every opening and XORs the seeds. */
  function ReceiverFinalize(commit: (Block, Block) -> Hash, r: ReceiverReceived, p: SenderPayload)
    : (res: Result<seq<Block>, CointossError>)
    ensures |p.decommitments| != |r.seeds| ==> res == Err(CountMismatch(|p.decommitments|, |r.seeds|))
    ensures |p.decommitments| == |r.seeds| && |r.commitments| != |r.seeds|
            ==> res == Err(CountMismatch(|r.commitments|, |r.seeds|))
    ensures res.Ok? <==> |p.decommitments| == |r.seeds| == |r.commitments|
                         && forall i :: 0 <= i < |r.seeds| ==> Opens(commit, p.decommitments[i], r.commitments[i])
    ensures res.Ok? ==> |res.value| == |r.seeds|
                        && forall i :: 0 <= i < |r.seeds| ==> res.value[i] == Xor(r.seeds[i], p.decommitments[i].data)
  {
    if |p.decommitments| != |r.seeds| then Err(CountMismatch(|p.decommitments|, |r.seeds|))
    else if |r.commitments| != |r.seeds| then Err(CountMismatch(|r.commitments|, |r.seeds|))
    else OpenAll(commit, p.decommitments, r.seeds, r.commitments)
  }

  /**
   * An honest run with the same number of seeds on both sides succeeds at
   * every step, and both parties output the same seeds: the pairwise XOR of
   * the sender's and the receiver's.
   */
  lemma HonestRunAgrees(commit: (Block, Block) -> Hash, nonce: nat -> Block,
                        senderSeeds: seq<Block>, receiverSeeds: seq<Block>)
    requires |senderSeeds| == |receiverSeeds|
    ensures var (sc, msg1) := Send(SenderInitialized(senderSeeds), commit, nonce);
            var rv := Reveal(ReceiverInitialized(receiverSeeds), msg1);
            rv.Ok?
            && var sf := SenderFinalize(sc, rv.value.1);
               sf.Ok?
               && var rf := ReceiverFinalize(commit, rv.value.0, sf.value.1);
                  rf.Ok? && rf.value == sf.value.0 == XorAll(senderSeeds, receiverSeeds)
  {
    var (sc, msg1) := Send(SenderInitialized(senderSeeds), commit, nonce);
    var rv := Reveal(ReceiverInitialized(receiverSeeds), msg1);
    var sf := SenderFinalize(sc, rv.value.1);
    var rf := ReceiverFinalize(commit, rv.value.0, sf.value.1);
    XorAllComm(senderSeeds, receiverSeeds);
    assert rf.value == XorAll(receiverSeeds, senderSeeds);
  }
}
