/**
 * The ideal correlated-OT functionality with random choice bits: for a
 * global Δ it hands the sender random blocks q and the receiver random bits
 * r with `t = q ⊕ Δ` where r is set and `t = q` elsewhere.  The pseudo-random
 * generator's output is passed in as the q's and r's of each extension.
 */
module IdealCot {
  import opened Blocks

  datatype CotMsgForSender = CotMsgForSender(qs: seq<Block>)
  datatype CotMsgForReceiver = CotMsgForReceiver(rs: seq<bool>, ts: seq<Block>)

  /** The correlation one extension produces. */
  function Correlate(delta: Block, qs: seq<Block>, rs: seq<bool>): (ts: seq<Block>)
    requires |qs| == |rs|
    ensures |ts| == |qs|
    ensures forall i :: 0 <= i < |qs| ==> (rs[i] ==> ts[i] == Xor(qs[i], delta)) && (!rs[i] ==> ts[i] == qs[i])
  {
    seq(|qs|, i requires 0 <= i < |qs| => if rs[i] then Xor(qs[i], delta) else qs[i])
  }

  /** The test-only relation check; zipping the three lists stops at the shortest. */
  function Check(delta: Block, sender: CotMsgForSender, receiver: CotMsgForReceiver): (ok: bool)
  {
    var n := Min(|sender.qs|, Min(|receiver.ts|, |receiver.rs|));
    forall i :: 0 <= i < n ==>
      if !receiver.rs[i] then sender.qs[i] == receiver.ts[i]
      else sender.qs[i] == Xor(receiver.ts[i], delta)
  }

  function Min(a: nat, b: nat): (m: nat)
    ensures m <= a && m <= b && (m == a || m == b)
  {
    if a <= b then a else b
  }

  /** The check accepts a pair of messages exactly when each zipped position is correlated. */
  lemma CheckMeansCorrelated(delta: Block, qs: seq<Block>, rs: seq<bool>, ts: seq<Block>)
    requires |qs| == |rs| == |ts|
    ensures Check(delta, CotMsgForSender(qs), CotMsgForReceiver(rs, ts)) <==> ts == Correlate(delta, qs, rs)
  {
    var c := Correlate(delta, qs, rs);
    if Check(delta, CotMsgForSender(qs), CotMsgForReceiver(rs, ts)) {
      forall i | 0 <= i < |qs|
        ensures ts[i] == c[i]
      {
        if rs[i] {
          XorCancel(ts[i], delta);
        }
      }
    } else if ts == c {
      var i :| 0 <= i < |qs| && !(if !rs[i] then qs[i] == ts[i] else qs[i] == Xor(ts[i], delta));
      XorCancel(qs[i], delta);
    }
  }

  class IdealCOT {
    var delta: Block
    var counter: nat

    constructor NewWithDelta(d: Block)
      ensures delta == d && counter == 0
    {
      delta := d;
      counter := 0;
    }

    function Delta(): (d: Block)
      reads this
      ensures d == delta
    {
      delta
    }

    /** Produces one correlated OT per random block and bit; Δ is unchanged. */
    method Extend(qs: seq<Block>, rs: seq<bool>) returns (sender: CotMsgForSender, receiver: CotMsgForReceiver)
      requires |qs| == |rs|
      modifies this
      ensures delta == old(delta) && counter == old(counter) + |qs|
      ensures sender.qs == qs && receiver.rs == rs && receiver.ts == Correlate(delta, qs, rs)
      ensures Check(delta, sender, receiver)
    {
      var ts := Correlate(delta, qs, rs);
      counter := counter + |qs|;
      sender := CotMsgForSender(qs);
      receiver := CotMsgForReceiver(rs, ts);
      CheckMeansCorrelated(delta, qs, rs, ts);
    }
  }
}
