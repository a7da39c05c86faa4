/**
 * The MPCOT receiver for regular indices: it uses the sender's partition of
 * the n positions into t intervals, requires its i-th point to lie in the
 * i-th interval, and asks the SPCOT for the point's offset inside it.
 */
module MpcotReceiver {
  import opened Wrappers
  import opened Blocks
  import opened Arith
  import opened MpcotSender

  /** Point i lies in the i-th interval `[i·k, (i+1)·k)`. */
  predicate InIntervals(alphas: seq<nat>, k: nat)
  {
    forall i :: 0 <= i < |alphas| ==> i * k <= alphas[i] < (i + 1) * k
  }

  /** The SPCOT queries: the depth of each interval with the point's offset `alpha mod k`. */
  function Queries(depths: seq<nat>, alphas: seq<nat>, k: nat): (qs: seq<(nat, nat)>)
    requires |depths| == |alphas| && k >= 1
    ensures |qs| == |alphas|
  {
    seq(|alphas|, i requires 0 <= i < |alphas| => (depths[i], alphas[i] % k))
  }

  /** An offset inside interval i is the distance of the point from the interval's start. */
  lemma OffsetInInterval(i: nat, k: nat, alpha: nat)
    requires k >= 1 && i * k <= alpha < (i + 1) * k
    ensures alpha % k == alpha - i * k && alpha == i * k + alpha % k
  {
    assert (i + 1) * k == i * k + k;
    DivModUnique(alpha, k, i, alpha - i * k);
  }

  /**
   * A point that lies in its interval and below n has an offset below the
   * interval's length, hence a leaf of the query's tree.
   */
  lemma QueryIndexInTree(alphas: seq<nat>, n: nat, i: nat)
    requires 1 <= |alphas| <= n && QueryLengths(|alphas|, n).Ok?
    requires InIntervals(alphas, Interval(|alphas|, n))
    requires i < |alphas| && alphas[i] < n
    ensures var lens := QueryLengths(|alphas|, n).value;
            alphas[i] % Interval(|alphas|, n) < lens[i] <= Pow2(Depths(lens)[i])
  {
    var t, k := |alphas|, Interval(|alphas|, n);
    var lens := QueryLengths(t, n).value;
    IntervalIsCeiling(t, n);
    QueryLengthsSpec(t, n);
    OffsetInInterval(i, k, alphas[i]);
    if i == t - 1 && n % t != 0 {
      assert lens[i] == n % k;
      assert (t - 1) * k + n % k == n;
    }
  }

  /** The receiver in its extension state. */
  class Receiver {
    var counter: nat
    var queriesLength: seq<nat>
    var queriesDepth: seq<nat>

    /** One depth per length, and every length fits the tree of its depth. */
    predicate Valid()
      reads this
    {
      |queriesLength| == |queriesDepth| &&
      forall i :: 0 <= i < |queriesLength| ==> queriesLength[i] <= Pow2(queriesDepth[i])
    }

    /** `setup`: a zero counter and no pending queries. */
    constructor Setup()
      ensures counter == 0 && queriesLength == [] && queriesDepth == [] && Valid()
    {
      counter := 0;
      queriesLength := [];
      queriesDepth := [];
    }

    /**
     * `extend_pre(alphas, n)`: partitions n as the sender does, records the
     * queries, checks every point against its interval and returns the
     * SPCOT queries.  The depths replace the previous ones.
     */
    method ExtendPre(alphas: seq<nat>, n: nat) returns (r: Result<seq<(nat, nat)>, MpcotError>)
      requires |alphas| >= 1
      modifies this
      ensures |alphas| > n ==> r == Err(InvalidInput) && unchanged(this)
      ensures |alphas| <= n && QueryLengths(|alphas|, n).Err? ==> r == Err(InvalidInput) && unchanged(this)
      ensures |alphas| <= n && QueryLengths(|alphas|, n).Ok? ==>
                queriesLength == QueryLengths(|alphas|, n).value && queriesDepth == Depths(queriesLength) &&
                counter == old(counter) && Valid() &&
                (r.Ok? <==> InIntervals(alphas, Interval(|alphas|, n))) &&
                (r.Ok? ==> r.value == Queries(queriesDepth, alphas, Interval(|alphas|, n))) &&
                (r.Err? ==> r.error == InvalidInput)
    {
      var t := |alphas|;
      if t > n {
        return Err(InvalidInput);
      }
      var k := Interval(t, n);
      var lens := QueryLengths(t, n);
      if lens.Err? {
        return Err(InvalidInput);
      }
      IntervalIsCeiling(t, n);
      queriesLength := lens.value;
      var ds := DepthsOf(queriesLength);
      queriesDepth := ds;
      if !InIntervals(alphas, k) {
        return Err(InvalidInput);
      }
      return Ok(Queries(ds, alphas, k));
    }

    /** `extend(rt, n)`: checks the SPCOT output sizes, then gathers the outputs and clears the queries. */
    method Extend(rt: seq<seq<Block>>, n: nat) returns (r: Result<seq<Block>, MpcotError>)
      requires Valid()
      modifies this
      ensures !LengthsFit(rt, old(queriesDepth)) ==> r == Err(InvalidInput) && unchanged(this)
      ensures LengthsFit(rt, old(queriesDepth)) ==>
                LengthsWithin(rt, old(queriesLength)) &&
                r == Ok(Gather(rt, old(queriesLength), Paired(rt, old(queriesLength)))) &&
                counter == old(counter) + 1 && queriesLength == [] && queriesDepth == [] && Valid()
    {
      if !LengthsFit(rt, queriesDepth) {
        return Err(InvalidInput);
      }
      var res := GatherOutputs(rt, queriesLength);
      counter := counter + 1;
      queriesDepth := [];
      queriesLength := [];
      return Ok(res);
    }
  }

  // The depth bookkeeping as written: new depths are pushed behind the old ones.

  /**
   * `extend_pre` as written on the recorded depths: the new depths are
   * appended to the previous ones, and the queries pair the points with the
   * front of that list.
   */
  function ExtendPreAsWritten(oldDepths: seq<nat>, alphas: seq<nat>, n: nat): (out: (Result<seq<(nat, nat)>, MpcotError>, seq<nat>))
    requires |alphas| >= 1
    ensures |alphas| <= n && QueryLengths(|alphas|, n).Ok? ==>
              out.1 == oldDepths + Depths(QueryLengths(|alphas|, n).value)
  {
    var t := |alphas|;
    if t > n then (Err(InvalidInput), oldDepths)
    else
      var k := Interval(t, n);
      match QueryLengths(t, n)
      case Err(_) => (Err(InvalidInput), oldDepths)
      case Ok(lens) =>
        IntervalIsCeiling(t, n);
        var ds := oldDepths + Depths(lens);
        if !InIntervals(alphas, k) then (Err(InvalidInput), ds)
        else (Ok(seq(t, i requires 0 <= i < t => (ds[i], alphas[i] % k))), ds)
  }

  /**
   * A rejected point leaves its depth behind: after `extend_pre([5], 4)`
   * fails, `extend_pre([0, 2], 4)` asks for a depth-2 tree for the first
   * interval, whose length is 2, while the depths it records are `[2, 1, 1]`
   * for two queries.  The corrected receiver asks for depth 1.
   */
  lemma StaleDepthAfterRejectedPoint()
    ensures var first := ExtendPreAsWritten([], [5], 4);
            var second := ExtendPreAsWritten(first.1, [0, 2], 4);
            first.0.Err? && second.0 == Ok([(2, 0), (1, 0)]) && second.1 == [2, 1, 1]
    ensures QueryLengths(2, 4) == Ok([2, 2]) && Queries(Depths([2, 2]), [0, 2], 2) == [(1, 0), (1, 0)]
  {
    RejectedPoint();
    StaleSecondCall();
    CorrectedSecondCall();
  }

  lemma RejectedPoint()
    ensures ExtendPreAsWritten([], [5], 4) == (Err(InvalidInput), [2])
  {
    assert Interval(1, 4) == 4;
    assert Repeat(4, 1) == [4];
    assert QueryLengths(1, 4) == Ok([4]);
    assert CeilLog2(4) == 2 by {
      assert CeilLog2(2) == 1;
    }
    assert Depths([4]) == [2];
    assert [] + [2] == [2];
    assert [5][0] == 5;
    assert !InIntervals([5], 4);
  }

  lemma TwoTwoLengths()
    ensures QueryLengths(2, 4) == Ok([2, 2]) && Depths([2, 2]) == [1, 1]
  {
    assert Interval(2, 4) == 2;
    assert Repeat(2, 2) == [2, 2];
    assert CeilLog2(2) == 1;
  }

  lemma StaleSecondCall()
    ensures ExtendPreAsWritten([2], [0, 2], 4) == (Ok([(2, 0), (1, 0)]), [2, 1, 1])
  {
    TwoTwoLengths();
    assert [2] + [1, 1] == [2, 1, 1];
    assert InIntervals([0, 2], 2);
    var out := ExtendPreAsWritten([2], [0, 2], 4);
    assert out.1 == [2, 1, 1];
    assert out.0.Ok? && |out.0.value| == 2;
    assert out.0.value[0] == (2, 0) && out.0.value[1] == (1, 0);
    assert out.0.value == [(2, 0), (1, 0)];
  }

  lemma CorrectedSecondCall()
    ensures QueryLengths(2, 4) == Ok([2, 2]) && Queries(Depths([2, 2]), [0, 2], 2) == [(1, 0), (1, 0)]
  {
    TwoTwoLengths();
  }
}
