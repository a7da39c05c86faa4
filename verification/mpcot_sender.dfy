/**
 * The MPCOT sender for regular indices: the n positions are cut into t
 * intervals of `k = ceil(n/t)` positions, one single-point COT query per
 * interval, each padded to a power of two; the SPCOT outputs are then cut
 * back to the interval lengths and concatenated.
 *
 * The partition, the depths and the gathering of SPCOT outputs are shared
 * with the receiver, which performs the same steps.
 */
module MpcotSender {
  import opened Wrappers
  import opened Blocks
  import opened Arith

  datatype MpcotError = InvalidInput

  /** `k = (n + t - 1) / t`, the interval width. */
  function Interval(t: nat, n: nat): nat
    requires t >= 1
  {
    (n + t - 1) / t
  }

  /** The interval width is `ceil(n/t)`: t intervals cover n, t intervals one shorter do not. */
  lemma IntervalIsCeiling(t: nat, n: nat)
    requires t >= 1
    ensures Interval(t, n) * t >= n
    ensures Interval(t, n) >= 1 ==> (Interval(t, n) - 1) * t < n
    ensures 1 <= t <= n ==> Interval(t, n) >= 1
  {
    var y := n + t - 1;
    var q, r := y / t, y % t;
    assert y == q * t + r;
    assert q * t - t == (q - 1) * t;
    if 1 <= t <= n {
      MultipleBounds(t, q);
    }
  }

  /** c copies of k. */
  function Repeat(k: nat, c: nat): (s: seq<nat>)
    ensures |s| == c && forall i :: 0 <= i < c ==> s[i] == k
  {
    seq(c, _ => k)
  }

  function Sum(s: seq<nat>): nat
  {
    if |s| == 0 then 0 else Sum(s[..|s| - 1]) + s[|s| - 1]
  }

  lemma {:induction false} SumRepeat(k: nat, c: nat)
    ensures Sum(Repeat(k, c)) == c * k
  {
    if c > 0 {
      assert Repeat(k, c)[..c - 1] == Repeat(k, c - 1);
      SumRepeat(k, c - 1);
    }
  }

  /**
   * The interval lengths: t copies of k when t divides n, otherwise t-1
   * copies of k and a last interval of `n % k`, which must make the lengths
   * add up to n.
   */
  function QueryLengths(t: nat, n: nat): Result<seq<nat>, MpcotError>
    requires 1 <= t <= n
  {
    var k := Interval(t, n);
    if n % t == 0 then Ok(Repeat(k, t))
    else
      var tmp := Repeat(k, t - 1) + [n % k];
      if Sum(tmp) != n then Err(InvalidInput) else Ok(tmp)
  }

  /**
   * The lengths always succeed when t divides n, and otherwise exactly when
   * the last interval `n % k` completes n; on success they are t intervals,
   * all of width k but the last, which is at most k, adding up to n.
   */
  lemma QueryLengthsSpec(t: nat, n: nat)
    requires 1 <= t <= n
    ensures var k := Interval(t, n);
            QueryLengths(t, n).Ok? <==> n % t == 0 || (t - 1) * k + n % k == n
    ensures var k := Interval(t, n);
            var r := QueryLengths(t, n);
            r.Ok? ==> |r.value| == t && Sum(r.value) == n && r.value[t - 1] <= k &&
                      forall i :: 0 <= i < t - 1 ==> r.value[i] == k
  {
    var k := Interval(t, n);
    IntervalIsCeiling(t, n);
    if n % t == 0 {
      DividedLengths(t, n);
    } else {
      LastLength(t, n);
    }
  }

  lemma DividedLengths(t: nat, n: nat)
    requires 1 <= t <= n && n % t == 0
    ensures Sum(Repeat(Interval(t, n), t)) == n
  {
    var q := n / t;
    assert n == q * t;
    assert n + t - 1 == q * t + (t - 1);
    DivModUnique(n + t - 1, t, q, t - 1);
    SumRepeat(Interval(t, n), t);
  }

  lemma LastLength(t: nat, n: nat)
    requires 1 <= t && Interval(t, n) >= 1
    ensures var k := Interval(t, n);
            Sum(Repeat(k, t - 1) + [n % k]) == (t - 1) * k + n % k && n % k < k
  {
    var k := Interval(t, n);
    var tmp := Repeat(k, t - 1) + [n % k];
    assert tmp[..t - 1] == Repeat(k, t - 1);
    SumRepeat(k, t - 1);
  }

  /** The depth of the tree a query of length x is padded to: the least d with `2^d >= x`. */
  function CeilLog2(x: nat): (d: nat)
    ensures Pow2(d) >= x
    ensures d > 0 ==> Pow2(d - 1) < x
    decreases x
  {
    if x <= 1 then 0 else 1 + CeilLog2((x + 1) / 2)
  }

  /** The depths of the queries, one per length. */
  function Depths(lens: seq<nat>): (ds: seq<nat>)
    ensures |ds| == |lens|
    ensures forall i :: 0 <= i < |lens| ==> Pow2(ds[i]) >= lens[i] && (ds[i] > 0 ==> Pow2(ds[i] - 1) < lens[i])
  {
    seq(|lens|, i requires 0 <= i < |lens| => CeilLog2(lens[i]))
  }

  /** Computes the depth of every query, one after another. */
  method DepthsOf(lens: seq<nat>) returns (res: seq<nat>)
    ensures res == Depths(lens)
  {
    res := [];
    for i := 0 to |lens|
      invariant res == Depths(lens[..i])
    {
      assert lens[..i + 1] == lens[..i] + [lens[i]];
      res := res + [CeilLog2(lens[i])];
    }
    assert lens[..|lens|] == lens;
  }

  /** Every SPCOT output paired with a query has `2^depth` blocks; unpaired ones are not looked at. */
  predicate LengthsFit(st: seq<seq<Block>>, depths: seq<nat>)
  {
    forall i :: 0 <= i < |st| && i < |depths| ==> |st[i]| == Pow2(depths[i])
  }

  /** The number of (output, length) pairs the gathering walks through. */
  function Paired(st: seq<seq<Block>>, lens: seq<nat>): nat
  {
    if |st| < |lens| then |st| else |lens|
  }

  predicate LengthsWithin(st: seq<seq<Block>>, lens: seq<nat>)
  {
    forall i :: 0 <= i < |st| && i < |lens| ==> lens[i] <= |st[i]|
  }

  /** The first `lens[i]` blocks of each of the first c outputs, concatenated. */
  function Gather(st: seq<seq<Block>>, lens: seq<nat>, c: nat): (out: seq<Block>)
    requires c <= |st| && c <= |lens| && LengthsWithin(st, lens)
    ensures |out| == Sum(lens[..c])
  {
    if c == 0 then []
    else
      assert lens[..c][..c - 1] == lens[..c - 1];
      Gather(st, lens, c - 1) + st[c - 1][..lens[c - 1]]
  }

  /** Block j of query i sits at position `lens[0] + … + lens[i-1] + j` of the gathered output. */
  lemma {:induction false} GatherAt(st: seq<seq<Block>>, lens: seq<nat>, c: nat, i: nat, j: nat)
    requires c <= |st| && c <= |lens| && LengthsWithin(st, lens)
    requires i < c && j < lens[i]
    ensures Sum(lens[..i]) + j < |Gather(st, lens, c)|
    ensures Gather(st, lens, c)[Sum(lens[..i]) + j] == st[i][j]
  {
    assert lens[..c][..c - 1] == lens[..c - 1];
    if i < c - 1 {
      GatherAt(st, lens, c - 1, i, j);
    } else {
      assert |Gather(st, lens, c - 1)| == Sum(lens[..i]);
    }
  }

  /** Cuts each paired output to its query length and concatenates them. */
  method GatherOutputs(st: seq<seq<Block>>, lens: seq<nat>) returns (res: seq<Block>)
    requires LengthsWithin(st, lens)
    ensures res == Gather(st, lens, Paired(st, lens))
  {
    res := [];
    var i := 0;
    while i < |st| && i < |lens|
      invariant 0 <= i <= Paired(st, lens)
      invariant res == Gather(st, lens, i)
    {
      res := res + st[i][..lens[i]];
      i := i + 1;
    }
  }

  /**
   * When the lengths come from a successful partition of n and the SPCOT
   * outputs fit the depths, one output per query, the gathered output has
   * exactly n blocks.
   */
  lemma GatherCoversN(st: seq<seq<Block>>, t: nat, n: nat)
    requires 1 <= t <= n && QueryLengths(t, n).Ok?
    requires |st| == t && LengthsFit(st, Depths(QueryLengths(t, n).value))
    ensures LengthsWithin(st, QueryLengths(t, n).value)
    ensures |Gather(st, QueryLengths(t, n).value, t)| == n
  {
    var lens := QueryLengths(t, n).value;
    QueryLengthsSpec(t, n);
    assert lens[..t] == lens;
  }

  /** The sender in its extension state. */
  class Sender {
    var delta: Block
    var counter: nat
    var queriesLength: seq<nat>
    var queriesDepth: seq<nat>

    /** One depth per length, and every length fits the tree of its depth. */
    predicate Valid()
      reads this
    {
      |queriesLength| == |queriesDepth| &&
      forall i :: 0 <= i < |queriesLength| ==> queriesLength[i] <= Pow2(queriesDepth[i])
    }

    /** `setup`: the global secret, a zero counter and no pending queries. */
    constructor Setup(delta: Block)
      ensures this.delta == delta && counter == 0
      ensures queriesLength == [] && queriesDepth == [] && Valid()
    {
      this.delta := delta;
      counter := 0;
      queriesLength := [];
      queriesDepth := [];
    }

    /** `extend_pre(t, n)`: partitions n into t queries and returns their depths. */
    method ExtendPre(t: nat, n: nat) returns (r: Result<seq<nat>, MpcotError>)
      requires t >= 1
      modifies this
      ensures t > n ==> r == Err(InvalidInput) && unchanged(this)
      ensures t <= n && QueryLengths(t, n).Err? ==> r == Err(InvalidInput) && unchanged(this)
      ensures t <= n && QueryLengths(t, n).Ok? ==>
                queriesLength == QueryLengths(t, n).value && r == Ok(Depths(queriesLength)) &&
                queriesDepth == r.value && counter == old(counter) && delta == old(delta) && Valid()
    {
      if t > n {
        return Err(InvalidInput);
      }
      var lens := QueryLengths(t, n);
      if lens.Err? {
        return Err(InvalidInput);
      }
      queriesLength := lens.value;
      var res := DepthsOf(queriesLength);
      queriesDepth := res;
      return Ok(res);
    }

    /** `extend(st, n)`: checks the SPCOT output sizes, then gathers the outputs and clears the queries. */
    method Extend(st: seq<seq<Block>>, n: nat) returns (r: Result<seq<Block>, MpcotError>)
      requires Valid()
      modifies this
      ensures !LengthsFit(st, old(queriesDepth)) ==> r == Err(InvalidInput) && unchanged(this)
      ensures LengthsFit(st, old(queriesDepth)) ==>
                LengthsWithin(st, old(queriesLength)) &&
                r == Ok(Gather(st, old(queriesLength), Paired(st, old(queriesLength)))) &&
                counter == old(counter) + 1 && queriesLength == [] && queriesDepth == [] &&
                delta == old(delta) && Valid()
    {
      if !LengthsFit(st, queriesDepth) {
        return Err(InvalidInput);
      }
      var res := GatherOutputs(st, queriesLength);
      counter := counter + 1;
      queriesDepth := [];
      queriesLength := [];
      return Ok(res);
    }
  }
}
