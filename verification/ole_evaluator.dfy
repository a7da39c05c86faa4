/**
 * The evaluator's side of oblivious linear evaluation built from a random
 * OLE: it masks its chosen factors with the random ones and turns the
 * provider's masked factors into its output share.
 */
module OleEvaluator {
  import opened Wrappers
  import opened PrimeField
  import opened OleProvider

  /** `vk[i] = bk[i] + bk'[i]`, refused when the two lists differ in length. */
  function CreateMask(p: Modulus, bkDash: seq<int>, bk: seq<int>): (r: Result<seq<int>, OleError>)
    ensures r.Err? <==> |bkDash| != |bk|
    ensures r.Ok? ==> |r.value| == |bk|
                      && forall i :: 0 <= i < |bk| ==> r.value[i] == (bk[i] + bkDash[i]) % p
  {
    if |bkDash| != |bk| then Err(LengthMismatch)
    else Ok(seq(|bk|, i requires 0 <= i < |bk| => Add(p, bk[i], bkDash[i])))
  }

  /** The evaluator's share of one element, computed as `y' + b·u`. */
  function OutputAt(p: Modulus, b: int, y: int, u: int): (r: int)
    ensures r == (y + b * u) % p
  {
    AddMul(p, y, b, u);
    Add(p, y, Mul(p, b, u))
  }

  /** `yk[i] = y'[i] + b[i]·u[i]`, refused unless all three lists have one length. */
  function GenerateOutput(p: Modulus, bk: seq<int>, ykDash: seq<int>, uk: seq<int>)
    : (r: Result<seq<int>, OleError>)
    ensures r.Err? <==> !(|bk| == |ykDash| == |uk|)
    ensures r.Ok? ==> |r.value| == |ykDash|
                      && forall i :: 0 <= i < |ykDash| ==> r.value[i] == (ykDash[i] + bk[i] * uk[i]) % p
  {
    if |bk| != |ykDash| || |ykDash| != |uk| then Err(LengthMismatch)
    else Ok(seq(|ykDash|, i requires 0 <= i < |ykDash| => OutputAt(p, bk[i], ykDash[i], uk[i])))
  }
}
