/**
 * The provider's side of oblivious linear evaluation built from a random
 * OLE: it masks its chosen factors with the random ones and turns the
 * evaluator's masked factors into its output share.
 */
module OleProvider {
  import opened Wrappers
  import opened PrimeField

  datatype OleError = LengthMismatch

  /** `uk[i] = ak[i] + ak'[i]`, refused when the two lists differ in length. */
  function CreateMask(p: Modulus, akDash: seq<int>, ak: seq<int>): (r: Result<seq<int>, OleError>)
    ensures r.Err? <==> |akDash| != |ak|
    ensures r.Ok? ==> |r.value| == |ak|
                      && forall i :: 0 <= i < |ak| ==> r.value[i] == (ak[i] + akDash[i]) % p
  {
    if |akDash| != |ak| then Err(LengthMismatch)
    else Ok(seq(|ak|, i requires 0 <= i < |ak| => Add(p, ak[i], akDash[i])))
  }

  /** The provider's share, computed as `-(-x' + (-a')·v)`. */
  function OutputAt(p: Modulus, a: int, x: int, v: int): (r: int)
    ensures r == (x + a * v) % p
  {
    NegNegSum(p, x, a, v);
    Neg(p, Add(p, Neg(p, x), Mul(p, Neg(p, a), v)))
  }

  /** `xk[i] = x'[i] + a'[i]·v[i]`, refused unless all three lists have one length. */
  function GenerateOutput(p: Modulus, akDash: seq<int>, xkDash: seq<int>, vk: seq<int>)
    : (r: Result<seq<int>, OleError>)
    ensures r.Err? <==> !(|akDash| == |xkDash| == |vk|)
    ensures r.Ok? ==> |r.value| == |xkDash|
                      && forall i :: 0 <= i < |xkDash| ==> r.value[i] == (xkDash[i] + akDash[i] * vk[i]) % p
  {
    if |akDash| != |xkDash| || |xkDash| != |vk| then Err(LengthMismatch)
    else Ok(seq(|xkDash|, i requires 0 <= i < |xkDash| => OutputAt(p, akDash[i], xkDash[i], vk[i])))
  }
}
