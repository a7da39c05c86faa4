/**
 * Correctness of oblivious linear evaluation from random OLE: when the
 * random OLE outputs satisfy `y' = a'·b' + x'`, the masked exchange gives
 * the provider x and the evaluator y with `y = a·b + x` for the chosen a, b.
 */
module OleRole {
  import opened Wrappers
  import opened PrimeField
  import Provider = OleProvider
  import Evaluator = OleEvaluator

  /** A random OLE correlation: `y'[i] = a'[i]·b'[i] + x'[i]` over the field. */
  predicate RandomOle(p: Modulus, akDash: seq<int>, bkDash: seq<int>, xkDash: seq<int>, ykDash: seq<int>)
  {
    |akDash| == |bkDash| == |xkDash| == |ykDash|
    && forall i :: 0 <= i < |akDash| ==> ykDash[i] == Add(p, Mul(p, akDash[i], bkDash[i]), xkDash[i])
  }

  /** The evaluator's share reduces to `a'·b' + x' + b·a + b·a'`. */
  lemma EvaluatorShare(p: Modulus, a: int, b: int, a': int, b': int, x': int)
    ensures (Add(p, Mul(p, a', b'), x') + b * ((a + a') % p)) % p
            == (a' * b' + x' + (b * a + b * a')) % p
  {
    var y' := Add(p, Mul(p, a', b'), x');
    var m := b * ((a + a') % p);
    ModAddLeft(p, a' * b', x');
    ModMulRight(p, b, a + a');
    Distrib(b, a, a');
    AddCong(p, y', m, b * a + b * a');
    ModAddLeft(p, a' * b' + x', b * a + b * a');
  }

  /** The provider's share reduces to `x' + a'·b + a'·b'`. */
  lemma ProviderShare(p: Modulus, b: int, a': int, b': int, x': int)
    ensures (x' + a' * ((b + b') % p)) % p == (x' + (a' * b + a' * b')) % p
  {
    ModMulRight(p, a', b + b');
    Distrib(a', b, b');
    AddCong(p, x', a' * ((b + b') % p), a' * b + a' * b');
  }

  /** One element of the protocol: both shares reduce to the same expression. */
  lemma ElementCorrect(p: Modulus, a: int, b: int, a': int, b': int, x': int)
    ensures var y' := Add(p, Mul(p, a', b'), x');
            var x := (x' + a' * ((b + b') % p)) % p;
            (y' + b * ((a + a') % p)) % p == (a * b + x) % p
  {
    var x := (x' + a' * ((b + b') % p)) % p;
    EvaluatorShare(p, a, b, a', b', x');
    ProviderShare(p, b, a', b', x');
    ModAddLeft(p, x' + (a' * b + a' * b'), a * b);
    assert (a * b + x) % p == (x + a * b) % p;
    assert b * a == a * b && b * a' == a' * b;
  }

  /**
   * Running both parties on a random OLE correlation of the right length
   * succeeds and yields shares with `y[i] = a[i]·b[i] + x[i]`.
   */
  lemma OleCorrect(p: Modulus, ak: seq<int>, bk: seq<int>,
                   akDash: seq<int>, bkDash: seq<int>, xkDash: seq<int>, ykDash: seq<int>)
    requires RandomOle(p, akDash, bkDash, xkDash, ykDash)
    requires |ak| == |bk| == |akDash|
    ensures var uk := Provider.CreateMask(p, akDash, ak);
            var vk := Evaluator.CreateMask(p, bkDash, bk);
            uk.Ok? && vk.Ok?
            && var xk := Provider.GenerateOutput(p, akDash, xkDash, vk.value);
               var yk := Evaluator.GenerateOutput(p, bk, ykDash, uk.value);
               xk.Ok? && yk.Ok? && |yk.value| == |xk.value| == |ak|
               && forall i :: 0 <= i < |ak| ==> yk.value[i] == Add(p, Mul(p, ak[i], bk[i]), xk.value[i])
  {
    var uk := Provider.CreateMask(p, akDash, ak).value;
    var vk := Evaluator.CreateMask(p, bkDash, bk).value;
    var xk := Provider.GenerateOutput(p, akDash, xkDash, vk).value;
    var yk := Evaluator.GenerateOutput(p, bk, ykDash, uk).value;
    forall i | 0 <= i < |ak|
      ensures yk[i] == Add(p, Mul(p, ak[i], bk[i]), xk[i])
    {
      ElementCorrect(p, ak[i], bk[i], akDash[i], bkDash[i], xkDash[i]);
      ModAddLeft(p, ak[i] * bk[i], xk[i]);
    }
  }
}
