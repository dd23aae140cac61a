/** Powers of two and the integer part of the base-two logarithm. */
module Powers {

  function Pow2(k: nat): (p: nat)
    ensures p >= 1
  {
    if k == 0 then 1 else 2 * Pow2(k - 1)
  }

  /** The largest k with Pow2(k) <= n; see Log2Spec. */
  function Log2(n: nat): nat
    requires n >= 1
  {
    if n == 1 then 0 else 1 + Log2(n / 2)
  }

  lemma {:induction false} Log2Spec(n: nat, k: nat)
    requires n >= 1
    ensures Pow2(k) <= n <==> k <= Log2(n)
  {
    if n == 1 {
      if k > 0 {
        assert Pow2(k) == 2 * Pow2(k - 1);
      }
    } else if k > 0 {
      Log2Spec(n / 2, k - 1);
    }
  }

  lemma {:induction false} Log2Mono(m: nat, n: nat)
    requires 1 <= m <= n
    ensures Log2(m) <= Log2(n)
  {
    Log2Spec(m, Log2(m));
    Log2Spec(n, Log2(m));
  }

  lemma {:induction false} Pow2Mono(j: nat, k: nat)
    requires j <= k
    ensures Pow2(j) <= Pow2(k)
    ensures j < k ==> Pow2(j) < Pow2(k)
    decreases k
  {
    if j < k {
      Pow2Mono(j, k - 1);
    }
  }
}
