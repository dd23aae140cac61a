/** Bitwise operations on naturals, as far as the page allocators use them. */
module Bits {
  import opened Powers

  function Xor(a: nat, b: nat): nat
    decreases a + b
  {
    if a == 0 && b == 0 then 0 else (a + b) % 2 + 2 * Xor(a / 2, b / 2)
  }

  function And(a: nat, b: nat): nat {
    if a == 0 then 0 else (a % 2) * (b % 2) + 2 * And(a / 2, b / 2)
  }

  function Bit(a: nat, k: nat): (b: nat)
    ensures b <= 1
  {
    if k == 0 then a % 2 else Bit(a / 2, k - 1)
  }

  /** x is a multiple of Pow2(k). */
  predicate Aligned(x: nat, k: nat) {
    k == 0 || (x % 2 == 0 && Aligned(x / 2, k - 1))
  }

  /** a with its bit k inverted. */
  function Flip(a: nat, k: nat): int {
    if Bit(a, k) == 0 then a + Pow2(k) else a - Pow2(k)
  }

  lemma {:induction false} BitBound(a: nat, k: nat)
    requires Bit(a, k) == 1
    ensures a >= Pow2(k)
  {
    if k > 0 { BitBound(a / 2, k - 1); }
  }

  lemma {:induction false} XorZero(a: nat)
    ensures Xor(a, 0) == a
  {
    if a > 0 { XorZero(a / 2); }
  }

  lemma {:induction false} XorFlips(a: nat, k: nat)
    ensures Xor(a, Pow2(k)) == Flip(a, k)
  {
    var p := Pow2(k);
    assert Xor(a, p) == (a + p) % 2 + 2 * Xor(a / 2, p / 2);
    if k == 0 {
      XorZero(a / 2);
    } else {
      assert p / 2 == Pow2(k - 1) && (a + p) % 2 == a % 2;
      XorFlips(a / 2, k - 1);
    }
  }

  lemma {:induction false} XorShift(a: nat, b: nat, s: nat)
    ensures Xor(a * Pow2(s), b * Pow2(s)) == Xor(a, b) * Pow2(s)
  {
    if s > 0 {
      XorShift(a, b, s - 1);
      XorDouble(a * Pow2(s - 1), b * Pow2(s - 1));
      TimesPow2(a, s);
      TimesPow2(b, s);
      TimesPow2(Xor(a, b), s);
    }
  }

  lemma {:induction false} XorDouble(a: nat, b: nat)
    ensures Xor(2 * a, 2 * b) == 2 * Xor(a, b)
  {
    if a != 0 || b != 0 {
      assert (2 * a + 2 * b) % 2 == 0 && 2 * a / 2 == a && 2 * b / 2 == b;
    }
  }

  lemma {:induction false} TimesPow2(a: nat, s: nat)
    requires s > 0
    ensures a * Pow2(s) == 2 * (a * Pow2(s - 1))
  {
    assert Pow2(s) == 2 * Pow2(s - 1);
  }

  lemma {:induction false} BitAdd(a: nat, m: nat, k: nat)
    requires k < m
    ensures Bit(a + Pow2(m), k) == Bit(a, k)
  {
    if k > 0 {
      BitAdd(a / 2, m - 1, k - 1);
      assert (a + Pow2(m)) / 2 == a / 2 + Pow2(m - 1);
    }
  }

  lemma {:induction false} FlipFlip(a: nat, k: nat)
    ensures Flip(a, k) >= 0 && Bit(Flip(a, k), k) == 1 - Bit(a, k)
    ensures Flip(Flip(a, k), k) == a
  {
    if Bit(a, k) == 1 { BitBound(a, k); }
    BitOfFlip(a, k);
  }

  lemma {:induction false} BitOfFlip(a: nat, k: nat)
    requires Flip(a, k) >= 0
    ensures Bit(Flip(a, k), k) == 1 - Bit(a, k)
  {
    if k > 0 {
      if Bit(a, k) == 1 { BitBound(a / 2, k - 1); }
      BitOfFlip(a / 2, k - 1);
      assert Flip(a, k) / 2 == Flip(a / 2, k - 1);
    }
  }

  /** The test n & (n - 1) recognises the powers of two. */
  lemma {:induction false} PowerOfTwoTest(n: nat)
    requires n >= 1
    ensures And(n, n - 1) == 0 <==> n == Pow2(Log2(n))
  {
    if n % 2 == 0 {
      PowerOfTwoTest(n / 2);
      assert (n - 1) / 2 == n / 2 - 1;
    } else if n > 1 {
      AndSelf(n / 2);
      assert (n - 1) / 2 == n / 2;
      assert Pow2(Log2(n)) % 2 == 0;
    }
  }

  lemma {:induction false} AndSelf(a: nat)
    ensures And(a, a) == a
  {
    if a > 0 { AndSelf(a / 2); }
  }

  lemma {:induction false} Log2Pow2(k: nat)
    ensures Log2(Pow2(k)) == k
  {
    if k > 0 { Log2Pow2(k - 1); }
  }

  // ---------- Multiples of powers of two ----------

  lemma {:induction false} AlignedMod(x: nat, k: nat)
    ensures Aligned(x, k) <==> x % Pow2(k) == 0
  {
    if k > 0 {
      AlignedMod(x / 2, k - 1);
      HalfMod(x, Pow2(k - 1));
    }
  }

  lemma {:induction false} HalfMod(x: nat, h: nat)
    requires h > 0
    ensures x % (2 * h) == 0 <==> x % 2 == 0 && x / 2 % h == 0
  {
    if x % (2 * h) == 0 {
      var q := x / (2 * h);
      assert x == 2 * (h * q);
      assert x / 2 == h * q;
      Euclid(x / 2, h, q, 0);
    } else if x % 2 == 0 && x / 2 % h == 0 {
      var q := x / 2 / h;
      assert x == 2 * (h * q) == (2 * h) * q;
      Euclid(x, 2 * h, q, 0);
    }
  }

  lemma {:induction false} Euclid(x: nat, m: nat, q: nat, r: nat)
    requires m > 0 && x == m * q + r && r < m
    ensures x % m == r
  {
    var d := x / m - q;
    assert m * d == m * (x / m) - m * q == r - x % m;
    if d != 0 { Multiple(m, d); }
  }

  lemma {:induction false} Multiple(m: nat, d: int)
    requires d != 0
    ensures m * d >= m || m * d <= -(m as int)
  {
  }

  lemma {:induction false} AlignedGap(x: nat, y: nat, k: nat)
    requires Aligned(x, k) && Aligned(y, k) && x < y
    ensures x + Pow2(k) <= y
  {
    if k > 0 { AlignedGap(x / 2, y / 2, k - 1); }
  }

  lemma {:induction false} AlignedDown(x: nat, k: nat, j: nat)
    requires Aligned(x, k) && j <= k
    ensures Aligned(x, j)
  {
    if j > 0 { AlignedDown(x / 2, k - 1, j - 1); }
  }

  lemma {:induction false} AlignedSum(x: nat, y: nat, k: nat)
    requires Aligned(x, k) && Aligned(y, k)
    ensures Aligned(x + y, k) && (x >= y ==> Aligned(x - y, k))
  {
    if k > 0 {
      AlignedSum(x / 2, y / 2, k - 1);
      assert (x + y) / 2 == x / 2 + y / 2;
      if x >= y { assert (x - y) / 2 == x / 2 - y / 2; }
    }
  }

  lemma {:induction false} AlignedPow2(j: nat, k: nat)
    requires k <= j
    ensures Aligned(Pow2(j), k)
  {
    if k > 0 { AlignedPow2(j - 1, k - 1); }
  }

  /** Among the multiples of Pow2(k), bit k tells those of Pow2(k + 1). */
  lemma {:induction false} AlignedBit(x: nat, k: nat)
    ensures Aligned(x, k + 1) <==> Aligned(x, k) && Bit(x, k) == 0
  {
    if k > 0 { AlignedBit(x / 2, k - 1); }
  }
}
