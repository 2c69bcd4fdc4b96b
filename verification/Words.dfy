/** Fixed-width unsigned words as natural numbers: shifting and the bitwise operators are
    written out, wrap-around is an explicit remainder. */
module Words {

  function Pow2(k: nat): (p: nat)
    ensures p > 0
  {
    if k == 0 then 1 else 2 * Pow2(k - 1)
  }

  /** `n` doubled `k` times. */
  function Doubled(n: nat, k: nat): nat {
    if k == 0 then n else 2 * Doubled(n, k - 1)
  }

  /** `x >> n` */
  function Shr(x: nat, n: nat): nat {
    if n == 0 then x else Shr(x / 2, n - 1)
  }

  /** `x | y` */
  function Or(x: nat, y: nat): nat {
    if x == 0 && y == 0 then 0
    else 2 * Or(x / 2, y / 2) + (if x % 2 == 1 || y % 2 == 1 then 1 else 0)
  }

  /** `x ^ y` */
  function Xor(x: nat, y: nat): nat {
    if x == 0 && y == 0 then 0
    else 2 * Xor(x / 2, y / 2) + (if x % 2 != y % 2 then 1 else 0)
  }

  predicate Bit(x: nat, i: nat) {
    Shr(x, i) % 2 == 1
  }

  lemma OrOfHalves(x: nat, y: nat)
    ensures Or(x, y) / 2 == Or(x / 2, y / 2)
    ensures Or(x, y) % 2 == if x % 2 == 1 || y % 2 == 1 then 1 else 0
  {}

  lemma {:induction false} OrIsBitwise(x: nat, y: nat, i: nat)
    ensures Bit(Or(x, y), i) <==> Bit(x, i) || Bit(y, i)
  {
    OrOfHalves(x, y);
    if i > 0 {
      OrIsBitwise(x / 2, y / 2, i - 1);
    }
  }

  lemma {:induction false} XorIsBitwise(x: nat, y: nat, i: nat)
    ensures Bit(Xor(x, y), i) <==> Bit(x, i) != Bit(y, i)
  {
    if i > 0 {
      XorIsBitwise(x / 2, y / 2, i - 1);
    }
  }

  lemma {:induction false} XorTwice(x: nat, y: nat)
    ensures Xor(Xor(x, y), y) == x && Xor(x, Xor(x, y)) == y
  {
    if x > 0 || y > 0 {
      XorTwice(x / 2, y / 2);
    }
  }

  lemma {:induction false} XorFits(x: nat, y: nat, k: nat)
    requires x < Pow2(k) && y < Pow2(k)
    ensures Xor(x, y) < Pow2(k)
  {
    if x > 0 || y > 0 {
      XorFits(x / 2, y / 2, k - 1);
    }
  }

  lemma {:induction false} DoubledIsProduct(n: nat, k: nat)
    ensures Doubled(n, k) == n * Pow2(k)
    ensures n <= Doubled(n, k)
  {
    if k > 0 {
      DoubledIsProduct(n, k - 1);
      assert 2 * (n * Pow2(k - 1)) == n * (2 * Pow2(k - 1));
    }
  }

  lemma {:induction false} DoubledTwice(n: nat, j: nat, k: nat)
    ensures Doubled(Doubled(n, j), k) == Doubled(n, j + k)
  {
    if k > 0 {
      DoubledTwice(n, j, k - 1);
    }
  }

  lemma {:induction false} ShrHalf(x: nat, n: nat)
    ensures Shr(x, n) / 2 == Shr(x / 2, n) == Shr(x, n + 1)
  {
    if n > 0 {
      ShrHalf(x / 2, n - 1);
    }
  }

  lemma {:induction false} ShrAdd(x: nat, m: nat, n: nat)
    ensures Shr(Shr(x, m), n) == Shr(x, m + n)
  {
    if m > 0 {
      ShrAdd(x / 2, m - 1, n);
    }
  }

  lemma {:induction false} ShrOnes(k: nat, n: nat)
    requires n <= k
    ensures Shr(Pow2(k) - 1, n) == Pow2(k - n) - 1
  {
    if n > 0 {
      ShrOnes(k - 1, n - 1);
    }
  }

  /** A shift is a division by a power of two. */
  lemma {:induction false} ShrIsQuotient(x: nat, n: nat)
    ensures Shr(x, n) * Pow2(n) <= x < (Shr(x, n) + 1) * Pow2(n)
  {
    if n > 0 {
      ShrIsQuotient(x / 2, n - 1);
      QuotientOfHalf(x, Shr(x, n), Pow2(n - 1));
    }
  }

  lemma QuotientOfHalf(x: nat, q: nat, p: nat)
    requires q * p <= x / 2 < (q + 1) * p
    ensures q * (2 * p) <= x < (q + 1) * (2 * p)
  {
    assert q * (2 * p) == 2 * (q * p);
    assert (q + 1) * (2 * p) == 2 * ((q + 1) * p);
  }

  lemma {:induction false} Pow2Monotone(j: nat, k: nat)
    requires j <= k
    ensures Pow2(j) <= Pow2(k)
  {
    if j < k {
      Pow2Monotone(j, k - 1);
    }
  }

  lemma {:induction false} ShrZero(n: nat)
    ensures Shr(0, n) == 0
  {
    if n > 0 {
      ShrZero(n - 1);
    }
  }
}
