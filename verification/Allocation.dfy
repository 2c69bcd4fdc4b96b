/** The power-of-two sizes of growable buffers (src/kallocation.c). A `uint32_t` is a
    natural number below 2^32. */
module Allocation {
  import opened Words

  const MAX_POWER: nat := 0x8000_0000
  const WORD: nat := 0x1_0000_0000

  /** Copies the highest set bit into every lower position. */
  function Smear(x: nat): nat {
    var x1 := Or(x, Shr(x, 1));
    var x2 := Or(x1, Shr(x1, 2));
    var x3 := Or(x2, Shr(x2, 4));
    var x4 := Or(x3, Shr(x3, 8));
    Or(x4, Shr(x4, 16))
  }

  function NextPowerOfTwoSize(x: nat): nat
    requires x < WORD
  {
    if x == 0 then 1 else (Smear(x - 1) + 1) % WORD
  }

  /** `n` is the least power of two that is at least `m`. */
  ghost predicate LeastPow2(n: nat, m: nat) {
    && (exists k: nat :: n == Pow2(k))
    && m <= n
    && forall k: nat :: m <= Pow2(k) ==> n <= Pow2(k)
  }

  lemma Pow2Of32()
    ensures Pow2(31) == MAX_POWER && Pow2(32) == WORD
  {
    assert Pow2(8) == 256;
    assert Pow2(16) == 65536;
    assert Pow2(24) == 0x100_0000;
  }

  // ----- smearing

  /** `x` fits in `k` bits and its highest `n` of them are ones. */
  predicate TopOnes(x: nat, k: nat, n: nat) {
    var m := if n <= k then n else k;
    x < Pow2(k) && Shr(x, k - m) == Pow2(m) - 1
  }

  lemma TopOnesHalf(x: nat, k: nat, n: nat)
    requires TopOnes(x, k, n) && k > 0
    ensures TopOnes(x / 2, k - 1, n)
  {}

  lemma TopOnesDouble(x: nat, k: nat, n: nat)
    requires k > 0 && TopOnes(x / 2, k - 1, n)
    requires k <= n ==> x % 2 == 1
    ensures TopOnes(x, k, n)
  {}

  /** When two runs of `n` ones cover all `k` bits, they cover the lowest one. */
  lemma LowBitSet(x: nat, k: nat, n: nat)
    requires TopOnes(x, k, n) && 0 < k <= 2 * n
    ensures x % 2 == 1 || Shr(x, n) % 2 == 1
  {
    if n < k {
      var down := 2 * n - k;
      calc {
        Shr(x, n);
        { ShrAdd(x, k - n, down); }
        Shr(Shr(x, k - n), down);
        Shr(Pow2(n) - 1, down);
        { ShrOnes(n, down); }
        Pow2(n - down) - 1;
      }
      OnesAreOdd(n - down);
    } else {
      assert x == Shr(x, 0);
      OnesAreOdd(k);
    }
  }

  lemma OnesAreOdd(k: nat)
    requires k > 0
    ensures (Pow2(k) - 1) % 2 == 1
  {}

  /** One line of the smearing doubles the run of ones below the highest bit. */
  lemma {:induction false} SmearStep(x: nat, k: nat, n: nat)
    requires TopOnes(x, k, n)
    ensures TopOnes(Or(x, Shr(x, n)), k, 2 * n)
  {
    if k == 0 {
      ShrZero(n);
    } else {
      ShrHalf(x, n);
      TopOnesHalf(x, k, n);
      SmearStep(x / 2, k - 1, n);
      if k <= 2 * n {
        LowBitSet(x, k, n);
      }
      TopOnesDouble(Or(x, Shr(x, n)), k, 2 * n);
    }
  }

  /** The number of bits up to and including the highest set bit. */
  lemma {:induction false} HighestBit(x: nat) returns (k: nat)
    ensures x < Pow2(k)
    ensures k > 0 ==> Pow2(k - 1) <= x
    ensures TopOnes(x, k, 1)
  {
    if x == 0 {
      k := 0;
    } else {
      var half := HighestBit(x / 2);
      k := half + 1;
      if half == 0 {
        assert x == 1;
      } else {
        assert Shr(x, k - 1) == Shr(x / 2, half - 1);
      }
    }
  }

  /** Smearing gives the all-ones word that ends at the highest set bit. */
  lemma SmearIsMask(x: nat, k: nat)
    requires TopOnes(x, k, 1) && k <= 32
    ensures Smear(x) == Pow2(k) - 1
  {
    SmearStep(x, k, 1);
    var x1 := Or(x, Shr(x, 1));
    SmearStep(x1, k, 2);
    var x2 := Or(x1, Shr(x1, 2));
    SmearStep(x2, k, 4);
    var x3 := Or(x2, Shr(x2, 4));
    SmearStep(x3, k, 8);
    var x4 := Or(x3, Shr(x3, 8));
    SmearStep(x4, k, 16);
    ShrAdd(Smear(x), 0, 0);
  }

  lemma BitLengthIsLeast(x: nat, k: nat)
    requires 0 < x <= Pow2(k) && (k > 0 ==> Pow2(k - 1) < x)
    ensures LeastPow2(Pow2(k), x)
  {
    forall j: nat | x <= Pow2(j)
      ensures Pow2(k) <= Pow2(j)
    {
      if j < k {
        Pow2Monotone(j, k - 1);
      } else {
        Pow2Monotone(k, j);
      }
    }
  }

  lemma SmearPlusOne(x: nat) returns (k: nat)
    requires 0 < x < WORD
    ensures k <= 32 && Smear(x - 1) + 1 == Pow2(k)
    ensures x <= Pow2(k) && (k > 0 ==> Pow2(k - 1) < x)
  {
    k := HighestBit(x - 1);
    if k > 32 {
      Pow2Of32();
      Pow2Monotone(32, k - 1);
    }
    SmearIsMask(x - 1, k);
  }

  lemma SizeFromMask(x: nat, n: nat)
    requires 0 < x < WORD && Smear(x - 1) + 1 == n
    ensures NextPowerOfTwoSize(x) == n % WORD
  {}

  lemma SizeIsPower(x: nat) returns (k: nat)
    requires 0 < x < WORD
    ensures k <= 32 && NextPowerOfTwoSize(x) == Pow2(k) % WORD
    ensures x <= Pow2(k) && (k > 0 ==> Pow2(k - 1) < x)
  {
    k := SmearPlusOne(x);
    SizeFromMask(x, Pow2(k));
  }

  lemma PowerInRange(x: nat, k: nat)
    requires k <= 32 && x <= Pow2(k) && (k > 0 ==> Pow2(k - 1) < x)
    ensures Pow2(k) == if x > MAX_POWER then WORD else Pow2(k) % WORD
    ensures x <= MAX_POWER ==> Pow2(k) <= MAX_POWER
  {
    Pow2Of32();
    if k < 32 {
      Pow2Monotone(k, 31);
    }
  }

  lemma SizeFits(x: nat) returns (k: nat)
    requires 0 < x <= MAX_POWER
    ensures NextPowerOfTwoSize(x) == Pow2(k) <= MAX_POWER
    ensures x <= Pow2(k) && (k > 0 ==> Pow2(k - 1) < x)
  {
    k := SizeIsPower(x);
    PowerInRange(x, k);
  }

  lemma SizeIsTight(x: nat)
    requires 0 < x <= MAX_POWER
    ensures x <= NextPowerOfTwoSize(x) < 2 * x
  {
    var k := SizeFits(x);
    assert k > 0 ==> Pow2(k) == 2 * Pow2(k - 1);
    assert Pow2(0) == 1;
  }

  lemma SizeIsBounded(x: nat)
    requires x < WORD
    ensures NextPowerOfTwoSize(x) <= MAX_POWER
  {
    if 0 < x <= MAX_POWER {
      var k := SizeFits(x);
    } else if x > MAX_POWER {
      SizeWraps(x);
    }
  }

  lemma SizeWraps(x: nat)
    requires MAX_POWER < x < WORD
    ensures NextPowerOfTwoSize(x) == 0
  {
    var k := SizeIsPower(x);
    PowerInRange(x, k);
  }

  /** The documented result holds exactly for arguments up to 2^31; above that the
      32-bit sum wraps round to zero. */
  lemma NextPowerOfTwoSizeIsLeast(x: nat)
    requires x < 0x1_0000_0000
    ensures LeastPow2(NextPowerOfTwoSize(x), x) <==> x <= 0x8000_0000
    ensures x > 0x8000_0000 ==> NextPowerOfTwoSize(x) == 0
  {
    if x == 0 {
      assert NextPowerOfTwoSize(x) == Pow2(0);
    } else if x <= MAX_POWER {
      var k := SizeFits(x);
      BitLengthIsLeast(x, k);
    } else {
      SizeWraps(x);
    }
  }

  /** The parameter is 32 bits wide, the byte count that `KArrayAddObject` passes is a
      `size_t`: the result holds all the bytes exactly as long as they are no more than
      2^31, and then it is less than twice too large. */
  lemma TruncatedSizeFits(bytes: nat, x: nat)
    requires 0 < bytes && x == bytes % WORD
    ensures bytes <= NextPowerOfTwoSize(x) <==> bytes <= MAX_POWER
    ensures bytes <= MAX_POWER ==> NextPowerOfTwoSize(x) < 2 * bytes
  {
    SizeIsBounded(x);
    if 0 < x <= MAX_POWER {
      SizeIsTight(x);
    }
    if bytes <= MAX_POWER {
      Untruncated(bytes);
    }
  }

  lemma Untruncated(x: nat)
    requires x < WORD
    ensures x % WORD == x
  {}
}
