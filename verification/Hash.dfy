/** 64-bit FNV-1a and the string hash built on it (src/khash.c, src/kstring.c). A
    `uint64_t` is a natural number below 2^64. */
module Hash {
  import opened Words

  const WORD: nat := 0x1_0000_0000_0000_0000
  const OFFSET_BASIS: nat := 14695981039346656037
  const FNV_PRIME: nat := 1099511628211
  const STRING_SEED: nat := 31

  type Word = x: nat | x < WORD
  type Byte = x: nat | x < 256

  function Multiply(x: Word, y: Word): Word {
    x * y % WORD
  }

  lemma WordIsPow2()
    ensures Pow2(64) == WORD
  {
    assert Pow2(8) == 256;
    assert Pow2(16) == 65536;
    assert Pow2(24) == 0x100_0000;
    assert Pow2(32) == 0x1_0000_0000;
    assert Pow2(40) == 0x100_0000_0000;
    assert Pow2(48) == 0x1_0000_0000_0000;
    assert Pow2(56) == 0x100_0000_0000_0000;
  }

  function XorWord(x: Word, y: Word): Word {
    WordIsPow2();
    XorFits(x, y, 64);
    Xor(x, y)
  }

  function Step(hash: Word, byte: Byte): Word {
    Multiply(XorWord(hash, byte), FNV_PRIME)
  }

  /** FNV-1a of `data` continued from `hash`. */
  function Fnv1a(hash: Word, data: seq<Byte>): Word
    decreases |data|
  {
    if data == [] then hash else Fnv1a(Step(hash, data[0]), data[1..])
  }

  method Create(data: seq<Byte>) returns (hash: Word)
    ensures hash == Fnv1a(OFFSET_BASIS, data)
  {
    hash := OFFSET_BASIS;
    var i := 0;
    while i < |data|
      invariant 0 <= i <= |data|
      invariant Fnv1a(hash, data[i..]) == Fnv1a(OFFSET_BASIS, data)
    {
      assert data[i..][1..] == data[i + 1..];
      hash := XorWord(hash, data[i]);
      hash := Multiply(hash, FNV_PRIME);
      i := i + 1;
    }
  }

  function Combine(a: Word, b: Word): Word {
    XorWord(a, (b + 0x9e3779b9 + a * 64 % WORD + Shr(a, 2)) % WORD)
  }

  /** `KStringGetHash` of a string that is not NULL. */
  function StringHash(data: seq<Byte>): Word {
    Combine(Fnv1a(OFFSET_BASIS, data), STRING_SEED)
  }

  /** The hash read from the last byte: each byte is combined with the state and the state
      multiplied by the prime, in the order of the buffer, from the offset basis on. */
  lemma {:induction false} Fnv1aOfLast(hash: Word, data: seq<Byte>, last: Byte)
    ensures Fnv1a(hash, data + [last]) == Xor(Fnv1a(hash, data), last) * 1099511628211 % 0x1_0000_0000_0000_0000
    ensures Fnv1a(OFFSET_BASIS, []) == 14695981039346656037
    decreases |data|
  {
    var all := data + [last];
    if data == [] {
      assert all[1..] == [];
    } else {
      assert all[1..] == data[1..] + [last];
      Fnv1aOfLast(Step(hash, data[0]), data[1..], last);
    }
  }

  /** What was combined with `a` can be read off the result, modulo 2^64. */
  lemma CombineMeans(a: Word, b: Word)
    ensures (Xor(a, Combine(a, b)) - b - 0x9e3779b9 - 64 * a - a / 4) % 0x1_0000_0000_0000_0000 == 0
  {
    var sum := b + 0x9e3779b9 + a * 64 % WORD + Shr(a, 2);
    XorTwice(a, sum % WORD);
    assert Shr(a, 2) == Shr(a / 2, 1) == Shr(a / 2 / 2, 0) == a / 4;
    var wraps, carry := sum / WORD, a * 64 / WORD;
    assert sum % WORD == sum - WORD * wraps && a * 64 % WORD == 64 * a - WORD * carry;
    MultipleOfWord(-wraps - carry);
  }

  lemma MultipleOfWord(z: int)
    ensures (WORD * z) % WORD == 0
  {}

  /** The hash of a string combines the hash of its bytes with 31. */
  lemma StringHashMeans(data: seq<Byte>)
    ensures var h := Fnv1a(14695981039346656037, data);
            (Xor(h, StringHash(data)) - 31 - 0x9e3779b9 - 64 * h - h / 4) % 0x1_0000_0000_0000_0000 == 0
  {
    CombineMeans(Fnv1a(OFFSET_BASIS, data), STRING_SEED);
  }

  // ----- one step is a bijection of the 64-bit state

  /** The inverse of the prime modulo 2^64. */
  const FNV_PRIME_INVERSE: nat := 0xce965057aff6957b

  lemma RemainderOfSum(x: Word, z: int)
    ensures (x + WORD * z) % WORD == x
  {}

  lemma Unmultiply(x: Word, p: Word, q: Word)
    requires p * q % WORD == 1
    ensures Multiply(Multiply(x, p), q) == x
  {
    var carry, wraps := x * p / WORD, p * q / WORD;
    assert p * q == 1 + WORD * wraps;
    calc {
      Multiply(x, p) * q;
      (x * p - WORD * carry) * q;
      x * (p * q) - WORD * (carry * q);
      x * (1 + WORD * wraps) - WORD * (carry * q);
      x + WORD * (x * wraps - carry * q);
    }
    RemainderOfSum(x, x * wraps - carry * q);
  }

  function Unstep(hash: Word, byte: Byte): Word {
    XorWord(Multiply(hash, FNV_PRIME_INVERSE), byte)
  }

  lemma StepIsBijective(hash: Word, byte: Byte)
    ensures Unstep(Step(hash, byte), byte) == hash
    ensures Step(Unstep(hash, byte), byte) == hash
  {
    Unmultiply(XorWord(hash, byte), FNV_PRIME, FNV_PRIME_INVERSE);
    XorTwice(hash, byte);
    XorTwice(Multiply(hash, FNV_PRIME_INVERSE), byte);
    Unmultiply(hash, FNV_PRIME_INVERSE, FNV_PRIME);
  }

  /** Different bytes take one state to different states. */
  lemma BytesSeparate(hash: Word, a: Byte, b: Byte)
    requires a != b
    ensures Step(hash, a) != Step(hash, b)
  {
    Unmultiply(XorWord(hash, a), FNV_PRIME, FNV_PRIME_INVERSE);
    Unmultiply(XorWord(hash, b), FNV_PRIME, FNV_PRIME_INVERSE);
    XorTwice(hash, a);
    XorTwice(hash, b);
  }

  lemma {:induction false} StatesStaySeparate(h: Word, k: Word, data: seq<Byte>)
    requires h != k
    ensures Fnv1a(h, data) != Fnv1a(k, data)
    decreases |data|
  {
    if data != [] {
      StepIsBijective(h, data[0]);
      StepIsBijective(k, data[0]);
      StatesStaySeparate(Step(h, data[0]), Step(k, data[0]), data[1..]);
    }
  }

  /** No collision on a change of one byte, for buffers of any length. */
  lemma {:induction false} OneByteChangeNeverCollides(hash: Word, data: seq<Byte>, i: nat, byte: Byte)
    requires i < |data| && data[i] != byte
    ensures Fnv1a(hash, data) != Fnv1a(hash, data[i := byte])
    decreases |data|
  {
    var changed := data[i := byte];
    if i == 0 {
      assert changed[1..] == data[1..];
      BytesSeparate(hash, data[0], byte);
      StatesStaySeparate(Step(hash, data[0]), Step(hash, byte), data[1..]);
    } else {
      assert changed[1..] == data[1..][i - 1 := byte];
      OneByteChangeNeverCollides(Step(hash, data[0]), data[1..], i - 1, byte);
    }
  }
}
