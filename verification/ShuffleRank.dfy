/** The pseudo-random helpers of verifiable/verifiable.cu and its rank permutation.
    `Shuffled` states the permutation arithmetically; the method carries out the masked,
    wrapping 32-bit statements of the source and is proved to compute it. */
module ShuffleRank {
  import opened Arith
  import opened Bits

  // ---- hashing; Hashing shows that no word is lost

  const HASH_MUL_0: u64 := 0x9e37_79b9_7f4a_7c13
  const HASH_MUL_1: u64 := 0xc4ce_b9fe_1a85_ec53

  function Xor32(x: u32, y: u32): u32
  {
    Pow2Word();
    XorBound(x, y, 32);
    Xor(x, y)
  }

  function Xor64(x: u64, y: u64): u64
  {
    Pow2Word64();
    XorBound(x, y, 64);
    Xor(x, y)
  }

  function MixBits(x: u64): u64
  {
    var hi: u32 := (x / TWO_32 + 1) % TWO_32;
    var lo: u32 := Xor32(x % TWO_32, hi);
    var y: u64 := (hi * TWO_32 + lo) * HASH_MUL_0 % TWO_64;
    var hi': u32 := y / TWO_32;
    var lo': u32 := Xor32(y % TWO_32, Xor32(hi' * 0x1_0000 % TWO_32, hi' / 0x1_0000));
    hi' * TWO_32 + lo'
  }

  function HashOf(a: u64, b: u64): u64
  {
    var a1: u64 := (a + TWO_32 + b) % TWO_64;
    var a2: u64 := Xor64(a1, a1 / TWO_32) * HASH_MUL_0 % TWO_64;
    var a3: u64 := (a2 + Xor64(b / 0x1_0000, b * 0x1_0000_0000_0000 % TWO_64)) % TWO_64;
    Xor64(a3, a3 / TWO_32) * HASH_MUL_1 % TWO_64
  }

  /** The high word of a 32-bit product. */
  function Umul32Hi(a: u32, b: u32): nat { a * b / TWO_32 }

  /** The high word of a 64-bit product. */
  function Umul64Hi(a: u64, b: u64): nat { a * b / TWO_64 }

  lemma {:induction false} HighWordBelow(a: nat, b: nat, w: nat)
    requires a < w
    ensures 0 <= a * b / w
    ensures b > 0 ==> a * b / w < b
    ensures b == 0 ==> a * b / w == 0
  {
    if b > 0 {
      MulBelow(a, b, w);
      QuotientBelow(a * b, b, w);
    } else {
      assert a * b == 0;
    }
  }

  lemma {:induction false} MulBelow(a: nat, b: nat, w: nat)
    requires a < w && b > 0
    ensures 0 <= a * b < w * b
  {
  }

  lemma {:induction false} QuotientBelow(x: nat, b: nat, w: nat)
    requires w > 0 && x < w * b
    ensures 0 <= x / w < b
  {
  }

  lemma {:induction false} HighWordMono(a: nat, a': nat, b: nat, w: nat)
    requires a <= a' && w > 0
    ensures 0 <= a * b / w <= a' * b / w
  {
    MulMono(0, a, b);
    MulMono(a, a', b);
    QuotientBounds(a * b, w);
    QuotientBounds(a' * b, w);
    var q, q' := a * b / w, a' * b / w;
    assert (q' + 1) * w == q' * w + w;
    if q' < q {
      MulMono(q' + 1, q, w);
    }
  }

  /** Every d below b is the high word of some product: as long as b fits a word, no value is skipped. */
  lemma {:induction false} HighWordOnto(d: nat, b: nat, w: nat) returns (a: nat)
    requires d < b <= w
    ensures a < w && a * b / w == d
  {
    ProductNonNegative(d, w);
    var x := d * w + b - 1;
    QuotientBounds(x, b);
    a := x / b;
    var t := a * b - d * w;
    MulMono(d + 1, b, w);
    assert (d + 1) * w == d * w + w;
    if a >= w {
      MulMono(w, a, b);
      MulCommutes(w, b);
    }
    DivModOf(d, t, w);
  }

  // ---- the permutation

  /** The triangular number 0 + 1 + ... + x. */
  function Triangle(x: nat): nat { if x == 0 then 0 else x + Triangle(x - 1) }

  lemma {:induction false} TimesNonNegative(r: nat, mul: nat)
    ensures 0 <= Times(r, mul) == r * mul
  {
    TimesIsProduct(r, mul);
  }

  /** One shuffle of [0, 2^k): an odd multiplier and an offset, then triangular numbers. */
  function Scramble(r: nat, mul: nat, add: nat, k: nat): nat
  {
    TimesNonNegative(r, mul);
    Low(Triangle(Low(Times(r, mul) + add, k)), k)
  }

  /** The exponent of the largest power of two that is at most n. */
  function FloorLog2(n: nat): nat
    requires n > 0
  {
    BitLength(n) - 1
  }

  /** Scramble the bottom 2^k ranks and move them to the top, the others to the bottom. */
  function Rotated(rankN: nat, r: nat, mul: nat, add: nat, k: nat): nat
    requires Pow2(k) <= rankN
  {
    if r < Pow2(k) then Scramble(r, mul, add, k) + (rankN - Pow2(k)) else r - Pow2(k)
  }

  /** `a | 1`. */
  function MakeOdd(a: nat): nat { 2 * (a / 2) + 1 }

  function BottomScrambled(r: nat, mul: nat, add: nat, k: nat): nat
  {
    if r < Pow2(k) then Scramble(r, mul, add, k) else r
  }

  function Permuted(rankN: nat, rank: nat, a: nat, b: nat, k: nat): nat
    requires Pow2(k) <= rankN
  {
    BottomScrambled(Rotated(rankN, rank, MakeOdd(a), b, k), MakeOdd(b), a, k)
  }

  function Shuffled(rankN: nat, rank: nat, rng: u64): nat
    requires rankN > 0
  {
    BitLengthBounds(rankN);
    Permuted(rankN, rank, rng % TWO_32, rng / TWO_32, FloorLog2(rankN))
  }

  /** f(x) = x*a + b is one-to-one modulo 2^k when a is odd. */
  lemma {:induction false} AffineInjective(x: nat, y: nat, mul: nat, add: nat, k: nat)
    requires x < Pow2(k) && y < Pow2(k) && mul % 2 == 1
    requires Times(x, mul) >= 0 && Times(y, mul) >= 0
    requires Low(Times(x, mul) + add, k) == Low(Times(y, mul) + add, k)
    ensures x == y
  {
    SameLow(Times(x, mul) + add, Times(y, mul) + add, k);
    TimesMinus(x, y, mul);
    OddFactorCancels(x - y, mul, k);
  }

  lemma {:induction false} TimesMinus(x: int, y: int, c: nat)
    ensures Times(x - y, c) == Times(x, c) - Times(y, c)
  {
    if c > 0 {
      TimesMinus(x, y, c - 1);
    }
  }

  lemma {:induction false} OddFactorCancels(d: int, c: nat, k: nat)
    requires c % 2 == 1 && Divides2(k, Times(d, c))
    requires d < Pow2(k) && -d < Pow2(k)
    ensures d == 0
  {
    OddCancel(k, d, c);
    SmallMultiple(k, d);
  }

  lemma {:induction false} TriangleTwice(x: nat)
    ensures 2 * Triangle(x) == x * x + x
  {
    if x > 0 {
      TriangleTwice(x - 1);
      assert (x - 1) * (x - 1) == x * x - 2 * x + 1;
    }
  }

  lemma {:induction false} TriangleDifference(x: nat, y: nat)
    requires x >= y
    ensures Times(x - y, x + y + 1) == Times(x + y + 1, x - y) == 2 * (Triangle(x) - Triangle(y))
  {
    TriangleTwice(x);
    TriangleTwice(y);
    TimesIsProduct(x - y, x + y + 1);
    TimesIsProduct(x + y + 1, x - y);
    DifferenceOfSquares(x, y);
  }

  lemma {:induction false} DifferenceOfSquares(x: int, y: int)
    ensures (x - y) * (x + y + 1) == (x + y + 1) * (x - y) == x * x + x - (y * y + y)
  {
  }

  /** f(x) = (x*x + x)/2 is one-to-one modulo 2^k on [0, 2^k): the product (x-y)*(x+y+1) is
      divisible by 2^(k+1), and one of its factors is odd. */
  lemma {:induction false} TriangleInjective(x: nat, y: nat, k: nat)
    requires x < Pow2(k) && y < Pow2(k)
    requires Low(Triangle(x), k) == Low(Triangle(y), k)
    ensures x == y
  {
    if x < y {
      TriangleInjectiveOrdered(y, x, k);
    } else {
      TriangleInjectiveOrdered(x, y, k);
    }
  }

  lemma {:induction false} TriangleInjectiveOrdered(x: nat, y: nat, k: nat)
    requires y <= x < Pow2(k)
    requires Low(Triangle(x), k) == Low(Triangle(y), k)
    ensures x == y
  {
    hide Triangle, Times, Divides2, Low;
    SameLow(Triangle(x), Triangle(y), k);
    DoubledDivides(k, Triangle(x) - Triangle(y));
    TriangleDifference(x, y);
    OneOddFactor(x - y, x + y + 1, k);
  }

  lemma {:induction false} OneOddFactor(d: nat, s: nat, k: nat)
    requires (d + s) % 2 == 1 && d < Pow2(k) && 0 < s < Pow2(k + 1)
    requires Divides2(k + 1, Times(d, s)) && Divides2(k + 1, Times(s, d))
    ensures d == 0
  {
    if s % 2 == 1 {
      OddFactorCancels(d, s, k + 1);
    } else {
      OddFactorCancels(s, d, k + 1);
    }
  }

  lemma {:induction false} DoubledDivides(k: nat, t: int)
    requires Divides2(k, t)
    ensures Divides2(k + 1, 2 * t)
  {
    assert 2 * t / 2 == t;
  }

  lemma {:induction false} ScrambleInjective(x: nat, y: nat, mul: nat, add: nat, k: nat)
    requires x < Pow2(k) && y < Pow2(k) && mul % 2 == 1
    requires Scramble(x, mul, add, k) == Scramble(y, mul, add, k)
    ensures x == y
  {
    hide Low, Shr, Shl, Triangle, Times, Pow2;
    TimesNonNegative(x, mul);
    TimesNonNegative(y, mul);
    ShrLow(Times(x, mul) + add, k);
    ShrLow(Times(y, mul) + add, k);
    TriangleInjective(Low(Times(x, mul) + add, k), Low(Times(y, mul) + add, k), k);
    AffineInjective(x, y, mul, add, k);
  }

  lemma {:induction false} ScrambleBelow(x: nat, mul: nat, add: nat, k: nat)
    ensures Scramble(x, mul, add, k) < Pow2(k)
  {
    TimesNonNegative(x, mul);
    ShrLow(Triangle(Low(Times(x, mul) + add, k)), k);
  }

  /** The shuffled ranks stay inside [0, rankN). */
  lemma {:induction false} ShuffledInRange(rankN: nat, rank: nat, rng: u64)
    requires rank < rankN
    ensures Shuffled(rankN, rank, rng) < rankN
  {
    hide Permuted, BitLength, Pow2;
    BitLengthBounds(rankN);
    PermutedInRange(rankN, rank, rng % TWO_32, rng / TWO_32, FloorLog2(rankN));
  }

  lemma {:induction false} PermutedInRange(rankN: nat, rank: nat, a: nat, b: nat, k: nat)
    requires rank < rankN && Pow2(k) <= rankN
    ensures Permuted(rankN, rank, a, b, k) < rankN
  {
    ScrambleBelow(rank, MakeOdd(a), b, k);
    ScrambleBelow(Rotated(rankN, rank, MakeOdd(a), b, k), MakeOdd(b), a, k);
  }

  lemma {:induction false} RotatedInjective(rankN: nat, x: nat, y: nat, mul: nat, add: nat, k: nat)
    requires Pow2(k) <= rankN && x < rankN && y < rankN && mul % 2 == 1
    requires Rotated(rankN, x, mul, add, k) == Rotated(rankN, y, mul, add, k)
    ensures x == y
  {
    ScrambleBelow(x, mul, add, k);
    ScrambleBelow(y, mul, add, k);
    if x < Pow2(k) && y < Pow2(k) {
      ScrambleInjective(x, y, mul, add, k);
    }
  }

  lemma {:induction false} BottomInjective(x: nat, y: nat, mul: nat, add: nat, k: nat)
    requires mul % 2 == 1 && BottomScrambled(x, mul, add, k) == BottomScrambled(y, mul, add, k)
    ensures x == y
  {
    ScrambleBelow(x, mul, add, k);
    ScrambleBelow(y, mul, add, k);
    if x < Pow2(k) && y < Pow2(k) {
      ScrambleInjective(x, y, mul, add, k);
    }
  }

  lemma {:induction false} PermutedInjective(rankN: nat, x: nat, y: nat, a: nat, b: nat, k: nat)
    requires x < rankN && y < rankN && Pow2(k) <= rankN
    requires Permuted(rankN, x, a, b, k) == Permuted(rankN, y, a, b, k)
    ensures x == y
  {
    var ma, mb := MakeOdd(a), MakeOdd(b);
    BottomInjective(Rotated(rankN, x, ma, b, k), Rotated(rankN, y, ma, b, k), mb, a, k);
    RotatedInjective(rankN, x, y, ma, b, k);
  }

  /** Distinct ranks get distinct shuffled ranks, whatever the random word. */
  lemma {:induction false} ShuffledInjective(rankN: nat, x: nat, y: nat, rng: u64)
    requires x < rankN && y < rankN
    requires Shuffled(rankN, x, rng) == Shuffled(rankN, y, rng)
    ensures x == y
  {
    hide Permuted, BitLength, Pow2;
    BitLengthBounds(rankN);
    PermutedInjective(rankN, x, y, rng % TWO_32, rng / TWO_32, FloorLog2(rankN));
  }

  // ---- the masked 32-bit statements compute it

  lemma {:induction false} WrapThenMask(x: nat, k: nat)
    requires k <= 32
    ensures And(x % TWO_32, Pow2(k) - 1) == Low(x, k)
  {
    AndMask(x % TWO_32, k);
    WordLow(x);
    LowOfLow(x, k, 32);
  }

  lemma {:induction false} WrapHalfMask(r: u32, k: nat)
    requires k <= 31
    ensures And((r * r + r) % TWO_32 / 2, Pow2(k) - 1) == Low(Triangle(r), k)
  {
    hide Triangle, Low, And, Pow2, Shr;
    var t := Triangle(r);
    TriangleTwice(r);
    WordLow(2 * t);
    LowDoubled(t, 31);
    AndMask(Low(t, 31), k);
    LowOfLow(t, k, 31);
  }

  lemma {:induction false} LowDoubled(x: nat, k: nat)
    ensures Low(2 * x, k + 1) == 2 * Low(x, k)
  {
  }

  /** Wrapping an intermediate sum does not change the wrapped result. */
  lemma {:induction false} WrapInside(x: nat, z: nat)
    ensures (x % TWO_32 + z) % TWO_32 == (x + z) % TWO_32
  {
  }

  lemma {:induction false} AllOnesShift(k: nat, z: nat)
    ensures Shr(Pow2(k + z) - 1, z) == Pow2(k) - 1
  {
    if z > 0 {
      assert (Pow2(k + z) - 1) / 2 == Pow2(k + z - 1) - 1;
      AllOnesShift(k, z - 1);
    }
  }

  /** `(~0u >> 1) >> clz32(n)` is one less than the largest power of two in n. */
  lemma {:induction false} MaskOfLeadingZeros(n: u32)
    requires 0 < n < 0x8000_0000
    ensures FloorLog2(n) <= 30
    ensures Shr(0x7fff_ffff, Clz32(n)) == Pow2(FloorLog2(n)) - 1
  {
    Pow2Word();
    BitLengthLe(n, 31);
    BitLengthBounds(n);
    AllOnesShift(FloorLog2(n), 32 - BitLength(n));
  }

  function Clz32(x: u32): nat
  {
    Pow2Word();
    BitLengthLe(x, 32);
    32 - BitLength(x)
  }

  method Shuffle(rankN: u32, rankMe: int, rng: u64) returns (r: u32, rng': u64)
    requires 0 < rankN < 0x8000_0000
    ensures r == Shuffled(rankN, rankMe % TWO_32, rng)
    ensures rng' == MixBits(rng)
  {
    hide MixBits, Permuted, BitLength, Pow2, Shr;
    var a: u32 := rng % TWO_32;
    var b: u32 := rng / TWO_32;
    rng' := MixBits(rng);

    MaskOfLeadingZeros(rankN);
    BitLengthBounds(rankN);
    var n2 := Shr(0x7fff_ffff, Clz32(rankN));
    r := Permute(rankN, rankMe % TWO_32, a, b, n2, FloorLog2(rankN));
  }

  method Permute(rankN: u32, r0: u32, a: u32, b: u32, n2: u32, ghost k: nat) returns (r: u32)
    requires k <= 30 && n2 == Pow2(k) - 1 < rankN < 0x8000_0000
    ensures r == Permuted(rankN, r0, a, b, k)
  {
    hide Scramble, Pow2, MakeOdd;
    r := r0;
    if r <= n2 {
      r := MaskedScramble(r, SetBit0(a), b, n2, k);
      r := r + (rankN - (n2 + 1));
    } else {
      r := r - (n2 + 1);
    }

    if r <= n2 {
      r := MaskedScramble(r, SetBit0(b), a, n2, k);
    }
  }

  function SetBit0(a: u32): (c: u32)
    ensures c == MakeOdd(a)
  {
    OrOne(a);
    Or(a, 1)
  }

  lemma {:induction false} MaskedIsSmall(x: nat, n2: nat, k: nat)
    requires k <= 31 && n2 == Pow2(k) - 1
    ensures Low(x, k) <= n2 < TWO_32
  {
    ShrLow(x, k);
    Pow2Mono(k, 31);
    Pow2Word();
  }

  /** `r = (r*mul + add) & n2; r = (r*r + r)/2 & n2;` on wrapping 32-bit words. */
  method MaskedScramble(r0: u32, mul: u32, add: u32, n2: u32, ghost k: nat) returns (r: u32)
    requires k <= 31 && n2 == Pow2(k) - 1
    ensures r == Scramble(r0, mul, add, k) <= n2
  {
    r := MaskedAffine(r0, mul, add, n2, k);
    WrapInside(r * r, r);
    WrapHalfMask(r, k);
    MaskedIsSmall(Triangle(r), n2, k);
    r := And(((r * r) % TWO_32 + r) % TWO_32 / 2, n2);
  }

  method MaskedAffine(r0: u32, mul: u32, add: u32, n2: u32, ghost k: nat) returns (r: u32)
    requires k <= 31 && n2 == Pow2(k) - 1
    ensures Times(r0, mul) >= 0
    ensures r == Low(Times(r0, mul) + add, k) <= n2
  {
    TimesNonNegative(r0, mul);
    WrapInside(r0 * mul, add);
    WrapThenMask(r0 * mul + add, k);
    MaskedIsSmall(r0 * mul + add, n2, k);
    r := And(((r0 * mul) % TWO_32 + add) % TWO_32, n2);
  }
}
