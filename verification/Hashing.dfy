/** The hash and the generator step of verifiable/verifiable.cu lose nothing: each is a permutation
    of the 64-bit words, so every word, and with it every drawn sign, exponent and target, occurs. */
module Hashing {
  import opened Arith
  import opened Bits
  import opened ShuffleRank

  /** The inverses of the two odd multipliers modulo 2^64. */
  const UNDO_MUL_0: u64 := 0x3fbd_78d0_fbf0_ae1b
  const UNDO_MUL_1: u64 := 0x9cb4_b2f8_1293_37db

  lemma {:induction false} MultipliersInvert()
    ensures (HASH_MUL_0 * UNDO_MUL_0) % TWO_64 == 1 && (HASH_MUL_1 * UNDO_MUL_1) % TWO_64 == 1
  {
  }

  // Arithmetic on 64-bit words.

  function MulWord(x: u64, m: u64): u64
  {
    ProductNonNegative(x, m);
    (x * m) % TWO_64
  }

  function AddWord(x: u64, c: nat): u64 { (x + c) % TWO_64 }

  function SubWord(x: u64, c: nat): u64 { (x + TWO_64 - c % TWO_64) % TWO_64 }

  lemma {:induction false} ModShift64(x: int, q: int, r: nat)
    requires x == q * TWO_64 + r && r < TWO_64
    ensures x % TWO_64 == r
  {
  }

  /** Multiplying by m and then by its inverse gives the word back. */
  lemma {:induction false} MulUndone(x: u64, m: u64, inv: u64)
    requires (m * inv) % TWO_64 == 1
    ensures MulWord(MulWord(x, m), inv) == x
  {
    ProductNonNegative(x, m);
    ProductNonNegative(m, inv);
    var q, k := (x * m) / TWO_64, (m * inv) / TWO_64;
    var r := (x * m) % TWO_64;
    assert x * m == q * TWO_64 + r && m * inv == k * TWO_64 + 1;
    UndoProduct(x, m, inv, q, r, k, TWO_64);
    ModShift64(r * inv, x * k - q * inv, x);
  }

  lemma {:induction false} UndoProduct(x: int, m: int, inv: int, q: int, r: int, k: int, w: int)
    requires x * m == q * w + r && m * inv == k * w + 1
    ensures r * inv == (x * k - q * inv) * w + x
  {
    assert (x * m) * inv == x * (m * inv);
    assert (q * w + r) * inv == (q * inv) * w + r * inv;
    assert x * (k * w + 1) == (x * k) * w + x;
    assert (x * k - q * inv) * w == (x * k) * w - (q * inv) * w;
  }

  // ---- exclusive or

  lemma {:induction false} XorBack(x: nat, y: nat)
    ensures Xor(Xor(x, y), y) == x
    decreases x + y
  {
    if x + y > 0 {
      XorBack(x / 2, y / 2);
      XorStep(x, y);
      XorStep(Xor(x, y), y);
    }
  }

  lemma {:induction false} XorStep(x: nat, y: nat)
    ensures Xor(x, y) % 2 == (if x % 2 != y % 2 then 1 else 0) && Xor(x, y) / 2 == Xor(x / 2, y / 2)
  {
    hide Xor;
    XorUnfolded(x, y);
    XorUnfolded(0, 0);
    if x + y > 0 {
      BitAndHalf(if x % 2 != y % 2 then 1 else 0, Xor(x / 2, y / 2));
    }
  }

  lemma {:induction false} XorUnfolded(x: nat, y: nat)
    ensures Xor(x, y) == if x + y == 0 then 0 else (if x % 2 != y % 2 then 1 else 0) + 2 * Xor(x / 2, y / 2)
  {
  }

  lemma {:induction false} BitAndHalf(b: nat, h: nat)
    requires b < 2
    ensures (b + 2 * h) % 2 == b && (b + 2 * h) / 2 == h
  {
  }

  /** A short word only meets the low bits of a long one. */
  lemma {:induction false} XorLow(q: nat, r: nat, s: nat, k: nat)
    requires r < Pow2(k) && s < Pow2(k)
    ensures Shl(q, k) >= 0 && Xor(Shl(q, k) + r, s) == Shl(q, k) + Xor(r, s)
    decreases k
  {
    hide Xor;
    ShlMono(0, q, k);
    ShlOfZero(k);
    if k == 0 {
      XorStepZero(q);
    } else {
      XorLow(q, r / 2, s / 2, k - 1);
      XorStep(Shl(q, k) + r, s);
      XorStep(r, s);
      assert (Shl(q, k) + r) / 2 == Shl(q, k - 1) + r / 2 && (Shl(q, k) + r) % 2 == r % 2;
    }
  }

  lemma {:induction false} XorStepZero(x: nat)
    ensures Xor(x, 0) == x && Xor(0, 0) == 0
  {
    if x > 0 {
      XorStepZero(x / 2);
    }
  }

  /** `x ^= x >> 32` */
  function FoldHigh(x: u64): u64 { Xor64(x, x / TWO_32) }

  lemma {:induction false} FoldParts(hi: u32, lo: u32)
    ensures hi * TWO_32 + lo < TWO_64 && FoldHigh(hi * TWO_32 + lo) == hi * TWO_32 + Xor32(lo, hi)
  {
    hide Xor, Pow2, Shl;
    Pow2Word();
    XorLow(hi, lo, hi, 32);
    ShlProduct(hi, 32);
    assert (hi * TWO_32 + lo) / TWO_32 == hi;
  }

  /** Folding twice gives the word back. */
  lemma {:induction false} FoldTwice(x: u64)
    ensures FoldHigh(FoldHigh(x)) == x
  {
    hide FoldHigh, Xor;
    var hi: u32, lo: u32 := x / TWO_32, x % TWO_32;
    FoldParts(hi, lo);
    FoldParts(hi, Xor32(lo, hi));
    XorBack(lo, hi);
  }

  // ---- the hash

  function Added(b: u64): u64 { Xor64(b / 0x1_0000, b * 0x1_0000_0000_0000 % TWO_64) }

  lemma {:induction false} HashSteps(a: u64, b: u64)
    ensures var a2 := MulWord(FoldHigh(AddWord(a, TWO_32 + b)), HASH_MUL_0);
            HashOf(a, b) == MulWord(FoldHigh(AddWord(a2, Added(b))), HASH_MUL_1)
  {
    hide Xor;
  }

  /** The seed that a hash comes from. */
  function Unhash(h: u64, b: u64): u64
  {
    var a2 := SubWord(FoldHigh(MulWord(h, UNDO_MUL_1)), Added(b));
    SubWord(FoldHigh(MulWord(a2, UNDO_MUL_0)), TWO_32 + b)
  }

  lemma {:induction false} AddWordIs(x: u64, c: nat)
    ensures var d := c % TWO_64; AddWord(x, c) == if x + d < TWO_64 then x + d else x + d - TWO_64
  {
    var k, d := c / TWO_64, c % TWO_64;
    if x + d < TWO_64 {
      ModShift64(x + c, k, x + d);
    } else {
      ModShift64(x + c, k + 1, x + d - TWO_64);
    }
  }

  lemma {:induction false} SubWordIs(x: u64, c: nat)
    ensures var d := c % TWO_64; SubWord(x, c) == if x >= d then x - d else x + TWO_64 - d
  {
    var d := c % TWO_64;
    if x >= d {
      ModShift64(x + TWO_64 - d, 1, x - d);
    }
  }

  lemma {:induction false} AddUndone(x: u64, c: nat)
    ensures SubWord(AddWord(x, c), c) == x && AddWord(SubWord(x, c), c) == x
  {
    hide AddWord, SubWord;
    AddWordIs(x, c);
    AddWordIs(SubWord(x, c), c);
    SubWordIs(x, c);
    SubWordIs(AddWord(x, c), c);
  }

  /** For every index, the hash is a permutation of the seeds. */
  lemma {:induction false} HashIsPermutation(a: u64, h: u64, b: u64)
    ensures Unhash(HashOf(a, b), b) == a
    ensures HashOf(Unhash(h, b), b) == h
  {
    hide FoldHigh, Added, HashOf;
    MultipliersInvert();
    HashForth(a, b);
    HashBack(h, b);
  }

  lemma {:induction false} HashForth(a: u64, b: u64)
    requires (HASH_MUL_0 * UNDO_MUL_0) % TWO_64 == 1 && (HASH_MUL_1 * UNDO_MUL_1) % TWO_64 == 1
    ensures Unhash(HashOf(a, b), b) == a
  {
    hide FoldHigh, Added, HashOf, MulWord, AddWord, SubWord;
    HashSteps(a, b);
    var a1 := AddWord(a, TWO_32 + b);
    var a2 := MulWord(FoldHigh(a1), HASH_MUL_0);
    var a3 := AddWord(a2, Added(b));
    MulUndone(FoldHigh(a3), HASH_MUL_1, UNDO_MUL_1);
    FoldTwice(a3);
    AddUndone(a2, Added(b));
    MulUndone(FoldHigh(a1), HASH_MUL_0, UNDO_MUL_0);
    FoldTwice(a1);
    AddUndone(a, TWO_32 + b);
  }

  lemma {:induction false} HashBack(h: u64, b: u64)
    requires (HASH_MUL_0 * UNDO_MUL_0) % TWO_64 == 1 && (HASH_MUL_1 * UNDO_MUL_1) % TWO_64 == 1
    ensures HashOf(Unhash(h, b), b) == h
  {
    hide FoldHigh, Added, HashOf, MulWord, AddWord, SubWord;
    MulCommutes(HASH_MUL_0, UNDO_MUL_0);
    MulCommutes(HASH_MUL_1, UNDO_MUL_1);
    var t1 := MulWord(h, UNDO_MUL_1);
    var a2 := SubWord(FoldHigh(t1), Added(b));
    var t0 := MulWord(a2, UNDO_MUL_0);
    HashSteps(Unhash(h, b), b);
    AddUndone(FoldHigh(t0), TWO_32 + b);
    FoldTwice(t0);
    MulUndone(a2, UNDO_MUL_0, HASH_MUL_0);
    AddUndone(FoldHigh(t1), Added(b));
    FoldTwice(t1);
    MulUndone(h, UNDO_MUL_1, HASH_MUL_1);
  }

  // ---- the generator step

  function Twist(hi: u32): u32 { Xor32(hi * 0x1_0000 % TWO_32, hi / 0x1_0000) }

  function Join(hi: u32, lo: u32): (x: u64)
    ensures x / TWO_32 == hi && x % TWO_32 == lo
  {
    hi * TWO_32 + lo
  }

  lemma {:induction false} MixSteps(x: u64)
    ensures var hi: u32 := (x / TWO_32 + 1) % TWO_32;
            var y := MulWord(Join(hi, Xor32(x % TWO_32, hi)), HASH_MUL_0);
            MixBits(x) == Join(y / TWO_32, Xor32(y % TWO_32, Twist(y / TWO_32)))
  {
    hide Xor;
  }

  /** The generator state before. */
  function Unmix(w: u64): u64
  {
    var y: u64 := Join(w / TWO_32, Xor32(w % TWO_32, Twist(w / TWO_32)));
    var z := MulWord(y, UNDO_MUL_0);
    Join((z / TWO_32 + TWO_32 - 1) % TWO_32, Xor32(z % TWO_32, z / TWO_32))
  }

  lemma {:induction false} Xor32Back(x: u32, y: u32)
    ensures Xor32(Xor32(x, y), y) == x
  {
    hide Xor;
    XorBack(x, y);
  }

  lemma {:induction false} JoinParts(x: u64)
    ensures Join(x / TWO_32, x % TWO_32) == x
  {
  }

  /** The generator step is a permutation of its states. */
  lemma {:induction false} MixIsPermutation(x: u64, w: u64)
    ensures Unmix(MixBits(x)) == x
    ensures MixBits(Unmix(w)) == w
  {
    hide MixBits, Unmix;
    MultipliersInvert();
    MixForth(x);
    MixBack(w);
  }

  lemma {:induction false} MixForth(x: u64)
    requires (HASH_MUL_0 * UNDO_MUL_0) % TWO_64 == 1
    ensures Unmix(MixBits(x)) == x
  {
    hide MixBits, Xor32, Twist, Join, MulWord;
    MixSteps(x);
    var hi: u32 := (x / TWO_32 + 1) % TWO_32;
    var z: u64 := Join(hi, Xor32(x % TWO_32, hi));
    var y := MulWord(z, HASH_MUL_0);
    Xor32Back(y % TWO_32, Twist(y / TWO_32));
    JoinParts(y);
    MulUndone(z, HASH_MUL_0, UNDO_MUL_0);
    Xor32Back(x % TWO_32, hi);
    JoinParts(x);
  }

  lemma {:induction false} MixBack(w: u64)
    requires (HASH_MUL_0 * UNDO_MUL_0) % TWO_64 == 1
    ensures MixBits(Unmix(w)) == w
  {
    hide MixBits, Xor32, Twist, Join, MulWord;
    var y: u64 := Join(w / TWO_32, Xor32(w % TWO_32, Twist(w / TWO_32)));
    var z := MulWord(y, UNDO_MUL_0);
    MixSteps(Unmix(w));
    Xor32Back(z % TWO_32, z / TWO_32);
    JoinParts(z);
    MulUndone(y, UNDO_MUL_0, HASH_MUL_0);
    Xor32Back(w % TWO_32, Twist(w / TWO_32));
    JoinParts(w);
  }
}
