/** Unsigned machine words as naturals: powers of two, the bitwise operators the source uses,
    and the facts that turn masks and shifts into arithmetic. Shifts and masks are defined
    bit by bit, so that proofs about them never multiply by a variable power of two. */
module Bits {
  import opened Arith

  type u32 = x: nat | x < 0x1_0000_0000
  type u64 = x: nat | x < 0x1_0000_0000_0000_0000

  const TWO_32: nat := 0x1_0000_0000
  const TWO_64: nat := 0x1_0000_0000_0000_0000

  function Pow2(k: nat): (p: nat)
    ensures p >= 1
  {
    if k == 0 then 1 else 2 * Pow2(k - 1)
  }

  function And(x: nat, y: nat): nat
    decreases x
  {
    if x == 0 then 0 else (x % 2) * (y % 2) + 2 * And(x / 2, y / 2)
  }

  function Or(x: nat, y: nat): nat
    decreases x + y
  {
    if x + y == 0 then 0
    else (if x % 2 == 1 || y % 2 == 1 then 1 else 0) + 2 * Or(x / 2, y / 2)
  }

  function Xor(x: nat, y: nat): nat
    decreases x + y
  {
    if x + y == 0 then 0
    else (if x % 2 != y % 2 then 1 else 0) + 2 * Xor(x / 2, y / 2)
  }

  /** x & ~y */
  function AndNot(x: nat, y: nat): nat
    decreases x
  {
    if x == 0 then 0 else (if x % 2 == 1 && y % 2 == 0 then 1 else 0) + 2 * AndNot(x / 2, y / 2)
  }

  function Shl(x: int, k: nat): int
  {
    if k == 0 then x else 2 * Shl(x, k - 1)
  }

  function Shr(x: nat, k: nat): nat
  {
    if k == 0 then x else Shr(x / 2, k - 1)
  }

  /** The k low bits of x. */
  function Low(x: nat, k: nat): nat
  {
    if k == 0 then 0 else x % 2 + 2 * Low(x / 2, k - 1)
  }

  /** Number of bits needed to write x; 0 for 0. */
  function BitLength(x: nat): nat
  {
    if x == 0 then 0 else 1 + BitLength(x / 2)
  }

  /** The product x*y as repeated addition. Lemmas that only pass a product along state it this
      way, which keeps their proofs free of nonlinear arithmetic; TimesIsProduct relates the two. */
  function Times(x: int, y: nat): int
  {
    if y == 0 then 0 else Times(x, y - 1) + x
  }

  lemma {:induction false} TimesIsProduct(x: int, y: nat)
    ensures Times(x, y) == x * y
  {
    if y > 0 {
      TimesIsProduct(x, y - 1);
      assert x * (y - 1) == x * y - x;
    }
  }

  /** 2^k divides d. */
  predicate Divides2(k: nat, d: int)
  {
    k == 0 || (d % 2 == 0 && Divides2(k - 1, d / 2))
  }

  // ---- powers of two

  lemma {:induction false} Pow2Mono(a: nat, b: nat)
    requires a <= b
    ensures Pow2(a) <= Pow2(b)
    ensures a < b ==> 2 * Pow2(a) <= Pow2(b)
  {
    if a < b {
      Pow2Mono(a, b - 1);
    }
  }

  lemma {:induction false} ShlPow2(a: nat, k: nat)
    ensures Shl(Pow2(a), k) == Pow2(a + k)
  {
    if k > 0 {
      ShlPow2(a, k - 1);
    }
  }

  lemma {:induction false} Pow2Next(k: nat)
    ensures Pow2(k + 1) == 2 * Pow2(k)
  {
  }

  lemma {:induction false} ShlOne(k: nat)
    ensures Shl(1, k) == Pow2(k)
  {
    ShlPow2(0, k);
  }

  lemma {:induction false} Pow2Word()
    ensures Pow2(30) == 0x4000_0000
    ensures Pow2(31) == 0x8000_0000
    ensures Pow2(32) == TWO_32
  {
    Pow2By8(0);
    Pow2By8(8);
    Pow2By8(16);
    assert Pow2(30) == 64 * Pow2(24) by {
      assert Pow2(30) == 2 * Pow2(29) == 4 * Pow2(28) == 8 * Pow2(27);
      assert Pow2(27) == 2 * Pow2(26) == 4 * Pow2(25) == 8 * Pow2(24);
    }
  }

  lemma {:induction false} Pow2Word64()
    ensures Pow2(64) == TWO_64
  {
    Pow2Word();
    Pow2By8(32);
    Pow2By8(40);
    Pow2By8(48);
    Pow2By8(56);
  }

  lemma {:induction false} Pow2By8(a: nat)
    ensures Pow2(a + 8) == 256 * Pow2(a)
  {
    assert Pow2(a + 8) == 2 * Pow2(a + 7) == 4 * Pow2(a + 6) == 8 * Pow2(a + 5) == 16 * Pow2(a + 4);
    assert Pow2(a + 4) == 2 * Pow2(a + 3) == 4 * Pow2(a + 2) == 8 * Pow2(a + 1) == 16 * Pow2(a);
  }

  // ---- shifts

  lemma {:induction false} ShlAdd(x: int, y: int, k: nat)
    ensures Shl(x + y, k) == Shl(x, k) + Shl(y, k)
  {
    if k > 0 {
      ShlAdd(x, y, k - 1);
    }
  }

  lemma {:induction false} ShlNeg(x: int, k: nat)
    ensures Shl(-x, k) == -Shl(x, k)
  {
    if k > 0 {
      ShlNeg(x, k - 1);
    }
  }

  lemma {:induction false} ShlShl(x: int, j: nat, k: nat)
    ensures Shl(Shl(x, j), k) == Shl(x, j + k)
  {
    if k > 0 {
      ShlShl(x, j, k - 1);
    }
  }

  lemma {:induction false} ShlMono(x: int, y: int, k: nat)
    ensures x <= y ==> Shl(x, k) <= Shl(y, k)
    ensures x < y ==> Shl(x, k) + Shl(1, k) <= Shl(y, k)
    ensures Shl(1, k) >= 1
  {
    if k > 0 {
      ShlMono(x, y, k - 1);
    }
  }

  lemma {:induction false} DoubleProduct(x: int, y: int)
    ensures (2 * x) * y == 2 * (x * y) == x * (2 * y)
  {
  }

  lemma {:induction false} ShlMul(x: int, y: int, j: nat, k: nat)
    ensures Shl(x, j) * Shl(y, k) == Shl(x * y, j + k)
    decreases j + k
  {
    if j > 0 {
      ShlMul(x, y, j - 1, k);
      DoubleProduct(Shl(x, j - 1), Shl(y, k));
    } else if k > 0 {
      ShlMul(x, y, j, k - 1);
      DoubleProduct(x, Shl(y, k - 1));
    }
  }

  lemma {:induction false} ShlProduct(x: int, k: nat)
    ensures Shl(x, k) == x * Pow2(k)
  {
    if k > 0 {
      ShlProduct(x, k - 1);
      DoubleProduct(x, Pow2(k - 1));
    }
  }

  /** The high part and the low bits make up the word. */
  lemma {:induction false} ShrLow(x: nat, k: nat)
    ensures x == Shl(Shr(x, k), k) + Low(x, k)
    ensures Low(x, k) < Pow2(k)
  {
    if k > 0 {
      ShrLow(x / 2, k - 1);
    }
  }

  lemma {:induction false} ShrLowUnique(x: nat, q: nat, r: nat, k: nat)
    requires x == Shl(q, k) + r && r < Pow2(k)
    ensures Shr(x, k) == q && Low(x, k) == r
  {
    if k > 0 {
      ShrLowUnique(x / 2, q, r / 2, k - 1);
    }
  }

  lemma {:induction false} LowIdentity(x: nat, k: nat)
    requires x < Pow2(k)
    ensures Low(x, k) == x && Shr(x, k) == 0
  {
    if k > 0 {
      LowIdentity(x / 2, k - 1);
    }
  }

  lemma {:induction false} LowOfLow(x: nat, k: nat, w: nat)
    requires k <= w
    ensures Low(Low(x, w), k) == Low(x, k)
  {
    hide Low;
    LowStep(x, w);
    LowStep(x, k);
    LowStep(Low(x, w), k);
    if k > 0 {
      LowOfLow(x / 2, k - 1, w - 1);
    }
  }

  lemma {:induction false} LowStep(x: nat, k: nat)
    ensures k == 0 ==> Low(x, k) == 0
    ensures k > 0 ==> Low(x, k) == x % 2 + 2 * Low(x / 2, k - 1) && Low(x, k) % 2 == x % 2 && Low(x, k) / 2 == Low(x / 2, k - 1)
  {
  }

  /** Reducing to a 32-bit word keeps the 32 low bits. */
  lemma {:induction false} WordLow(x: nat)
    ensures x % TWO_32 == Low(x, 32)
    ensures x / TWO_32 == Shr(x, 32)
  {
    ShrLow(x, 32);
    Pow2Word();
    ShlProduct(Shr(x, 32), 32);
  }

  // ---- the number of significant bits

  lemma {:induction false} BitLengthBounds(x: nat)
    requires x > 0
    ensures BitLength(x) >= 1
    ensures Pow2(BitLength(x) - 1) <= x < Pow2(BitLength(x))
  {
    if x > 1 {
      BitLengthBounds(x / 2);
    } else {
      assert BitLength(1) == 1 + BitLength(0);
    }
  }

  lemma {:induction false} BitLengthUnique(x: nat, k: nat)
    requires k >= 1 && Pow2(k - 1) <= x < Pow2(k)
    ensures BitLength(x) == k
  {
    BitLengthBounds(x);
    var b := BitLength(x);
    if b < k {
      Pow2Mono(b, k - 1);
    } else if b > k {
      Pow2Mono(k, b - 1);
    }
  }

  lemma {:induction false} BitLengthLe(x: nat, k: nat)
    requires x < Pow2(k)
    ensures BitLength(x) <= k
  {
    hide Pow2, BitLength;
    if x == 0 {
      BitLengthOfZero();
    } else {
      BitLengthBounds(x);
      if BitLength(x) > k {
        Pow2Mono(k, BitLength(x) - 1);
      }
    }
  }

  lemma {:induction false} BitLengthOfZero()
    ensures BitLength(0) == 0
  {
  }

  // ---- masks

  lemma {:induction false} AndMask(x: nat, k: nat)
    ensures And(x, Pow2(k) - 1) == Low(x, k)
    decreases k
  {
    if k == 0 {
      AndZero(x);
    } else if x == 0 {
      LowIdentity(0, k);
    } else {
      var h := Pow2(k - 1);
      assert (Pow2(k) - 1) / 2 == h - 1 && (Pow2(k) - 1) % 2 == 1;
      AndMask(x / 2, k - 1);
    }
  }

  lemma {:induction false} AndZero(x: nat)
    ensures And(x, 0) == 0
  {
    if x > 0 {
      AndZero(x / 2);
    }
  }

  lemma {:induction false} OrZero(x: nat)
    ensures Or(x, 0) == x && Or(0, x) == x
  {
    if x > 0 {
      OrZero(x / 2);
    }
  }

  /** Setting the low bits of a shifted word adds them. */
  lemma {:induction false} OrShifted(x: nat, y: nat, k: nat)
    requires y < Pow2(k)
    ensures Shl(x, k) >= 0
    ensures Or(Shl(x, k), y) == Shl(x, k) + y
  {
    ShlMono(0, x, k);
    ShlAdd(0, 0, k);
    if k == 0 {
      OrZero(x);
    } else {
      OrShifted(x, y / 2, k - 1);
    }
  }

  lemma {:induction false} XorBound(x: nat, y: nat, k: nat)
    requires x < Pow2(k) && y < Pow2(k)
    ensures Xor(x, y) < Pow2(k)
    decreases k
  {
    if k > 0 {
      XorBound(x / 2, y / 2, k - 1);
    }
  }

  /** Setting bit 0 makes a word odd and leaves the others alone. */
  lemma {:induction false} OrOne(a: nat)
    ensures Or(a, 1) == 2 * (a / 2) + 1
  {
    OrZero(a / 2);
    assert Or(a, 1) == 1 + 2 * Or(a / 2, 1 / 2) && 1 / 2 == 0;
  }

  // ---- divisibility by a power of two

  lemma {:induction false} SameLow(x: nat, y: nat, k: nat)
    requires Low(x, k) == Low(y, k)
    ensures Divides2(k, x - y)
  {
    if k > 0 {
      SameLow(x / 2, y / 2, k - 1);
      assert x % 2 == y % 2 && (x - y) / 2 == x / 2 - y / 2;
    }
  }

  lemma {:induction false} SmallMultiple(k: nat, d: int)
    requires Divides2(k, d) && d < Pow2(k) && -d < Pow2(k)
    ensures d == 0
  {
    if k > 0 {
      SmallMultiple(k - 1, d / 2);
    }
  }

  /** An odd factor can be cancelled. */
  lemma {:induction false} OddCancel(k: nat, d: int, c: nat)
    requires c % 2 == 1 && Divides2(k, Times(d, c))
    ensures Divides2(k, d)
  {
    if k > 0 {
      TimesParity(d, c);
      OddCancel(k - 1, d / 2, c);
    }
  }

  lemma {:induction false} TimesParity(d: int, c: nat)
    requires c % 2 == 1
    ensures Times(d, c) % 2 == d % 2
    ensures d % 2 == 0 ==> Times(d, c) / 2 == Times(d / 2, c)
    decreases c
  {
    hide Times;
    TimesSteps(d, c);
    TimesSteps(d / 2, c);
    if c > 1 {
      TimesParity(d, c - 2);
      HalfStep(Times(d, c - 2), d);
    }
  }

  lemma {:induction false} TimesSteps(x: int, y: nat)
    ensures y == 1 ==> Times(x, y) == x
    ensures y > 1 ==> Times(x, y) == Times(x, y - 2) + 2 * x
  {
    assert Times(x, 0) == 0;
    if y > 1 {
      assert Times(x, y) == Times(x, y - 1) + x && Times(x, y - 1) == Times(x, y - 2) + x;
    }
  }

  lemma {:induction false} HalfStep(t: int, d: int)
    ensures (t + 2 * d) % 2 == t % 2 && (t + 2 * d) / 2 == t / 2 + d
  {
  }

  lemma {:induction false} ShlOfZero(j: nat)
    ensures Shl(0, j) == 0 && (j > 0 ==> Shr(0, j) == Shr(0, j - 1))
    ensures Shr(0, j) == 0
  {
    if j > 0 {
      ShlOfZero(j - 1);
    }
  }

  lemma {:induction false} AndNotZero(x: nat)
    ensures AndNot(x, 0) == x
  {
    if x > 0 {
      AndNotZero(x / 2);
    }
  }

  /** Masking out the k low bits. */
  lemma {:induction false} ClearLow(x: nat, k: nat)
    ensures AndNot(x, Pow2(k) - 1) == Shl(Shr(x, k), k)
  {
    if k == 0 {
      AndNotZero(x);
    } else {
      ClearLow(x / 2, k - 1);
      assert (Pow2(k) - 1) / 2 == Pow2(k - 1) - 1;
      ShlOfZero(k);
    }
  }

  /** ... leaves the largest multiple of 2^k that is at most x. */
  lemma {:induction false} ClearLowIs(x: nat, k: nat)
    ensures AndNot(x, Pow2(k) - 1) == Pow2(k) * Shr(x, k) <= x < Pow2(k) * Shr(x, k) + Pow2(k)
  {
    ClearLow(x, k);
    ShrLow(x, k);
    ShlProduct(Shr(x, k), k);
    hide AndNot, Shl, Shr, Low, Pow2;
    MulCommutes(Shr(x, k), Pow2(k));
  }

}
