/** Binary interchange floats with e exponent bits and m mantissa bits (IEEE 754-2019, sections
    3.4, 4.3 and 6.3), and the encoding of small integers that verifiable/verifiable.cu uses.
    A finite float is a whole number of smallest subnormals, so values are plain integers here. */
module Floats {
  import opened Arith
  import opened Bits

  datatype Format = Format(e: nat, m: nat)

  /** The ranges the generators rely on; every element type of the source meets them. */
  predicate ValidFormat(f: Format)
  {
    2 <= f.e <= 31 && 2 <= f.m && f.m + 2 < Pow2(f.e) && 1 + f.e + f.m <= 64
  }

  const FLOAT16 := Format(5, 10)
  const BFLOAT16 := Format(8, 7)
  const FLOAT32 := Format(8, 23)
  const FLOAT64 := Format(11, 52)
  const FLOAT8_E4M3 := Format(4, 3)
  const FLOAT8_E5M2 := Format(5, 2)

  lemma {:induction false} SourceFormatsValid()
    ensures forall f :: f in {FLOAT16, BFLOAT16, FLOAT32, FLOAT64, FLOAT8_E4M3, FLOAT8_E5M2} ==> ValidFormat(f)
  {
    assert Pow2(4) == 16;
    assert Pow2(5) == 32;
    Pow2By8(0);
    assert Pow2(11) == 2 * Pow2(10) == 4 * Pow2(9) == 8 * Pow2(8);
  }

  /** The width in bits and the exponent bias of each (IEEE 754-2019, table 3.5, for the sizes it has). */
  lemma {:induction false} FormatParameters()
    ensures forall f :: f in {FLOAT16, BFLOAT16} ==> 1 + f.e + f.m == 16
    ensures 1 + FLOAT32.e + FLOAT32.m == 32 && 1 + FLOAT64.e + FLOAT64.m == 64
    ensures forall f :: f in {FLOAT8_E4M3, FLOAT8_E5M2} ==> 1 + f.e + f.m == 8
    ensures Bias(FLOAT16) == 15 && Bias(BFLOAT16) == 127 && Bias(FLOAT32) == 127 && Bias(FLOAT64) == 1023
    ensures Bias(FLOAT8_E4M3) == 7 && Bias(FLOAT8_E5M2) == 15
  {
    assert Pow2(4) == 16 && Pow2(3) == 8 && Pow2(0) == 1;
    Pow2By8(0);
    assert Pow2(8) == 2 * Pow2(7);
    assert Pow2(10) == 2 * Pow2(9) == 4 * Pow2(8);
  }

  datatype Float = Float(sign: bool, exp: nat, mant: nat)

  const POSITIVE_ZERO := Float(false, 0, 0)

  function Bias(f: Format): nat
    requires f.e >= 1
  {
    Pow2(f.e - 1) - 1
  }

  predicate Finite(f: Format, x: Float)
  {
    x.exp + 1 < Pow2(f.e) && x.mant < Pow2(f.m)
  }

  predicate Normal(f: Format, x: Float)
  {
    Finite(f, x) && x.exp >= 1
  }

  /** The magnitude in units of the smallest subnormal. */
  function Mag(f: Format, x: Float): nat
  {
    if x.exp == 0 then x.mant
    else
      ShlMono(0, Pow2(f.m) + x.mant, x.exp - 1);
      ShlZero(x.exp - 1);
      Shl(Pow2(f.m) + x.mant, x.exp - 1)
  }

  function Units(f: Format, x: Float): int
  {
    if x.sign then 0 - Mag(f, x) else Mag(f, x)
  }

  lemma {:induction false} ShlZero(k: nat)
    ensures Shl(0, k) == 0
  {
    ShlAdd(0, 0, k);
  }

  // ---- an encoding is determined by its value

  lemma {:induction false} MagRange(f: Format, x: Float)
    requires Finite(f, x)
    ensures x.exp == 0 ==> Mag(f, x) < Pow2(f.m)
    ensures x.exp > 0 ==> Pow2(f.m + x.exp - 1) <= Mag(f, x) < Pow2(f.m + x.exp)
  {
    if x.exp > 0 {
      var s := Pow2(f.m) + x.mant;
      ShlMono(Pow2(f.m), s, x.exp - 1);
      ShlMono(s, Pow2(f.m + 1), x.exp - 1);
      ShlPow2(f.m, x.exp - 1);
      ShlPow2(f.m + 1, x.exp - 1);
    }
  }

  /** No finite float is larger than the one with all mantissa bits and the last exponent: for
      FLOAT16 that is 65504. */
  lemma {:induction false} LargestFinite(f: Format, x: Float)
    requires f.e >= 2 && Finite(f, x)
    ensures Pow2(f.e) >= 4 && Mag(f, x) <= Mag(f, Float(false, Pow2(f.e) - 2, Pow2(f.m) - 1))
    ensures Mag(f, Float(false, Pow2(f.e) - 2, Pow2(f.m) - 1)) == Shl(Pow2(f.m + 1) - 1, Pow2(f.e) - 3)
    ensures f == FLOAT16 ==> Shl(Pow2(f.m + 1) - 1, Pow2(f.e) - 3) == Shl(65504, Bias(f) + f.m - 1)
  {
    hide Shl, Pow2, Mag;
    Pow2Mono(2, f.e);
    SmallPowers();
    Pow2Next(f.m);
    LargestMag(f);
    if x.exp == Pow2(f.e) - 2 {
      SameExponentMag(f, x);
    } else {
      MagRange(f, x);
      MagRange(f, Float(false, Pow2(f.e) - 2, Pow2(f.m) - 1));
      Pow2Mono(f.m + x.exp, f.m + Pow2(f.e) - 3);
      Pow2Mono(f.m, f.m + Pow2(f.e) - 3);
    }
    HalfLimit();
  }

  lemma {:induction false} SmallPowers()
    ensures Pow2(2) == 4 && Pow2(4) == 16 && Pow2(5) == 32 && Pow2(11) == 2048
  {
    Pow2By8(3);
    assert Pow2(3) == 8;
  }

  lemma {:induction false} HalfLimit()
    ensures Shl(2047, 29) == Shl(65504, 24) && Bias(FLOAT16) == 15
  {
    assert Pow2(4) == 16;
    assert Shl(2047, 5) == 65504;
    ShlShl(2047, 5, 24);
  }

  lemma {:induction false} LargestMag(f: Format)
    requires f.e >= 2 && Pow2(f.e) >= 4
    ensures Mag(f, Float(false, Pow2(f.e) - 2, Pow2(f.m) - 1)) == Shl(Pow2(f.m + 1) - 1, Pow2(f.e) - 3)
  {
    Pow2Next(f.m);
  }

  lemma {:induction false} SameExponentMag(f: Format, x: Float)
    requires Finite(f, x) && x.exp > 0
    ensures Mag(f, x) <= Mag(f, Float(false, x.exp, Pow2(f.m) - 1))
  {
    hide Shl, Pow2;
    ShlMono(Pow2(f.m) + x.mant, Pow2(f.m) + (Pow2(f.m) - 1), x.exp - 1);
  }

  lemma {:induction false} MagInjective(f: Format, x: Float, y: Float)
    requires Finite(f, x) && Finite(f, y) && Mag(f, x) == Mag(f, y)
    ensures x.exp == y.exp && x.mant == y.mant
  {
    hide Pow2, Shl;
    MagRange(f, x);
    MagRange(f, y);
    if x.exp < y.exp {
      Pow2Mono(f.m + x.exp, f.m + y.exp - 1);
    } else if y.exp < x.exp {
      Pow2Mono(f.m + y.exp, f.m + x.exp - 1);
    } else if x.exp > 0 {
      ShlMono(Pow2(f.m) + x.mant, Pow2(f.m) + y.mant, x.exp - 1);
      ShlMono(Pow2(f.m) + y.mant, Pow2(f.m) + x.mant, x.exp - 1);
    }
  }

  // ---- building a float from its fields

  function Decode(f: Format, bits: nat): Float
  {
    Float(Shr(bits, f.m + f.e) % 2 == 1, Low(Shr(bits, f.m), f.e), Low(bits, f.m))
  }

  /** The bits assembled with shifts and ors, read back as a float. */
  function MakeFloat(f: Format, sign: nat, exp: nat, mant: nat): Float
  {
    ShlMono(0, sign, f.e);
    ShlZero(f.e);
    var high := Or(Shl(sign, f.e), exp);
    ShlMono(0, high, f.m);
    ShlZero(f.m);
    Decode(f, Or(Shl(high, f.m), mant))
  }

  lemma {:induction false} ShrShr(x: nat, j: nat, k: nat)
    ensures Shr(x, j + k) == Shr(Shr(x, j), k)
  {
    if j > 0 {
      ShrShr(x / 2, j - 1, k);
    }
  }

  lemma {:induction false} MakeFloatFields(f: Format, sign: nat, exp: nat, mant: nat)
    requires sign <= 1 && exp < Pow2(f.e) && mant < Pow2(f.m)
    ensures MakeFloat(f, sign, exp, mant) == Float(sign == 1, exp, mant)
  {
    hide Shl, Shr, Low, Or, Pow2;
    OrShifted(sign, exp, f.e);
    var high := Or(Shl(sign, f.e), exp);
    OrShifted(high, mant, f.m);
    var bits := Or(Shl(high, f.m), mant);
    ShrLowUnique(bits, high, mant, f.m);
    ShrLowUnique(high, sign, exp, f.e);
    ShrShr(bits, f.m, f.e);
  }

  // ---- integers as floats

  /** The largest integer the mantissa can hold with its implicit leading one. */
  function MaxMant(f: Format): nat { Pow2(f.m + 1) - 1 }

  predicate ExponentOk(f: Format, exp: nat)
  {
    f.m + 1 <= exp && exp + 1 < Pow2(f.e)
  }

  function AbsOf(k: int): nat { if k < 0 then -k else k }

  /** k can be written without rounding. */
  predicate FitsMant(f: Format, k: int) { AbsOf(k) <= MaxMant(f) }

  /** The float whose value is k units of 2^(exp-1) smallest subnormals, negated if `sign`;
      zero is always +0. */
  function FloatOf(f: Format, sign: bool, exp: nat, k: int): Float
  {
    if k == 0 then POSITIVE_ZERO
    else if BitLength(AbsOf(k)) <= f.m + 1 <= exp then
      var shift := f.m + 1 - BitLength(AbsOf(k));
      ShlMono(0, AbsOf(k), shift);
      ShlZero(shift);
      Float(sign != (k < 0), exp - shift, Low(Shl(AbsOf(k), shift), f.m))
    else POSITIVE_ZERO
  }

  /** Shifting the leading bit into the implicit place normalises the significand. */
  lemma {:induction false} Normalised(f: Format, n: nat)
    requires 0 < n <= MaxMant(f)
    ensures 1 <= BitLength(n) <= f.m + 1
    ensures Pow2(f.m) <= Shl(n, f.m + 1 - BitLength(n)) < Pow2(f.m + 1)
    ensures Low(Shl(n, f.m + 1 - BitLength(n)), f.m) == Shl(n, f.m + 1 - BitLength(n)) - Pow2(f.m)
  {
    hide Pow2, Shl, Shr, Low, BitLength;
    BitLengthBounds(n);
    BitLengthLe(n, f.m + 1);
    var b := BitLength(n);
    var shift := f.m + 1 - b;
    ShlMono(Pow2(b - 1), n, shift);
    ShlMono(n, Pow2(b), shift);
    ShlPow2(b - 1, shift);
    ShlPow2(b, shift);
    ShlOne(shift);
    ShlOne(f.m);
    Pow2Next(f.m);
    ShrLowUnique(Shl(n, shift), 1, Shl(n, shift) - Pow2(f.m), f.m);
  }

  lemma {:induction false} FloatOfValue(f: Format, sign: bool, exp: nat, k: int)
    requires ExponentOk(f, exp) && FitsMant(f, k)
    ensures Finite(f, FloatOf(f, sign, exp, k))
    ensures Units(f, FloatOf(f, sign, exp, k)) == if sign then 0 - Shl(k, exp - 1) else Shl(k, exp - 1)
    ensures k != 0 ==> Normal(f, FloatOf(f, sign, exp, k))
    ensures k != 0 ==> FloatOf(f, sign, exp, k).sign == (sign != (k < 0))
    ensures Mag(f, FloatOf(f, sign, exp, k)) == Shl(AbsOf(k), exp - 1)
  {
    hide Pow2, Shl, Low, BitLength;
    Pow2Next(f.m);
    ShlZero(exp - 1);
    ShlNeg(k, exp - 1);
    if k != 0 {
      var n := AbsOf(k);
      Normalised(f, n);
      var shift := f.m + 1 - BitLength(n);
      ShlShl(n, shift, exp - shift - 1);
    }
  }

  // ---- exact operations

  /** c is the exact sum of a and b; an exact zero takes the sign of IEEE 754-2019, 6.3. */
  ghost predicate ExactSum(f: Format, a: Float, b: Float, c: Float)
  {
    && Finite(f, a) && Finite(f, b) && Finite(f, c)
    && Units(f, c) == Units(f, a) + Units(f, b)
    && (Units(f, c) == 0 ==> c.sign == (a.sign && b.sign))
  }

  /** c is the exact product of a and b. */
  ghost predicate ExactProduct(f: Format, a: Float, b: Float, c: Float)
  {
    && f.e >= 1 && f.m >= 1
    && Finite(f, a) && Finite(f, b) && Finite(f, c)
    && Shl(Mag(f, c), Bias(f) + f.m - 1) == Mag(f, a) * Mag(f, b)
    && c.sign == (a.sign != b.sign)
  }

  /** An addition that does not round a representable sum, whatever it does otherwise. */
  ghost predicate AddsExactly(f: Format, add: (Float, Float) -> Float)
  {
    forall a, b, c :: ExactSum(f, a, b, c) ==> add(a, b) == c
  }

  ghost predicate MultipliesExactly(f: Format, mul: (Float, Float) -> Float)
  {
    forall a, b, c :: ExactProduct(f, a, b, c) ==> mul(a, b) == c
  }

  /** Sums of encoded integers are exact as long as they fit the mantissa. */
  lemma {:induction false} EncodedSum(f: Format, sign: bool, exp: nat, k: int, l: int)
    requires ExponentOk(f, exp) && FitsMant(f, k) && FitsMant(f, l) && FitsMant(f, k + l)
    ensures ExactSum(f, FloatOf(f, sign, exp, k), FloatOf(f, sign, exp, l), FloatOf(f, sign, exp, k + l))
  {
    hide Shl, Pow2, FloatOf, Units, Finite, FitsMant;
    EncodedUnits(f, sign, exp, k);
    EncodedUnits(f, sign, exp, l);
    EncodedUnits(f, sign, exp, k + l);
    ShlAdd(k, l, exp - 1);
  }

  lemma {:induction false} EncodedUnits(f: Format, sign: bool, exp: nat, k: int)
    requires ExponentOk(f, exp) && FitsMant(f, k)
    ensures Finite(f, FloatOf(f, sign, exp, k))
    ensures Units(f, FloatOf(f, sign, exp, k)) == if sign then 0 - Shl(k, exp - 1) else Shl(k, exp - 1)
    ensures Shl(k, exp - 1) == 0 ==> k == 0
    ensures FloatOf(f, sign, exp, k).sign == (k != 0 && (sign != (k < 0)))
  {
    FloatOfValue(f, sign, exp, k);
    ShlNeg(k, exp - 1);
    ShlZero(exp - 1);
    ShlMono(0, k, exp - 1);
    ShlMono(k, 0, exp - 1);
  }

  // ---- rounding to nearest, ties to even (IEEE 754-2019, section 4.3.1)

  /** The number of low bits that NearestEven discards. */
  function Discarded(f: Format, n: nat, sh: nat): nat
  {
    if sh + f.m + 1 < BitLength(n) then BitLength(n) - (f.m + 1) else sh
  }

  /** The float nearest to n * 2^-sh smallest subnormals; too large a result is infinity. */
  function NearestEven(f: Format, sign: bool, n: nat, sh: nat): Float
  {
    var k := Discarded(f, n, sh);
    var q := Rounded(n, k);
    var sig, t := if q == Pow2(f.m + 1) then Pow2(f.m) else q, if q == Pow2(f.m + 1) then k - sh + 1 else k - sh;
    if sig < Pow2(f.m) then Float(sign, 0, sig)
    else if t + 2 < Pow2(f.e) then Float(sign, t + 1, sig - Pow2(f.m))
    else Float(sign, Pow2(f.e) - 1, 0)
  }

  /** The discarded k low bits are more than half a unit, or exactly half below an odd quotient. */
  predicate RoundsUp(n: nat, k: nat)
  {
    k > 0 && (Low(n, k) > Pow2(k - 1) || (Low(n, k) == Pow2(k - 1) && Shr(n, k) % 2 == 1))
  }

  function Rounded(n: nat, k: nat): nat
  {
    Shr(n, k) + (if RoundsUp(n, k) then 1 else 0)
  }

  /** IEEE 754 addition, rounding to nearest even; operands outside the finite range give a NaN. */
  function AddNearest(f: Format, a: Float, b: Float): Float
  {
    var n := Units(f, a) + Units(f, b);
    if !Finite(f, a) || !Finite(f, b) then Float(false, Pow2(f.e) - 1, 1)
    else if n == 0 then Float(a.sign && b.sign, 0, 0)
    else NearestEven(f, n < 0, AbsOf(n), 0)
  }

  function MulNearest(f: Format, a: Float, b: Float): Float
    requires f.e >= 1 && f.m >= 1
  {
    if !Finite(f, a) || !Finite(f, b) then Float(false, Pow2(f.e) - 1, 1)
    else
      ProductNonNegative(Mag(f, a), Mag(f, b));
      NearestEven(f, a.sign != b.sign, Mag(f, a) * Mag(f, b), Bias(f) + f.m - 1)
  }

  /** The rounded quotient is within half a unit of the exact value, and even when exactly half. */
  lemma {:induction false} RoundingError(n: nat, k: nat)
    requires k > 0
    ensures AbsOf(Shl(Rounded(n, k), k) - n) <= Pow2(k - 1)
    ensures AbsOf(Shl(Rounded(n, k), k) - n) == Pow2(k - 1) ==> Rounded(n, k) % 2 == 0
    ensures Shl(1, k) == 2 * Pow2(k - 1)
  {
    hide Shl, Shr, Low, Pow2;
    Pow2Next(k - 1);
    ShrLow(n, k);
    ShlAdd(Shr(n, k), 1, k);
    ShlOne(k);
  }

  /** No other multiple of 2^k is nearer to n, and another one as near only when the result is even. */
  lemma {:induction false} NearestMultiple(n: nat, k: nat, z: int)
    ensures AbsOf(Shl(Rounded(n, k), k) - n) <= AbsOf(Shl(z, k) - n)
    ensures AbsOf(Shl(Rounded(n, k), k) - n) == AbsOf(Shl(z, k) - n) ==> z == Rounded(n, k) || Rounded(n, k) % 2 == 0
  {
    hide Shl, Pow2, Rounded;
    if k == 0 {
      NothingRounded(n, z);
    } else {
      RoundingError(n, k);
      ShlMono(z, Rounded(n, k), k);
      ShlMono(Rounded(n, k), z, k);
    }
  }

  lemma {:induction false} NothingRounded(n: nat, z: int)
    ensures Rounded(n, 0) == n == Shl(Rounded(n, 0), 0) && Shl(z, 0) == z
  {
  }

  // ---- the result is a nearest float

  /** How far a float is from v * 2^-sh, in units of 2^-sh. */
  function Distance(f: Format, x: Float, v: int, sh: nat): nat
  {
    AbsOf(Shl(Units(f, x), sh) - v)
  }

  function Signed(sign: bool, n: nat): int { if sign then 0 - n else n }

  lemma {:induction false} DiscardedBits(f: Format, n: nat, sh: nat)
    ensures Discarded(f, n, sh) >= sh
    ensures n < Pow2(Discarded(f, n, sh) + f.m + 1)
    ensures Discarded(f, n, sh) > sh ==> Pow2(Discarded(f, n, sh) + f.m) <= n
  {
    hide Pow2, BitLength;
    var k := Discarded(f, n, sh);
    if n > 0 {
      BitLengthBounds(n);
      Pow2Mono(BitLength(n), k + f.m + 1);
    } else {
      BitLengthOfZero();
    }
  }

  /** The quotient after rounding: a whole mantissa, or one more unit than that. */
  lemma {:induction false} QuotientRange(f: Format, n: nat, sh: nat)
    ensures var k := Discarded(f, n, sh); 0 <= Rounded(n, k) <= Pow2(f.m + 1) && (k > sh ==> Rounded(n, k) >= Pow2(f.m))
  {
    hide Pow2, Shl, Shr, Low, Discarded, RoundsUp;
    var k := Discarded(f, n, sh);
    DiscardedBits(f, n, sh);
    ShrLow(n, k);
    ShlPow2(f.m, k);
    ShlPow2(f.m + 1, k);
    ShlMono(Pow2(f.m + 1), Shr(n, k), k);
    ShlOne(k);
    ShlMono(Shr(n, k), Pow2(f.m) - 1, k);
    ShlMono(Pow2(f.m) - 1, Pow2(f.m), k);
  }

  /** A finite result is the rounded quotient; its mantissa is even when the quotient is. */
  lemma {:induction false} NearestValue(f: Format, sign: bool, n: nat, sh: nat)
    requires f.m >= 1 && Finite(f, NearestEven(f, sign, n, sh))
    ensures var c, k := NearestEven(f, sign, n, sh), Discarded(f, n, sh);
      && Shl(Mag(f, c), sh) == Shl(Rounded(n, k), k) && c.sign == sign
      && (Rounded(n, k) % 2 == 0 ==> c.mant % 2 == 0)
  {
    hide Shl, Shr, Low, Rounded, BitLength;
    var k := Discarded(f, n, sh);
    var q := Rounded(n, k);
    QuotientRange(f, n, sh);
    DiscardedBits(f, n, sh);
    Pow2Next(f.m);
    Pow2Next(f.m - 1);
    DoubledShift(Pow2(f.m), k);
    ShlShl(q, k - sh, sh);
    ShlShl(Pow2(f.m), k - sh + 1, sh);
  }

  lemma {:induction false} DoubledShift(x: int, k: nat)
    ensures Shl(x, k + 1) == Shl(2 * x, k)
  {
    ShlAdd(x, x, k);
  }

  /** Every float that is at least the result's power of two is a multiple of the unit discarded. */
  lemma {:induction false} LargeIsMultiple(f: Format, x: Float, sh: nat, k: nat) returns (z: int)
    requires Finite(f, x) && k >= sh && (k == sh || Shl(Mag(f, x), sh) >= Pow2(k + f.m))
    ensures Shl(Mag(f, x), sh) == Shl(z, k)
  {
    hide Shl, Pow2;
    if k == sh {
      z := Mag(f, x);
    } else {
      MagRange(f, x);
      ShlMono(Mag(f, x), Pow2(f.m + x.exp), sh);
      ShlPow2(f.m + x.exp, sh);
      if x.exp + sh <= k {
        Pow2Mono(f.m + x.exp + sh, k + f.m);
      }
      assert x.exp > 0;
      z := Shl(Pow2(f.m) + x.mant, x.exp - 1 - (k - sh));
      ShlShl(Pow2(f.m) + x.mant, x.exp - 1 - (k - sh), k);
      ShlShl(Pow2(f.m) + x.mant, x.exp - 1, sh);
    }
  }

  lemma {:induction false} NearestMag(f: Format, n: nat, sh: nat, x: Float)
    requires Finite(f, x)
    ensures var k := Discarded(f, n, sh);
      && AbsOf(Shl(Rounded(n, k), k) - n) <= AbsOf(Shl(Mag(f, x), sh) - n)
      && (AbsOf(Shl(Rounded(n, k), k) - n) == AbsOf(Shl(Mag(f, x), sh) - n) ==>
            Shl(Mag(f, x), sh) == Shl(Rounded(n, k), k) || Rounded(n, k) % 2 == 0)
  {
    hide Shl, Pow2, Mag, Rounded, Discarded;
    var k := Discarded(f, n, sh);
    DiscardedBits(f, n, sh);
    if k > sh && Shl(Mag(f, x), sh) < Pow2(k + f.m) {
      // A smaller float is farther away than the power of two below n.
      ShlPow2(f.m, k);
      NearestMultiple(n, k, Pow2(f.m));
    } else {
      var z := LargeIsMultiple(f, x, sh, k);
      NearestMultiple(n, k, z);
    }
  }

  /** A finite result is at least as near to the exact value as any other float, and even when there
      is another one as near. */
  lemma {:induction false} NearestIsNearest(f: Format, sign: bool, n: nat, sh: nat, x: Float)
    requires f.m >= 1 && Finite(f, x) && Finite(f, NearestEven(f, sign, n, sh))
    ensures var c, v := NearestEven(f, sign, n, sh), Signed(sign, n);
      && Distance(f, c, v, sh) <= Distance(f, x, v, sh)
      && (Distance(f, c, v, sh) == Distance(f, x, v, sh) && Units(f, x) != Units(f, c) ==> c.mant % 2 == 0)
  {
    hide Shl, Mag, Rounded, Discarded, NearestEven, Pow2, Finite;
    NearestValue(f, sign, n, sh);
    NearestMag(f, n, sh, x);
    NearestMultiple(n, Discarded(f, n, sh), 0);
    ShlZero(Discarded(f, n, sh));
    var c := NearestEven(f, sign, n, sh);
    ShlNeg(Mag(f, x), sh);
    ShlNeg(Mag(f, c), sh);
    ShlMono(0, Mag(f, x), sh);
    ShlMono(0, Mag(f, c), sh);
    ShlZero(sh);
    ShlMono(Mag(f, x), Mag(f, c), sh);
    ShlMono(Mag(f, c), Mag(f, x), sh);
  }

  /** The result is infinite exactly from half a unit above the largest finite float on. */
  lemma {:induction false} NearestOverflow(f: Format, sign: bool, n: nat, sh: nat)
    requires f.e >= 2
    ensures Pow2(f.e) >= 4
    ensures Finite(f, NearestEven(f, sign, n, sh)) <==> n < Shl(Pow2(f.m + 2) - 1, Pow2(f.e) - 4 + sh)
  {
    hide Pow2, Shl, Shr, Low, BitLength, Rounded;
    Pow2Mono(2, f.e);
    FourIsPow2();
    var k, top := Discarded(f, n, sh), Pow2(f.e) - 3 + sh;
    DiscardedBits(f, n, sh);
    QuotientRange(f, n, sh);
    Pow2Next(f.m);
    Pow2Next(f.m + 1);
    Threshold(f.m, top);
    Pow2Next(top + f.m);
    if k < top {
      Pow2Mono(k + f.m + 1, top + f.m);
    } else if k > top {
      Pow2Mono(top + f.m + 1, k + f.m);
    } else {
      RoundsToNext(f, n, k);
    }
  }

  lemma {:induction false} FourIsPow2()
    ensures Pow2(2) == 4
  {
  }

  lemma {:induction false} Threshold(m: nat, top: nat)
    requires top > 0
    ensures Shl(Pow2(m + 2) - 1, top - 1) == Pow2(m + 1 + top) - Pow2(top - 1)
    ensures Pow2(top + m) < Shl(Pow2(m + 2) - 1, top - 1) < Pow2(m + 1 + top)
  {
    hide Pow2, Shl;
    ShlAdd(Pow2(m + 2) - 1, 1, top - 1);
    ShlPow2(m + 2, top - 1);
    ShlOne(top - 1);
    Pow2Next(top + m);
    Pow2Mono(top - 1, top + m);
    Pow2Next(top - 1);
    Pow2Mono(top, top + m);
  }

  /** The quotient is rounded up to m + 2 bits exactly from half a unit below them on. */
  lemma {:induction false} RoundsToNext(f: Format, n: nat, k: nat)
    requires k > 0 && n < Pow2(k + f.m + 1)
    ensures Rounded(n, k) == Pow2(f.m + 1) <==> n >= Pow2(f.m + 1 + k) - Pow2(k - 1)
  {
    hide Pow2, Shl, Shr, Low;
    var all := Pow2(f.m + 1) - 1;
    ShrLow(n, k);
    ShlPow2(f.m + 1, k);
    ShlAdd(all, 1, k);
    ShlOne(k);
    Pow2Next(k - 1);
    Pow2Next(f.m);
    ShlMono(Shr(n, k), all, k);
    ShlMono(all, Shr(n, k), k);
    assert all % 2 == 1;
  }

  /** A value that some float has exactly is rounded to that float. */
  lemma {:induction false} NearestOfExact(f: Format, c: Float, n: nat, sh: nat)
    requires Finite(f, c) && Shl(Mag(f, c), sh) == n
    ensures NearestEven(f, c.sign, n, sh) == c
  {
    if c.exp == 0 {
      ShlMono(c.mant, Pow2(f.m), sh);
      ShlPow2(f.m, sh);
      BitLengthLe(n, f.m + sh);
      ShrLowUnique(n, c.mant, 0, sh);
      Pow2Mono(f.m, f.m + 1);
    } else {
      var s, k := Pow2(f.m) + c.mant, c.exp - 1 + sh;
      ShlShl(s, c.exp - 1, sh);
      MagRange(f, c);
      NormalBitLength(f, s, k);
      ShrLowUnique(n, s, 0, k);
    }
  }

  lemma {:induction false} NormalBitLength(f: Format, s: nat, k: nat)
    requires Pow2(f.m) <= s < Pow2(f.m + 1)
    ensures Shl(s, k) >= 0 && BitLength(Shl(s, k)) == f.m + 1 + k
  {
    ShlMono(Pow2(f.m), s, k);
    ShlMono(s, Pow2(f.m + 1), k);
    ShlPow2(f.m, k);
    ShlPow2(f.m + 1, k);
    BitLengthUnique(Shl(s, k), f.m + 1 + k);
  }

  lemma {:induction false} ZeroEncoding(f: Format, c: Float)
    requires Finite(f, c) && Mag(f, c) == 0
    ensures c == Float(c.sign, 0, 0)
  {
    MagInjective(f, c, Float(c.sign, 0, 0));
  }

  lemma {:induction false} AddNearestExact(f: Format, a: Float, b: Float, c: Float)
    requires ExactSum(f, a, b, c)
    ensures AddNearest(f, a, b) == c
  {
    if Units(f, c) == 0 {
      ZeroEncoding(f, c);
    } else {
      NearestOfExact(f, c, Mag(f, c), 0);
    }
  }

  // ---- rounded sums of one sign never fall below an operand

  /** A float's value along a sign; anything infinite or NaN is out of bounds. */
  predicate AtLeast(f: Format, sign: bool, x: Float, v: int)
  {
    Finite(f, x) ==> (if sign then 0 - Units(f, x) else Units(f, x)) >= v
  }

  lemma {:induction false} AddKeepsBound(f: Format, sign: bool, a: Float, b: Float, v: nat)
    requires f.m >= 1 && AtLeast(f, sign, a, 0) && AtLeast(f, sign, b, 0)
    requires AtLeast(f, sign, a, v) || AtLeast(f, sign, b, v)
    ensures AtLeast(f, sign, AddNearest(f, a, b), v) && AtLeast(f, sign, AddNearest(f, a, b), 0)
  {
    hide NearestEven, Mag, Pow2;
    var n := Units(f, a) + Units(f, b);
    if Finite(f, a) && Finite(f, b) && n != 0 {
      var c := NearestEven(f, n < 0, AbsOf(n), 0);
      if Finite(f, c) {
        NearestIsNearest(f, n < 0, AbsOf(n), 0, a);
        NearestIsNearest(f, n < 0, AbsOf(n), 0, b);
        assert Shl(Units(f, c), 0) == Units(f, c) && Shl(Units(f, a), 0) == Units(f, a) && Shl(Units(f, b), 0) == Units(f, b);
      }
    } else if Finite(f, a) && Finite(f, b) {
      ZeroMag(f, a.sign && b.sign);
    }
  }

  lemma {:induction false} ZeroMag(f: Format, sign: bool)
    ensures Mag(f, Float(sign, 0, 0)) == 0
  {
  }

  /** IEEE 754 addition and multiplication meet the assumption of the tree theorems. */
  lemma {:induction false} NearestIsExact(f: Format)
    requires f.e >= 1 && f.m >= 1
    ensures AddsExactly(f, (a, b) => AddNearest(f, a, b))
    ensures MultipliesExactly(f, (a, b) => MulNearest(f, a, b))
  {
    forall a, b, c | ExactSum(f, a, b, c)
      ensures AddNearest(f, a, b) == c
    {
      AddNearestExact(f, a, b, c);
    }
    forall a, b, c | ExactProduct(f, a, b, c)
      ensures MulNearest(f, a, b) == c
    {
      NearestOfExact(f, c, Mag(f, a) * Mag(f, b), Bias(f) + f.m - 1);
    }
  }
}
