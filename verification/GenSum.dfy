/** genSumXY of verifiable/verifiable.cu: every rank of a group computes, on its own, a target y
    and its share x of it. The main results say when the shares of the group add up to y. */
module GenSum {
  import opened Arith
  import opened Bits
  import opened ShuffleRank
  import opened Sums

  /** Integer division on the device; the quotient of a division by zero is left to the hardware. */
  function Quotient(a: nat, b: nat, divZero: nat): nat
  {
    if b == 0 then divZero else a / b
  }

  function WordSize(wide: bool): nat { if wide then TWO_64 else TWO_32 }

  // ---- the target

  /** A pseudo-random value in [0, n), for n > 0. */
  function Draw(rng: u64, n: nat, wide: bool): (d: nat)
    requires n < WordSize(wide)
    ensures n > 0 ==> d < n
    ensures n == 0 ==> d == 0
  {
    if wide then
      HighWordBelow(rng, n, TWO_64);
      Umul64Hi(rng, n)
    else
      HighWordBelow(rng % TWO_32, n, TWO_32);
      Umul32Hi(rng % TWO_32, n)
  }

  /** Each value of the range is drawn for some word, and a larger word never draws a smaller one. */
  lemma {:induction false} DrawnBy(d: nat, n: nat, wide: bool) returns (rng: u64)
    requires d < n < WordSize(wide)
    ensures Draw(rng, n, wide) == d
  {
    var a := HighWordOnto(d, n, WordSize(wide));
    rng := a;
  }

  lemma {:induction false} DrawMono(rng: u64, rng': u64, n: nat, wide: bool)
    requires n < WordSize(wide) && rng % WordSize(wide) <= rng' % WordSize(wide)
    ensures Draw(rng, n, wide) <= Draw(rng', n, wide)
  {
    HighWordMono(rng % WordSize(wide), rng' % WordSize(wide), n, WordSize(wide));
  }

  function YMin(yMax: nat): nat { (yMax + 1) / 2 }

  function FirstTarget(rng: u64, yMax: nat, wide: bool): (y: nat)
    requires 2 * yMax < WordSize(wide)
    ensures YMin(yMax) <= y <= yMax && yMax <= 2 * y
  {
    YMin(yMax) + Draw(rng, yMax / 2 + 1, wide)
  }

  /** Without avoid_y, every target in the upper half of the range is drawn for some word. */
  lemma {:induction false} FirstTargetDrawn(y: nat, yMax: nat, wide: bool) returns (rng: u64)
    requires 2 * yMax < WordSize(wide) && yMax <= 2 * y <= 2 * yMax
    ensures FirstTarget(rng, yMax, wide) == y
  {
    rng := DrawnBy(y - YMin(yMax), yMax / 2 + 1, wide);
  }

  /** The target drawn when `avoid_y` asks for one that differs from the given y. */
  function OtherTarget(rng: u64, yMax: nat, given: nat, wide: bool): (y: nat)
    requires 2 * yMax < WordSize(wide) && YMin(yMax) <= given <= yMax && yMax >= 2
    ensures YMin(yMax) < y <= yMax
  {
    OtherFrom(Draw(rng, yMax / 2, wide), yMax, given)
  }

  function OtherFrom(d: nat, yMax: nat, given: nat): (y: nat)
    requires YMin(yMax) <= given <= yMax && d < yMax / 2
    ensures YMin(yMax) < y <= yMax
  {
    var y1 := given + 1 + d;
    if y1 < YMin(yMax) || yMax < y1 then y1 - yMax / 2 else y1
  }

  /** The comment in the source says the returned y will not equal the given one. That holds
      exactly unless the largest possible draw is added to a y in the upper half. */
  lemma {:induction false} OtherTargetDiffers(rng: u64, yMax: nat, given: nat, wide: bool)
    requires 2 * yMax < WordSize(wide) && YMin(yMax) <= given <= yMax && yMax >= 2
    ensures OtherTarget(rng, yMax, given, wide) != given
       <==> given + yMax / 2 <= yMax || Draw(rng, yMax / 2, wide) != yMax / 2 - 1
  {
  }

  /** With avoid_y, every target above the lowest is drawn for some word, the given one included. */
  lemma {:induction false} OtherTargetDrawn(y: nat, yMax: nat, given: nat, wide: bool) returns (rng: u64)
    requires 2 * yMax < WordSize(wide) && YMin(yMax) <= given <= yMax && yMax >= 2
    requires YMin(yMax) < y <= yMax
    ensures OtherTarget(rng, yMax, given, wide) == y
  {
    rng := DrawnBy(if given < y then y - given - 1 else y + yMax / 2 - given - 1, yMax / 2, wide);
  }

  /** A random word for which the avoided target comes back: a 24-bit range and all bits set. */
  lemma {:induction false} OtherTargetCanRepeat()
    ensures OtherTarget(0xffff_ffff, 0xff_ffff, 0xff_ffff, false) == 0xff_ffff
  {
    assert 0xff_ffff / 2 == 0x7f_ffff;
    assert 0xffff_ffff * 0x7f_ffff / TWO_32 == 0x7f_fffe;
    assert Draw(0xffff_ffff, 0x7f_ffff, false) == 0x7f_fffe;
  }

  // ---- the shares

  /** The number of subsets the rn ranks are divided into, q being y/rn. */
  function PartsFor(rn: nat, q: nat): (pn: nat)
    requires rn > 0
    ensures 1 <= pn <= rn
  {
    if rn == 1 then 1
    else if q == 0 then rn
    else if rn < 2 * q - 1 then rn else 2 * q - 1
  }

  function PartCount(rn: nat, y: nat): (pn: nat)
    requires rn > 0
    ensures 1 <= pn <= rn
  {
    PartsFor(rn, y / rn)
  }

  /** pn*(pn+1)/2 in the word size chosen at compile time. */
  function PartSum(pn: nat, yMax: nat): nat
  {
    TimesNonNegative(pn, pn + 1);
    Times(pn, pn + 1) % (if yMax <= 0x7fff_ffff then TWO_32 else TWO_64) / 2
  }

  /** The number of ranks in each subset. */
  function PartSize(rn: nat, y: nat, yMax: nat, divZero: nat): nat
    requires rn > 0
  {
    var pn := PartCount(rn, y);
    var bySum := Quotient(y, PartSum(pn, yMax), divZero);
    if bySum < rn / pn then bySum else rn / pn
  }

  function BaseShare(r: nat, s: nat, pn: nat, divZero: nat): nat
  {
    if Quotient(r, s, divZero) < pn then 1 + Quotient(r, s, divZero) else 0
  }

  lemma {:induction false} NoOvershoot(rn: nat, y: nat, yMax: nat, divZero: nat)
    requires rn > 0
    ensures 0 <= Times(PartSize(rn, y, yMax, divZero), PartSum(PartCount(rn, y), yMax)) <= y
  {
    var s, p := PartSize(rn, y, yMax, divZero), PartSum(PartCount(rn, y), yMax);
    TimesIsProduct(s, p);
    if p > 0 {
      QuotientTimes(s, y, p);
    }
  }

  lemma {:induction false} QuotientTimes(s: nat, y: nat, p: nat)
    requires p > 0 && s <= y / p
    ensures 0 <= s * p <= y
  {
    MulMono(s, y / p, p);
    assert (y / p) * p <= y;
  }

  /** What rank r of rn contributes to the target y. */
  function Share(rn: nat, r: nat, y: nat, yMax: nat, divZero: nat): nat
    requires rn > 0
  {
    var pn, s := PartCount(rn, y), PartSize(rn, y, yMax, divZero);
    NoOvershoot(rn, y, yMax, divZero);
    BaseShare(r, s, pn, divZero) + (if r == rn - 1 then y - Times(s, PartSum(pn, yMax)) else 0)
  }

  /** The shares of the first m ranks. */
  function Shares(m: nat, rn: nat, y: nat, yMax: nat, divZero: nat): (xs: seq<int>)
    requires rn > 0
    ensures |xs| == m && forall r :: 0 <= r < m ==> xs[r] == Share(rn, r, y, yMax, divZero)
  {
    if m == 0 then [] else Shares(m - 1, rn, y, yMax, divZero) + [Share(rn, m - 1, y, yMax, divZero)]
  }

  // ---- sums of base shares, block by block

  function BaseSum(m: nat, s: nat, pn: nat, divZero: nat): nat
  {
    if m == 0 then 0 else BaseSum(m - 1, s, pn, divZero) + BaseShare(m - 1, s, pn, divZero)
  }

  lemma {:induction false} BlockOf(q: nat, t: nat, s: nat)
    requires t < s
    ensures Times(s, q) >= 0 && (Times(s, q) + t) / s == q
  {
    TimesIsProduct(s, q);
    var r := s * q + t;
    assert r == (r / s) * s + r % s && s * q == q * s;
    QuotientUnique(r / s, r % s, q, t, s);
  }

  /** The first q blocks of s ranks, and t ranks of the next. */
  lemma {:induction false} BlockSum(q: nat, t: nat, s: nat, pn: nat, divZero: nat)
    requires t <= s && s > 0 && (q < pn || (q == pn && t == 0))
    ensures Times(s, q) >= 0
    ensures BaseSum(Times(s, q) + t, s, pn, divZero) == Times(s, Triangle(q)) + Times(t, q + 1)
    decreases q, t
  {
    hide Times;
    TimesZero(q + 1);
    NextTimes(s, q);
    if t > 0 {
      BlockSum(q, t - 1, s, pn, divZero);
      BlockOf(q, t - 1, s);
      TimesSucc(t - 1, q + 1);
    } else if q > 0 {
      BlockSum(q - 1, s, s, pn, divZero);
      TimesPlus(s, Triangle(q - 1), q);
    }
  }

  lemma {:induction false} NextTimes(x: int, y: nat)
    ensures Times(x, y) == if y == 0 then 0 else Times(x, y - 1) + x
  {
  }

  lemma {:induction false} TimesZero(c: nat)
    ensures Times(0, c) == 0
  {
    TimesIsProduct(0, c);
  }

  lemma {:induction false} TimesSucc(x: int, c: nat)
    ensures Times(x + 1, c) == Times(x, c) + c
  {
    if c > 0 {
      TimesSucc(x, c - 1);
    }
  }

  lemma {:induction false} TimesPlus(x: int, a: nat, b: nat)
    ensures Times(x, a + b) == Times(x, a) + Times(x, b)
  {
    if b > 0 {
      TimesPlus(x, a, b - 1);
    }
  }

  /** Ranks past the last block contribute nothing. */
  lemma {:induction false} TailSum(m: nat, s: nat, pn: nat, divZero: nat)
    requires s > 0 && 0 <= Times(s, pn) <= m
    ensures BaseSum(m, s, pn, divZero) == Times(s, Triangle(pn))
    decreases m
  {
    if m == Times(s, pn) {
      BlockSum(pn, 0, s, pn, divZero);
      TimesZero(pn + 1);
    } else {
      TailSum(m - 1, s, pn, divZero);
      PastLastBlock(m - 1, s, pn);
    }
  }

  lemma {:induction false} PastLastBlock(r: nat, s: nat, pn: nat)
    requires s > 0 && Times(s, pn) <= r
    ensures r / s >= pn
  {
    TimesIsProduct(s, pn);
    var q := r / s;
    assert r == q * s + r % s && (q + 1) * s == q * s + s && pn * s == s * pn;
    if q < pn {
      MulMono(q + 1, pn, s);
    }
  }

  lemma {:induction false} SumOfShares(m: nat, rn: nat, y: nat, yMax: nat, divZero: nat)
    requires 0 < rn && m <= rn
    ensures Sum(Shares(m, rn, y, yMax, divZero))
         == BaseSum(m, PartSize(rn, y, yMax, divZero), PartCount(rn, y), divZero)
          + if m == rn then y - Times(PartSize(rn, y, yMax, divZero), PartSum(PartCount(rn, y), yMax)) else 0
  {
    if m > 0 {
      SumOfShares(m - 1, rn, y, yMax, divZero);
      SumSnoc(Shares(m - 1, rn, y, yMax, divZero), Share(rn, m - 1, y, yMax, divZero));
    }
  }

  // ---- when the group is small enough for its target

  lemma {:induction false} TriangleProduct(pn: nat)
    ensures Times(pn, pn + 1) == 2 * Triangle(pn)
  {
    TimesNonNegative(pn, pn + 1);
    TriangleTwice(pn);
    assert pn * (pn + 1) == pn * pn + pn;
  }

  lemma {:induction false} PartSumIsTriangle(pn: nat, yMax: nat)
    requires Times(pn, pn + 1) < TWO_32 || (yMax > 0x7fff_ffff && Times(pn, pn + 1) < TWO_64)
    ensures PartSum(pn, yMax) == Triangle(pn)
  {
    TriangleProduct(pn);
  }

  lemma {:induction false} PartProductBound(rn: nat, y: nat)
    requires 2 <= rn <= y
    ensures 0 <= Times(PartCount(rn, y), PartCount(rn, y) + 1) <= 2 * y
  {
    var pn, a := PartCount(rn, y), y / rn;
    QuotientPositive(y, rn);
    TimesNonNegative(pn, pn + 1);
    ProductBound(pn, rn, a, y);
  }

  lemma {:induction false} ProductBound(pn: nat, rn: nat, a: nat, y: nat)
    requires pn <= rn && pn + 1 <= 2 * a && a * rn <= y
    ensures pn * (pn + 1) <= 2 * y
  {
    MulMono(pn, rn, pn + 1);
    MulMono(pn + 1, 2 * a, rn);
    MulCommutes(rn, pn + 1);
    DoubleProduct(a, rn);
  }

  lemma {:induction false} PartSumSmall(rn: nat, y: nat, yMax: nat)
    requires 1 <= y <= yMax && rn < 0x8000_0000 && (rn == 1 || 2 <= rn <= y)
    ensures PartSum(PartCount(rn, y), yMax) == Triangle(PartCount(rn, y))
    ensures 1 <= Triangle(PartCount(rn, y)) <= y
  {
    var pn := PartCount(rn, y);
    TriangleProduct(pn);
    ProductBelow64(pn);
    if rn == 1 {
      assert Triangle(1) == 1 + Triangle(0);
    } else {
      PartProductBound(rn, y);
    }
    PartSumIsTriangle(pn, yMax);
  }

  lemma {:induction false} ProductBelow64(n: nat)
    requires n < 0x8000_0000
    ensures Times(n, n + 1) < TWO_64
  {
    TimesIsProduct(n, n + 1);
    MulMono(n, 0x8000_0000, n + 1);
  }

  /** With rn <= y the partition is never empty, never overshoots, and nothing wraps. */
  lemma {:induction false} PartitionFits(rn: nat, y: nat, yMax: nat, divZero: nat)
    requires 1 <= y <= yMax && rn < 0x8000_0000 && (rn == 1 || 2 <= rn <= y)
    ensures PartSum(PartCount(rn, y), yMax) == Triangle(PartCount(rn, y)) >= 1
    ensures PartSize(rn, y, yMax, divZero) >= 1
    ensures 0 <= Times(PartSize(rn, y, yMax, divZero), PartCount(rn, y)) <= rn
  {
    var pn := PartCount(rn, y);
    PartSumSmall(rn, y, yMax);
    QuotientPositive(y, PartSum(pn, yMax));
    QuotientPositive(rn, pn);
    TimesQuotient(PartSize(rn, y, yMax, divZero), rn, pn);
  }

  lemma {:induction false} TimesQuotient(s: nat, y: nat, p: nat)
    requires p > 0 && s <= y / p
    ensures 0 <= Times(s, p) <= y
  {
    QuotientTimes(s, y, p);
    TimesIsProduct(s, p);
  }

  /** The group is small enough for its target; or no subset gets a rank and the hardware's
      quotient x/0 is large (CUDA devices give all ones). Exactly then do the shares add up, see
      ShareSum. For 2^16 ranks and more the sum over the subsets may wrap, so it is compared. */
  predicate GroupFits(rn: nat, y: nat, yMax: nat, divZero: nat)
  {
    rn == 1 || rn <= y || (PartSum(rn, yMax) > y && divZero >= rn)
  }

  /** Below 2^16 ranks nothing wraps. */
  lemma {:induction false} FitsWhenQuotientLarge(rn: nat, y: nat, yMax: nat, divZero: nat)
    requires 0 < rn < 0x1_0000 && divZero >= rn
    ensures GroupFits(rn, y, yMax, divZero)
  {
    OversizedPartSum(rn, yMax);
  }

  /** How a group of at least two ranks that fits spreads its target: in 2*(y/rn) - 1 parts, or one for
      each rank if that is fewer, each of as many ranks as the ranks and the target allow. Part after
      part submits 1, 2, 3 and so on, and the last rank adds what is missing. */
  lemma {:induction false} SharesSpread(rn: nat, r: nat, y: nat, yMax: nat, divZero: nat)
    requires 2 <= rn <= y <= yMax && rn < 0x8000_0000 && r < rn
    ensures var odd := 2 * (y / rn) - 1; var parts := if rn < odd then rn else odd;
      && 1 <= parts && 1 <= Triangle(parts) <= y && 2 * Triangle(parts) == parts * parts + parts
      && var size := if y / Triangle(parts) < rn / parts then y / Triangle(parts) else rn / parts;
        && size >= 1 && size * parts <= rn && size * Triangle(parts) <= y
        && Share(rn, r, y, yMax, divZero)
           == (if r < size * parts then 1 + r / size else 0) + (if r == rn - 1 then y - size * Triangle(parts) else 0)
  {
    hide PartSum, Times, Triangle;
    QuotientPositive(y, rn);
    PartSumSmall(rn, y, yMax);
    PartitionFits(rn, y, yMax, divZero);
    var parts := PartCount(rn, y);
    var size := PartSize(rn, y, yMax, divZero);
    TriangleTwice(parts);
    TimesIsProduct(size, parts);
    TimesIsProduct(size, Triangle(parts));
    NoOvershoot(rn, y, yMax, divZero);
    PartOfRank(r, size, parts);
  }

  lemma {:induction false} PartOfRank(r: nat, size: nat, parts: nat)
    requires size > 0
    ensures 0 <= r / size && (r / size < parts <==> r < size * parts)
  {
    QuotientBounds(r, size);
    assert size * parts == parts * size;
    assert (r / size + 1) * size == (r / size) * size + size;
    if r / size < parts {
      MulMono(r / size + 1, parts, size);
    } else {
      MulMono(parts, r / size, size);
    }
  }

  lemma {:induction false} FittingSum(rn: nat, y: nat, yMax: nat, divZero: nat)
    requires 0 < rn < 0x8000_0000 && 1 <= y <= yMax && (rn == 1 || rn <= y)
    ensures BaseSum(rn, PartSize(rn, y, yMax, divZero), PartCount(rn, y), divZero)
         == Times(PartSize(rn, y, yMax, divZero), PartSum(PartCount(rn, y), yMax))
  {
    PartitionFits(rn, y, yMax, divZero);
    TailSum(rn, PartSize(rn, y, yMax, divZero), PartCount(rn, y), divZero);
  }

  /** Conservation: the shares of the group add up to the target. */
  lemma {:induction false} ShareSumExact(rn: nat, y: nat, yMax: nat, divZero: nat)
    requires 0 < rn < 0x8000_0000 && 1 <= y <= yMax && GroupFits(rn, y, yMax, divZero)
    ensures Sum(Shares(rn, rn, y, yMax, divZero)) == y
  {
    SumOfShares(rn, rn, y, yMax, divZero);
    if rn == 1 || rn <= y {
      FittingSum(rn, y, yMax, divZero);
      hide Sum, Shares, PartSize, PartSum, PartCount, BaseSum;
    } else {
      OversizedSize(rn, y, yMax, divZero);
      OversizedSum(rn, rn, y, yMax, divZero);
      TimesZero(rn);
      hide Sum, Shares, PartSize, PartSum, PartCount, BaseSum;
    }
  }

  /** More ranks than units of y: one subset a rank. No subset gets a rank when the sum over the
      subsets exceeds y (or is 0 and the quotient by it is too); otherwise each gets one. */
  lemma {:induction false} OversizedSize(rn: nat, y: nat, yMax: nat, divZero: nat)
    requires 1 <= y < rn
    ensures PartCount(rn, y) == rn
    ensures PartSize(rn, y, yMax, divZero)
         == if PartSum(rn, yMax) > y || (PartSum(rn, yMax) == 0 && divZero == 0) then 0 else 1
  {
    hide PartSum, Times;
    var p := PartSum(rn, yMax);
    assert y / rn == 0 && rn / rn == 1;
    if p > y {
      assert y / p == 0;
    } else if p > 0 {
      QuotientPositive(y, p);
    }
  }

  /** One rank a subset: the base shares are 1, 2, 3 and so on. */
  lemma {:induction false} SinglesSum(m: nat, pn: nat, divZero: nat)
    requires m <= pn
    ensures BaseSum(m, 1, pn, divZero) == Triangle(m)
  {
    if m > 0 {
      SinglesSum(m - 1, pn, divZero);
      assert Quotient(m - 1, 1, divZero) == m - 1;
    }
  }

  lemma {:induction false} OversizedPartSum(rn: nat, yMax: nat)
    requires 0 < rn < 0x1_0000
    ensures PartSum(rn, yMax) >= rn
  {
    TimesNonNegative(rn, rn + 1);
    Square16(rn);
    PartSumIsTriangle(rn, yMax);
  }

  lemma {:induction false} Square16(n: nat)
    requires n < 0x1_0000
    ensures n * (n + 1) < TWO_32
  {
    MulMono(n, 0xffff, n + 1);
  }

  /** In a group that is too large for its target, the last rank alone exceeds the target. */
  lemma {:induction false} LastShareExceeds(rn: nat, y: nat, yMax: nat, divZero: nat)
    requires 0 < rn && 1 <= y && !GroupFits(rn, y, yMax, divZero)
    ensures Share(rn, rn - 1, y, yMax, divZero) > y
  {
    hide PartSum, PartCount, PartSize, Times;
    OversizedSize(rn, y, yMax, divZero);
    NoOvershoot(rn, y, yMax, divZero);
    TimesZero(PartSum(rn, yMax));
    TimesIsProduct(1, PartSum(rn, yMax));
    assert Quotient(rn - 1, 1, divZero) == rn - 1 && Quotient(rn - 1, 0, divZero) == divZero;
  }

  lemma {:induction false} OversizedSum(m: nat, rn: nat, y: nat, yMax: nat, divZero: nat)
    requires m <= rn && 1 <= y < rn
    ensures BaseSum(m, 0, PartCount(rn, y), divZero) == Times(if divZero < rn then 1 + divZero else 0, m)
    ensures Times(0, PartSum(PartCount(rn, y), yMax)) == 0
  {
    OversizedSize(rn, y, yMax, divZero);
    TimesZero(PartSum(PartCount(rn, y), yMax));
    if m > 0 {
      OversizedSum(m - 1, rn, y, yMax, divZero);
    }
  }

  /** The shares add up exactly when the group fits. */
  lemma {:induction false} ShareSum(rn: nat, y: nat, yMax: nat, divZero: nat)
    requires 0 < rn < 0x8000_0000 && 1 <= y <= yMax
    ensures Sum(Shares(rn, rn, y, yMax, divZero)) == y <==> GroupFits(rn, y, yMax, divZero)
  {
    if GroupFits(rn, y, yMax, divZero) {
      ShareSumExact(rn, y, yMax, divZero);
    } else {
      OversizedMisses(rn, y, yMax, divZero);
    }
  }

  /** A group that does not fit does not reach its target. */
  lemma {:induction false} OversizedMisses(rn: nat, y: nat, yMax: nat, divZero: nat)
    requires 0 < rn && 1 <= y <= yMax && !GroupFits(rn, y, yMax, divZero)
    ensures Sum(Shares(rn, rn, y, yMax, divZero)) > y
  {
    var p := PartSum(rn, yMax);
    SumOfShares(rn, rn, y, yMax, divZero);
    OversizedSize(rn, y, yMax, divZero);
    OversizedSum(rn, rn, y, yMax, divZero);
    hide Sum, Shares, PartSize, PartSum, PartCount, BaseSum;
    if p > y || (p == 0 && divZero == 0) {
      TimesNonNegative(1 + divZero, rn);
      MulMono(1, 1 + divZero, rn);
    } else {
      SinglesSum(rn, rn, divZero);
      OneTimes(p);
      assert Triangle(rn) == rn + Triangle(rn - 1);
    }
  }

  lemma {:induction false} OneTimes(p: nat)
    ensures Times(1, p) == p
  {
    TimesIsProduct(1, p);
  }

  /** A failing group: three ranks are to share 2, and the hardware divides by zero to zero. */
  lemma {:induction false} ShareSumCanMiss()
    ensures Sum(Shares(3, 3, 2, 3, 0)) == 5 && YMin(3) <= 2 <= 3
  {
    SumOfShares(3, 3, 2, 3, 0);
    OversizedSize(3, 2, 3, 0);
    OversizedPartSum(3, 3);
    OversizedSum(3, 3, 2, 3, 0);
    TimesIsProduct(1, 3);
  }

  /** No share exceeds the target. */
  lemma {:induction false} ShareBound(rn: nat, r: nat, y: nat, yMax: nat, divZero: nat)
    requires 0 < rn < 0x8000_0000 && 1 <= y <= yMax && GroupFits(rn, y, yMax, divZero) && r < rn
    ensures Share(rn, r, y, yMax, divZero) <= y
  {
    ShareSumExact(rn, y, yMax, divZero);
    SumNonNegative(Shares(rn, rn, y, yMax, divZero));
  }

  // ---- the source's statements, on wrapping words

  method GenSumXY(rankN: nat, rankMe: nat, rng: u64, yMax: nat, yIn: nat, avoidY: bool, wide: bool, divZero: u32)
    returns (rng': u64, x: nat, y: nat)
    requires 0 < rankN < 0x8000_0000 && rankMe < TWO_32 && 1 <= yMax && 2 * yMax < WordSize(wide)
    requires !wide ==> yMax <= 0x7fff_ffff
    requires avoidY ==> yMax >= 2 && YMin(yMax) <= yIn <= yMax
    ensures rng' == MixBits(rng)
    ensures y == if avoidY then OtherTarget(rng, yMax, yIn, wide) else FirstTarget(rng, yMax, wide)
    ensures x == Share(rankN, rankMe, y, yMax, divZero)
  {
    y := PickTarget(rng, yMax, yIn, avoidY, wide);
    rng' := MixBits(rng);

    x := SubmitShare(rankN, rankMe, y, yMax, wide, divZero);
  }

  method SubmitShare(rn: nat, r: nat, y: nat, yMax: nat, wide: bool, divZero: u32) returns (x: nat)
    requires 0 < rn < 0x8000_0000 && r < TWO_32 && 2 * y < WordSize(wide)
    ensures x == Share(rn, r, y, yMax, divZero)
  {
    QuotientLe(y, rn);
    var pn := CountParts(rn, y / rn, wide);
    var pSum := SumParts(pn, yMax);
    var bySum, byCount := Quotient(y, pSum, divZero), rn / pn;
    var s := if bySum < byCount then bySum else byCount;
    x := if Quotient(r, s, divZero) < pn then 1 + Quotient(r, s, divZero) else 0;
    NoOvershoot(rn, y, yMax, divZero);
    TimesIsProduct(s, pSum);
    var rest := Unsigned(y - s * pSum, wide);
    x := Unsigned(x + if r == rn - 1 then rest else 0, wide);
  }

  /** Truncation to the unsigned type of the source. */
  method Unsigned(x: int, wide: bool) returns (u: nat)
    requires 0 <= x + WordSize(wide)
    ensures 0 <= x < WordSize(wide) ==> u == x
    ensures x < 0 ==> u == x + WordSize(wide)
    ensures u < WordSize(wide)
  {
    if wide {
      u := x % TWO_64;
    } else {
      u := x % TWO_32;
    }
  }

  method CountParts(rn: nat, q: nat, wide: bool) returns (pn: nat)
    requires 0 < rn < 0x8000_0000 && 2 * q < WordSize(wide)
    ensures pn == PartsFor(rn, q)
  {
    pn := Unsigned(2 * q - 1, wide);
    pn := if rn == 1 then 1 else pn;
    pn := if pn == 0 then 1 else pn;
    pn := if rn < pn then rn else pn;
  }

  method SumParts(pn: nat, yMax: nat) returns (pSum: nat)
    ensures pSum == PartSum(pn, yMax)
  {
    TimesNonNegative(pn, pn + 1);
    if yMax <= 0x7fff_ffff {
      pSum := pn * (pn + 1) % TWO_32 / 2;
    } else {
      pSum := pn * (pn + 1) % TWO_64 / 2;
    }
  }

  method PickTarget(rng: u64, yMax: nat, yIn: nat, avoidY: bool, wide: bool) returns (y: nat)
    requires 1 <= yMax && 2 * yMax < WordSize(wide)
    requires avoidY ==> yMax >= 2 && YMin(yMax) <= yIn <= yMax
    ensures y == if avoidY then OtherTarget(rng, yMax, yIn, wide) else FirstTarget(rng, yMax, wide)
    ensures YMin(yMax) <= y <= yMax
  {
    var d := Draw(rng, yMax / 2 + (if avoidY then 0 else 1), wide);
    y := AddTarget(d, yMax, yIn, avoidY, wide);
  }

  method AddTarget(d: nat, yMax: nat, yIn: nat, avoidY: bool, wide: bool) returns (y: nat)
    requires 1 <= yMax && 2 * yMax < WordSize(wide) && d <= yMax / 2
    requires avoidY ==> yMax >= 2 && YMin(yMax) <= yIn <= yMax && d < yMax / 2
    ensures y == if avoidY then OtherFrom(d, yMax, yIn) else YMin(yMax) + d
    ensures YMin(yMax) <= y <= yMax
  {
    var yMin := Unsigned(yMax + 1, wide);
    yMin := yMin / 2;
    var y1 := Unsigned((if avoidY then yIn + 1 else yMin) + d, wide);
    y := Unsigned(y1 - (if avoidY && (y1 < yMin || yMax < y1) then yMax / 2 else 0), wide);
  }
}
