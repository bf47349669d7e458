/** genInOutFloatPreMulSum of verifiable/verifiable.cu: rank r multiplies its input by 1 (even r)
    or 2 (odd r) before the sum. */
module FloatPreMulSum {
  import opened Bits
  import opened Sums
  import opened ShuffleRank
  import opened Hashing
  import opened GenSum
  import opened Floats
  import opened ReductionTree
  import opened ExactData

  datatype Draft = Draft(sign: bool, exp: nat, evenRng: u64, oddRng: u64, y0: nat, y1: nat)

  function DraftFor(f: Format, seed: u64, index: u64): (d: Draft)
    requires ValidFormat(f)
  {
    MantissaFits(f);
    var rng0 := HashOf(seed, index);
    var rng1 := MixBits(rng0);
    var rng2 := MixBits(rng1);
    var rng3 := MixBits(rng2);
    var rng4 := MixBits(rng3);
    Draft(rng0 % 2 == 1, CommonExponent(f, rng0), rng1, rng2,
          FirstTarget(rng3, MaxMant(f) / 2, Wide(f)), FirstTarget(rng4, MaxMant(f) / 4, Wide(f)))
  }

  /** For every index, either sign occurs with every exponent, and every target of the first group
      occurs, each for some seed. */
  lemma {:induction false} DraftsOccur(f: Format, index: u64, sign: bool, exp: nat, y: nat)
    requires ValidFormat(f) && ExponentOk(f, exp) && MaxMant(f) / 2 <= 2 * y <= 2 * (MaxMant(f) / 2)
    ensures exists seed: u64 :: DraftFor(f, seed, index).sign == sign && DraftFor(f, seed, index).exp == exp
    ensures exists seed: u64 :: DraftFor(f, seed, index).y0 == y
  {
    hide HashOf, MixBits, CommonExponent, FirstTarget, MaxMant, Unhash, Unmix;
    var w := ExponentDrawn(f, exp, sign);
    HashIsPermutation(0, w, index);
    assert DraftFor(f, Unhash(w, index), index).sign == sign && DraftFor(f, Unhash(w, index), index).exp == exp;
    MantissaFits(f);
    var v := FirstTargetDrawn(y, MaxMant(f) / 2, Wide(f));
    MixIsPermutation(0, v);
    MixIsPermutation(0, Unmix(v));
    MixIsPermutation(0, Unmix(Unmix(v)));
    HashIsPermutation(0, Unmix(Unmix(Unmix(v))), index);
    assert DraftFor(f, Unhash(Unmix(Unmix(Unmix(v))), index), index).y0 == y;
  }

  predicate ValidDraft(f: Format, d: Draft)
  {
    ExponentOk(f, d.exp) && MaxMant(f) >= 7
    && 1 <= d.y0 <= MaxMant(f) / 2 && 1 <= d.y1 <= MaxMant(f) / 4
  }

  lemma {:induction false} DraftIsValid(f: Format, seed: u64, index: u64)
    requires ValidFormat(f)
    ensures ValidDraft(f, DraftFor(f, seed, index))
  {
    MantissaFits(f);
  }

  /** The share of the i-th rank of a group; the second group of a single rank is empty. */
  function GroupShare(g: nat, i: nat, y: nat, yMax: nat, rng: u64, divZero: nat): nat
  {
    if g == 0 then 0 else Share(g, Shuffled(g, i, rng), y, yMax, divZero)
  }

  /** The integer rank submits, before the pre-multiplication. */
  function Submission(f: Format, d: Draft, n: nat, rank: nat, divZero: nat): nat
  {
    if rank % 2 == 0
    then GroupShare((n + 1) / 2, rank / 2, d.y0, MaxMant(f) / 2, d.evenRng, divZero)
    else GroupShare(n / 2, rank / 2, d.y1, MaxMant(f) / 4, d.oddRng, divZero)
  }

  function InputOf(f: Format, d: Draft, n: nat, rank: nat, divZero: nat): Float
  {
    FloatOf(f, d.sign, d.exp, Submission(f, d, n, rank, divZero))
  }

  /** What the ranks submit in all, after the pre-multiplication. */
  function Target(d: Draft, n: nat): nat
  {
    d.y0 + 2 * (if n / 2 == 0 then 0 else d.y1)
  }

  function OutputOf(f: Format, d: Draft, n: nat): Float
  {
    FloatOf(f, d.sign, d.exp, Target(d, n))
  }

  /** The local scalar of a rank: 1.0 for even ranks and 2.0 for odd ones. */
  function Scalar(f: Format, rank: nat): Float
    requires f.e >= 1
  {
    Float(false, Bias(f) + rank % 2, 0)
  }

  /** The inputs of the first m ranks after the pre-multiplication. */
  function Scaled(m: nat, f: Format, d: Draft, n: nat, divZero: nat, mul: (Float, Float) -> Float): (xs: seq<Float>)
    requires f.e >= 1
    ensures |xs| == m && forall r :: 0 <= r < m ==> xs[r] == mul(InputOf(f, d, n, r, divZero), Scalar(f, r))
  {
    hide InputOf, Scalar;
    if m == 0 then []
    else Scaled(m - 1, f, d, n, divZero, mul) + [mul(InputOf(f, d, n, m - 1, divZero), Scalar(f, m - 1))]
  }

  predicate GroupsFit(f: Format, d: Draft, n: nat, divZero: nat)
  {
    GroupFits((n + 1) / 2, d.y0, MaxMant(f) / 2, divZero) && GroupFits(n / 2, d.y1, MaxMant(f) / 4, divZero)
  }

  /** Groups of at most a quarter of 2^m ranks always fit; with x/0 all ones, so do fewer than 2^16. */
  lemma {:induction false} GroupsFitWhenSmall(f: Format, n: nat, seed: u64, index: u64, divZero: nat)
    requires ValidFormat(f) && n >= 1
    requires 4 * ((n + 1) / 2) <= Pow2(f.m) || ((n + 1) / 2 < 0x1_0000 && divZero == 0xffff_ffff)
    ensures GroupsFit(f, DraftFor(f, seed, index), n, divZero)
  {
    DraftIsValid(f, seed, index);
    var d := DraftFor(f, seed, index);
    hide DraftFor, PartSum;
    if 4 * ((n + 1) / 2) > Pow2(f.m) {
      FitsWhenQuotientLarge((n + 1) / 2, d.y0, MaxMant(f) / 2, divZero);
      if n / 2 > 0 {
        FitsWhenQuotientLarge(n / 2, d.y1, MaxMant(f) / 4, divZero);
      }
    }
  }

  // ---- totals

  function Weight(r: nat): nat { 1 + r % 2 }

  /** What the first m ranks contribute after the pre-multiplication. */
  function Weighted(m: nat, f: Format, d: Draft, n: nat, divZero: nat): (ks: seq<int>)
    ensures |ks| == m && forall r :: 0 <= r < m ==> ks[r] == Weight(r) * Submission(f, d, n, r, divZero)
  {
    if m == 0 then []
    else Weighted(m - 1, f, d, n, divZero) + [Weight(m - 1) * Submission(f, d, n, m - 1, divZero)]
  }

  /** The first m ranks, sorted into the two groups. */
  lemma {:induction false} WeightedSum(m: nat, f: Format, d: Draft, n: nat, divZero: nat)
    requires m <= n
    ensures Sum(Weighted(m, f, d, n, divZero))
         == Sum(GroupShares((m + 1) / 2, (n + 1) / 2, d.y0, MaxMant(f) / 2, d.evenRng, divZero))
          + 2 * Sum(GroupShares(m / 2, n / 2, d.y1, MaxMant(f) / 4, d.oddRng, divZero))
  {
    hide Sum, GroupShare, Weighted, GroupShares, MaxMant;
    if m == 0 {
      SumZeros(0);
      assert Zeros(0) == Weighted(0, f, d, n, divZero);
      assert Zeros(0) == GroupShares(0, (n + 1) / 2, d.y0, MaxMant(f) / 2, d.evenRng, divZero);
      assert Zeros(0) == GroupShares(0, n / 2, d.y1, MaxMant(f) / 4, d.oddRng, divZero);
    } else {
      WeightedSum(m - 1, f, d, n, divZero);
      WeightedLast(m, f, d, n, divZero);
      GroupSharesLast(m, (n + 1) / 2, d.y0, MaxMant(f) / 2, d.evenRng, divZero);
      GroupSharesLast(m - 1, n / 2, d.y1, MaxMant(f) / 4, d.oddRng, divZero);
    }
  }

  lemma {:induction false} WeightedLast(m: nat, f: Format, d: Draft, n: nat, divZero: nat)
    requires 0 < m
    ensures var x := Submission(f, d, n, m - 1, divZero);
      Sum(Weighted(m, f, d, n, divZero)) == Sum(Weighted(m - 1, f, d, n, divZero)) + if m % 2 == 1 then x else 2 * x
  {
    hide Sum, Submission;
    WeightTimes(m - 1, Submission(f, d, n, m - 1, divZero));
    SumSnoc(Weighted(m - 1, f, d, n, divZero), Weight(m - 1) * Submission(f, d, n, m - 1, divZero));
  }

  lemma {:induction false} WeightTimes(r: nat, x: nat)
    ensures Weight(r) * x == if r % 2 == 0 then x else 2 * x
  {
  }

  /** The shares of the first h members of a group, in rank order. */
  function GroupShares(h: nat, g: nat, y: nat, yMax: nat, rng: u64, divZero: nat): (xs: seq<int>)
    ensures |xs| == h && forall i :: 0 <= i < h ==> xs[i] == GroupShare(g, i, y, yMax, rng, divZero)
  {
    if h == 0 then [] else GroupShares(h - 1, g, y, yMax, rng, divZero) + [GroupShare(g, h - 1, y, yMax, rng, divZero)]
  }

  lemma {:induction false} GroupSharesLast(m: nat, g: nat, y: nat, yMax: nat, rng: u64, divZero: nat)
    ensures Sum(GroupShares((m + 1) / 2, g, y, yMax, rng, divZero))
         == Sum(GroupShares(m / 2, g, y, yMax, rng, divZero))
          + if m % 2 == 0 then 0 else GroupShare(g, m / 2, y, yMax, rng, divZero)
  {
    hide Sum, GroupShare;
    if m % 2 == 1 {
      assert (m + 1) / 2 == m / 2 + 1;
      SumSnoc(GroupShares(m / 2, g, y, yMax, rng, divZero), GroupShare(g, m / 2, y, yMax, rng, divZero));
    }
  }

  /** A whole group adds up to its target, in whatever order its shares are handed out. */
  lemma {:induction false} GroupTotal(g: nat, y: nat, yMax: nat, rng: u64, divZero: nat)
    requires g < 0x8000_0000 && 1 <= y <= yMax && GroupFits(g, y, yMax, divZero)
    ensures Sum(GroupShares(g, g, y, yMax, rng, divZero)) == if g == 0 then 0 else y
  {
    hide Sum, Share, Shuffled;
    if g == 0 {
      SumOfNothing();
      return;
    }
    var p := ShuffledRanks(g, g, rng);
    ShuffleIsPermutation(g, rng);
    assert GroupShares(g, g, y, yMax, rng, divZero) == Pick(p, Shares(g, g, y, yMax, divZero));
    SumOfPermutation(p, Shares(g, g, y, yMax, divZero));
    ShareSumExact(g, y, yMax, divZero);
  }

  lemma {:induction false} WeightedTotal(f: Format, d: Draft, n: nat, divZero: nat)
    requires ValidDraft(f, d) && 1 <= n < 0x8000_0000 && GroupsFit(f, d, n, divZero)
    ensures Sum(Weighted(n, f, d, n, divZero)) == Target(d, n) <= MaxMant(f)
  {
    hide Sum, Weighted, GroupShares;
    WeightedSum(n, f, d, n, divZero);
    GroupTotal((n + 1) / 2, d.y0, MaxMant(f) / 2, d.evenRng, divZero);
    GroupTotal(n / 2, d.y1, MaxMant(f) / 4, d.oddRng, divZero);
  }

  // ---- the pre-multiplication is exact

  lemma {:induction false} ScalarMag(f: Format, rank: nat)
    requires ValidFormat(f)
    ensures Finite(f, Scalar(f, rank))
    ensures Mag(f, Scalar(f, rank)) == Shl(1, f.m + Bias(f) + rank % 2 - 1)
  {
    Pow2Mono(1, f.e - 1);
    assert Pow2(1) == 2;
    Pow2Mono(0, f.m);
    ShlPow2(0, f.m);
    ShlShl(1, f.m, Bias(f) + rank % 2 - 1);
  }

  lemma {:induction false} BiasRange(f: Format)
    requires ValidFormat(f)
    ensures Bias(f) >= 1 && 3 <= Pow2(f.e)
  {
    Pow2Mono(1, f.e - 1);
    assert Pow2(1) == 2;
  }

  lemma {:induction false} ScaledExactly(f: Format, sign: bool, exp: nat, k: nat, rank: nat)
    requires ValidFormat(f) && ExponentOk(f, exp) && Weight(rank) * k <= MaxMant(f)
    ensures k > 0 ==> ExactProduct(f, FloatOf(f, sign, exp, k), Scalar(f, rank), FloatOf(f, sign, exp, Weight(rank) * k))
    ensures k == 0 ==> ExactProduct(f, FloatOf(f, sign, exp, k), Scalar(f, rank), POSITIVE_ZERO)
  {
    hide FloatOf, Finite, Mag, Pow2, Bias, Shl, MaxMant;
    BiasRange(f);
    ScalarMag(f, rank);
    EncodedFloat(f, sign, exp, k);
    EncodedFloat(f, sign, exp, Weight(rank) * k);
    var b := Bias(f) + f.m - 1;
    ShlMul(k, 1, exp - 1, b + rank % 2);
    ShlShl(Weight(rank) * k, exp - 1, b);
    DoubleShl(k, exp - 1 + b, rank);
    MagOfZero(f);
  }

  lemma {:induction false} MagOfZero(f: Format)
    ensures Mag(f, POSITIVE_ZERO) == 0 && Finite(f, POSITIVE_ZERO) == (1 < Pow2(f.e))
    ensures forall j :: Shl(0, j) == 0
  {
    forall j: nat
      ensures Shl(0, j) == 0
    {
      ShlZero(j);
    }
  }

  /** Doubling a value is one more shift. */
  lemma {:induction false} DoubleShl(k: nat, j: nat, rank: nat)
    ensures Shl(Weight(rank) * k, j) == Shl(k, j + rank % 2)
  {
    if rank % 2 == 1 {
      ShlAdd(k, k, j);
    }
  }

  lemma {:induction false} EncodedFloat(f: Format, sign: bool, exp: nat, k: nat)
    requires ExponentOk(f, exp) && k <= MaxMant(f)
    ensures Finite(f, FloatOf(f, sign, exp, k)) && Mag(f, FloatOf(f, sign, exp, k)) == Shl(k, exp - 1)
    ensures FloatOf(f, sign, exp, k).sign == (k > 0 && sign)
    ensures k == 0 ==> FloatOf(f, sign, exp, k) == POSITIVE_ZERO
  {
    FloatOfValue(f, sign, exp, k);
  }

  lemma {:induction false} PreMulRounds(f: Format, d: Draft, n: nat, divZero: nat, mul: (Float, Float) -> Float, r: nat)
    requires ValidFormat(f) && ValidDraft(f, d) && MultipliesExactly(f, mul) && r < n
    requires Weight(r) * Submission(f, d, n, r, divZero) <= MaxMant(f)
    ensures mul(InputOf(f, d, n, r, divZero), Scalar(f, r))
         == FloatOf(f, d.sign, d.exp, Weight(r) * Submission(f, d, n, r, divZero))
    ensures ExactProduct(f, InputOf(f, d, n, r, divZero), Scalar(f, r), mul(InputOf(f, d, n, r, divZero), Scalar(f, r)))
  {
    hide Submission, ExactProduct, Scalar;
    ScaledExactly(f, d.sign, d.exp, Submission(f, d, n, r, divZero), r);
    EncodedFloat(f, d.sign, d.exp, Weight(r) * Submission(f, d, n, r, divZero));
  }

  lemma {:induction false} ScaledEncode(f: Format, d: Draft, n: nat, divZero: nat, mul: (Float, Float) -> Float)
    requires ValidFormat(f) && ValidDraft(f, d) && 1 <= n < 0x8000_0000 && GroupsFit(f, d, n, divZero)
    requires MultipliesExactly(f, mul)
    ensures Encodes(f, d.sign, d.exp, Scaled(n, f, d, n, divZero, mul), Weighted(n, f, d, n, divZero), Zeros(n))
    ensures forall r :: 0 <= r < n ==>
              ExactProduct(f, InputOf(f, d, n, r, divZero), Scalar(f, r), Scaled(n, f, d, n, divZero, mul)[r])
  {
    hide Submission, ExactProduct, Scalar, Sum, InputOf, FloatOf, GroupsFit, AddsExactly, MultipliesExactly, Scaled, Weighted,
      ValidDraft, MaxMant, Pow2;
    forall r | 0 <= r < n
      ensures Weighted(n, f, d, n, divZero)[r] >= 0
      ensures Scaled(n, f, d, n, divZero, mul)[r] == FloatOf(f, d.sign, d.exp, Weighted(n, f, d, n, divZero)[r])
      ensures ExactProduct(f, InputOf(f, d, n, r, divZero), Scalar(f, r), Scaled(n, f, d, n, divZero, mul)[r])
    {
      WeightedBound(f, d, n, divZero, r);
      PreMulRounds(f, d, n, divZero, mul, r);
    }
  }

  lemma {:induction false} WeightedBound(f: Format, d: Draft, n: nat, divZero: nat, r: nat)
    requires ValidDraft(f, d) && 1 <= n < 0x8000_0000 && GroupsFit(f, d, n, divZero) && r < n
    ensures 0 <= Weight(r) * Submission(f, d, n, r, divZero) <= MaxMant(f)
  {
    hide Submission, Sum, GroupsFit;
    WeightedTotal(f, d, n, divZero);
    SumNonNegative(Weighted(n, f, d, n, divZero));
    assert Weighted(n, f, d, n, divZero)[r] == Weight(r) * Submission(f, d, n, r, divZero);
  }

  /** After the pre-multiplication, itself exact on every rank, every reduction tree is exact at
      every node and ends in the generated output. */
  lemma {:induction false} PreMulSumIsExact(f: Format, n: nat, seed: u64, index: u64, divZero: nat,
                                            mul: (Float, Float) -> Float, add: (Float, Float) -> Float, t: Tree)
    requires ValidFormat(f) && 1 <= n < 0x8000_0000 && GroupsFit(f, DraftFor(f, seed, index), n, divZero)
    requires MultipliesExactly(f, mul) && AddsExactly(f, add) && ReducesAll(t, n)
    ensures Below(t, n)
    ensures Eval(t, add, Scaled(n, f, DraftFor(f, seed, index), n, divZero, mul)) == OutputOf(f, DraftFor(f, seed, index), n)
    ensures SumsExactly(f, t, add, Scaled(n, f, DraftFor(f, seed, index), n, divZero, mul))
    ensures forall r :: 0 <= r < n ==>
              ExactProduct(f, InputOf(f, DraftFor(f, seed, index), n, r, divZero), Scalar(f, r),
                           Scaled(n, f, DraftFor(f, seed, index), n, divZero, mul)[r])
  {
    hide DraftFor, Sum, Weighted, Scaled, Encodes, ExactProduct, InputOf, Scalar, FloatOf;
    var d := DraftFor(f, seed, index);
    DraftIsValid(f, seed, index);
    ScaledEncode(f, d, n, divZero, mul);
    WeightedTotal(f, d, n, divZero);
    ExactReductionByRank(f, d.sign, d.exp, t, add, Scaled(n, f, d, n, divZero, mul), Weighted(n, f, d, n, divZero));
  }

  // ---- the source's statements: an input packs, with a shift by at least 0, when its mantissa fits
  // the format; SubmissionBound says that every input does when the groups fit

  method GenInOutFloatPreMulSum(f: Format, inputNotOutput: bool, rankN: nat, rankMe: nat, seed: u64, index: u64,
                                divZero: u32) returns (ans: Float)
    requires ValidFormat(f) && 1 <= rankN < 0x8000_0000 && rankMe < rankN
    requires inputNotOutput ==> Submission(f, DraftFor(f, seed, index), rankN, rankMe, divZero) <= MaxMant(f)
    ensures ans == if inputNotOutput then InputOf(f, DraftFor(f, seed, index), rankN, rankMe, divZero)
                   else OutputOf(f, DraftFor(f, seed, index), rankN)
  {
    hide HashOf, MixBits, Share, FirstTarget, FloatOf, Shuffled, MaxMant, Pow2, ValidDraft, CommonExponent;
    MantissaFits(f);
    DraftIsValid(f, seed, index);
    ghost var d := DraftFor(f, seed, index);
    var rng := HashOf(seed, index);
    var ySign := rng % 2;
    var exp := CommonExponent(f, rng);
    rng := MixBits(rng);
    var me0, me1: nat;
    me0, rng := Shuffle((rankN + 1) / 2, rankMe / 2, rng);
    if rankN / 2 == 0 {
      // A shuffle of no ranks only moves the generator on: its value is undefined, and not used.
      me1, rng := *, MixBits(rng);
    } else {
      me1, rng := Shuffle(rankN / 2, rankMe / 2, rng);
    }

    var x0, y0, x1, y1 := 0, 0, 0, 0;
    rng, x0, y0 := GenSumXY((rankN + 1) / 2, me0, rng, MaxMant(f) / 2, 0, false, Wide(f), divZero);
    if rankN / 2 != 0 {
      rng, x1, y1 := GenSumXY(rankN / 2, me1, rng, MaxMant(f) / 4, 0, false, Wide(f), divZero);
    }

    ans := FinishPreMul(f, d, inputNotOutput, rankN, rankMe, divZero, ySign, exp, x0, y0, x1, y1);
  }

  /** The second half of the generator: pick the group of this rank and pack the answer. */
  method FinishPreMul(f: Format, ghost d: Draft, inputNotOutput: bool, n: nat, rank: nat, ghost divZero: nat,
                      ySign: nat, exp: nat, x0: nat, y0: nat, x1: nat, y1: nat) returns (ans: Float)
    requires ValidFormat(f) && ValidDraft(f, d) && 1 <= n < 0x8000_0000 && rank < n
    requires inputNotOutput ==> Submission(f, d, n, rank, divZero) <= MaxMant(f)
    requires ySign <= 1 && d.sign == (ySign == 1) && exp == d.exp && y0 + 2 * y1 == Target(d, n)
    requires Submission(f, d, n, rank, divZero) == if rank % 2 == 0 then x0 else x1
    ensures ans == if inputNotOutput then InputOf(f, d, n, rank, divZero) else OutputOf(f, d, n)
  {
    hide Submission, FloatOf;
    var xMant := if rank % 2 == 0 then x0 else x1;
    var yMant := y0 + 2 * y1;
    ans := PackMant(f, ySign, exp, if inputNotOutput then xMant else yMant);
  }

  lemma {:induction false} SubmissionBound(f: Format, d: Draft, n: nat, rank: nat, divZero: nat)
    requires ValidDraft(f, d) && 1 <= n < 0x8000_0000 && rank < n && GroupsFit(f, d, n, divZero)
    ensures Submission(f, d, n, rank, divZero) <= MaxMant(f)
  {
    hide Share, Shuffled;
    if rank % 2 == 0 {
      ShuffledInRange((n + 1) / 2, rank / 2, d.evenRng);
      ShareBound((n + 1) / 2, Shuffled((n + 1) / 2, rank / 2, d.evenRng), d.y0, MaxMant(f) / 2, divZero);
    } else {
      ShuffledInRange(n / 2, rank / 2, d.oddRng);
      ShareBound(n / 2, Shuffled(n / 2, rank / 2, d.oddRng), d.y1, MaxMant(f) / 4, divZero);
    }
  }
}
