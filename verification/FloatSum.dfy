/** genInOutFloatSum of verifiable/verifiable.cu. Each rank generates its input without knowing
    the others', and every order of reduction gives the one predicted bit pattern. */
module FloatSum {
  import opened Bits
  import opened Sums
  import opened ShuffleRank
  import opened Hashing
  import opened GenSum
  import opened Floats
  import opened ReductionTree
  import opened ExactData

  /** What all ranks derive alike from the seed and the element index. */
  datatype Draft = Draft(sign: bool, exp: nat, shuffleRng: u64, y0: nat, y1: nat)

  function DraftFor(f: Format, seed: u64, index: u64): (d: Draft)
    requires ValidFormat(f)
    ensures ExponentOk(f, d.exp)
    ensures YMin(MaxMant(f)) <= d.y0 <= MaxMant(f) && YMin(MaxMant(f)) <= d.y1 <= MaxMant(f)
  {
    MantissaFits(f);
    var rng0 := HashOf(seed, index);
    var rng1 := MixBits(rng0);
    var rng2 := MixBits(rng1);
    var rng3 := MixBits(rng2);
    var y0 := FirstTarget(rng2, MaxMant(f), Wide(f));
    Draft(rng0 % 2 == 1, CommonExponent(f, rng0), rng1, y0, OtherTarget(rng3, MaxMant(f), y0, Wide(f)))
  }

  /** For every index, either sign occurs with every exponent, and every target of the first group
      occurs, each for some seed. */
  lemma {:induction false} DraftsOccur(f: Format, index: u64, sign: bool, exp: nat, y: nat)
    requires ValidFormat(f) && ExponentOk(f, exp) && MaxMant(f) <= 2 * y <= 2 * MaxMant(f)
    ensures exists seed: u64 :: DraftFor(f, seed, index).sign == sign && DraftFor(f, seed, index).exp == exp
    ensures exists seed: u64 :: DraftFor(f, seed, index).y0 == y
  {
    hide HashOf, MixBits, CommonExponent, FirstTarget, OtherTarget, MaxMant, Unhash, Unmix;
    var w := ExponentDrawn(f, exp, sign);
    HashIsPermutation(0, w, index);
    assert DraftFor(f, Unhash(w, index), index).sign == sign && DraftFor(f, Unhash(w, index), index).exp == exp;
    MantissaFits(f);
    var v := FirstTargetDrawn(y, MaxMant(f), Wide(f));
    MixIsPermutation(0, v);
    MixIsPermutation(0, Unmix(v));
    HashIsPermutation(0, Unmix(Unmix(v)), index);
    assert DraftFor(f, Unhash(Unmix(Unmix(v)), index), index).y0 == y;
  }

  /** Sizes of the groups that submit with the common sign and with the opposite one. */
  function Evens(n: nat, sameSign: bool): nat { if sameSign then n else (n + 1) / 2 }

  function Odds(n: nat, sameSign: bool): nat { if sameSign then 0 else n / 2 }

  /** The integer a shuffled rank contributes, relative to the common sign. */
  function Contribution(f: Format, d: Draft, n: nat, j: nat, sameSign: bool, divZero: nat): int
    requires n > 0
  {
    if sameSign then Share(n, j, d.y0, MaxMant(f), divZero)
    else if j % 2 == 0 then Share((n + 1) / 2, j / 2, d.y0, MaxMant(f), divZero)
    else if n / 2 == 0 then 0
    else -(Share(n / 2, j / 2, d.y1, MaxMant(f), divZero) as int)
  }

  function InputOf(f: Format, d: Draft, n: nat, rank: nat, sameSign: bool, divZero: nat): Float
    requires n > 0
  {
    FloatOf(f, d.sign, d.exp, Contribution(f, d, n, Shuffled(n, rank, d.shuffleRng), sameSign, divZero))
  }

  function OutputOf(f: Format, d: Draft, n: nat, sameSign: bool): Float
  {
    FloatOf(f, d.sign, d.exp, d.y0 - (if Odds(n, sameSign) == 0 then 0 else d.y1))
  }

  /** The inputs of the first m ranks. */
  function Inputs(m: nat, f: Format, d: Draft, n: nat, sameSign: bool, divZero: nat): (xs: seq<Float>)
    requires n > 0
    ensures |xs| == m && forall r :: 0 <= r < m ==> xs[r] == InputOf(f, d, n, r, sameSign, divZero)
  {
    if m == 0 then [] else Inputs(m - 1, f, d, n, sameSign, divZero) + [InputOf(f, d, n, m - 1, sameSign, divZero)]
  }

  predicate ValidDraft(f: Format, d: Draft)
  {
    ExponentOk(f, d.exp) && 1 <= d.y0 <= MaxMant(f) && 1 <= d.y1 <= MaxMant(f)
  }

  /** Each group is small enough for its target. */
  predicate GroupsFit(f: Format, d: Draft, n: nat, sameSign: bool, divZero: nat)
  {
    && GroupFits(Evens(n, sameSign), d.y0, MaxMant(f), divZero)
    && (Odds(n, sameSign) > 0 ==> GroupFits(Odds(n, sameSign), d.y1, MaxMant(f), divZero))
  }

  /** Groups of at most 2^m ranks always fit; with x/0 all ones, so do fewer than 2^16. */
  lemma {:induction false} GroupsFitWhenSmall(f: Format, n: nat, seed: u64, index: u64, sameSign: bool, divZero: nat)
    requires ValidFormat(f) && n > 0
    requires Evens(n, sameSign) <= Pow2(f.m) || (Evens(n, sameSign) < 0x1_0000 && divZero == 0xffff_ffff)
    ensures GroupsFit(f, DraftFor(f, seed, index), n, sameSign, divZero)
  {
    assert YMin(MaxMant(f)) == Pow2(f.m);
    hide HashOf, MixBits, Draw, PartSum;
    var d := DraftFor(f, seed, index);
    if Evens(n, sameSign) > Pow2(f.m) {
      FitsWhenQuotientLarge(Evens(n, sameSign), d.y0, MaxMant(f), divZero);
      if Odds(n, sameSign) > 0 {
        FitsWhenQuotientLarge(Odds(n, sameSign), d.y1, MaxMant(f), divZero);
      }
    }
  }

  /** Whatever the seed and the index, 16 ranks that sum 4-bit significands of one sign miss their
      target when the hardware's quotient x/0 is below 16. */
  lemma {:induction false} SixteenRanksMiss(seed: u64, index: u64, divZero: nat)
    requires ValidFormat(FLOAT8_E4M3) && divZero < 16
    ensures var y := DraftFor(FLOAT8_E4M3, seed, index).y0;
            1 <= y <= 15 && Sum(Shares(16, 16, y, 15, divZero)) != y
  {
    hide HashOf, MixBits, Draw, PartSum;
    assert Pow2(1) == 2 && Pow2(2) == 4 && Pow2(3) == 8 && Pow2(4) == 16;
    assert MaxMant(FLOAT8_E4M3) == 15;
    var y := DraftFor(FLOAT8_E4M3, seed, index).y0;
    hide DraftFor;
    ShareSum(16, y, 15, divZero);
  }

  // ---- the contributions, by shuffled rank

  function Positives(f: Format, d: Draft, n: nat, sameSign: bool, divZero: nat): (xs: seq<int>)
    requires n > 0
    ensures |xs| == n
  {
    var g := Evens(n, sameSign);
    if sameSign then Shares(n, n, d.y0, MaxMant(f), divZero)
    else Spread(n, 0, Shares(g, g, d.y0, MaxMant(f), divZero))
  }

  function Negatives(f: Format, d: Draft, n: nat, sameSign: bool, divZero: nat): (xs: seq<int>)
    requires n > 0
    ensures |xs| == n
  {
    var g := Odds(n, sameSign);
    if g == 0 then Zeros(n)
    else Spread(n, 1, Shares(g, g, d.y1, MaxMant(f), divZero))
  }

  lemma {:induction false} PositiveTotal(f: Format, d: Draft, n: nat, sameSign: bool, divZero: nat)
    requires 0 < n < 0x8000_0000 && 1 <= d.y0 <= MaxMant(f) && GroupFits(Evens(n, sameSign), d.y0, MaxMant(f), divZero)
    ensures Sum(Positives(f, d, n, sameSign, divZero)) == d.y0
  {
    hide Sum, Shares, Spread, GroupFits, MaxMant;
    var g := Evens(n, sameSign);
    var xs := Shares(g, g, d.y0, MaxMant(f), divZero);
    ShareSumExact(g, d.y0, MaxMant(f), divZero);
    if !sameSign {
      SpreadSum(n, 0, xs);
      assert xs[..g] == xs;
    }
  }

  lemma {:induction false} NegativeTotal(f: Format, d: Draft, n: nat, sameSign: bool, divZero: nat)
    requires 0 < n < 0x8000_0000 && 1 <= d.y1 <= MaxMant(f)
    requires Odds(n, sameSign) > 0 ==> GroupFits(Odds(n, sameSign), d.y1, MaxMant(f), divZero)
    ensures Sum(Negatives(f, d, n, sameSign, divZero)) == if Odds(n, sameSign) == 0 then 0 else d.y1
  {
    var g := Odds(n, sameSign);
    if g == 0 {
      SumZeros(n);
    } else {
      var xs := Shares(g, g, d.y1, MaxMant(f), divZero);
      ShareSumExact(g, d.y1, MaxMant(f), divZero);
      SpreadSum(n, 1, xs);
      assert xs[..g] == xs;
    }
  }

  /** A rank contributes to exactly one of the two lists. */
  lemma {:induction false} ContributionSplits(f: Format, d: Draft, n: nat, j: nat, sameSign: bool, divZero: nat)
    requires 0 < n && j < n
    ensures Contribution(f, d, n, j, sameSign, divZero)
         == Positives(f, d, n, sameSign, divZero)[j] - Negatives(f, d, n, sameSign, divZero)[j]
    ensures Positives(f, d, n, sameSign, divZero)[j] >= 0 && Negatives(f, d, n, sameSign, divZero)[j] >= 0
  {
    hide Share;
    if !sameSign {
      var g := Evens(n, false);
      SpreadAt(n, 0, Shares(g, g, d.y0, MaxMant(f), divZero), j);
      NegativesAt(f, d, n, j, divZero);
    }
  }

  lemma {:induction false} NegativesAt(f: Format, d: Draft, n: nat, j: nat, divZero: nat)
    requires 0 < n && j < n
    ensures Negatives(f, d, n, false, divZero)[j]
         == if j % 2 == 0 || n / 2 == 0 then 0 else Share(n / 2, j / 2, d.y1, MaxMant(f), divZero)
  {
    hide Share;
    var g := Odds(n, false);
    if g > 0 {
      SpreadAt(n, 1, Shares(g, g, d.y1, MaxMant(f), divZero), j);
    }
  }

  lemma {:induction false} InputsEncode(f: Format, d: Draft, n: nat, sameSign: bool, divZero: nat, s: seq<nat>)
    requires n > 0 && s == ShuffledRanks(n, n, d.shuffleRng) && IsPermutation(s)
    ensures Encodes(f, d.sign, d.exp, Inputs(n, f, d, n, sameSign, divZero),
                    Pick(s, Positives(f, d, n, sameSign, divZero)), Pick(s, Negatives(f, d, n, sameSign, divZero)))
  {
    hide Positives, Negatives, FloatOf, InputOf, Distinct, Pick, Inputs, ShuffledRanks, Shuffled;
    forall r | 0 <= r < n
      ensures Positives(f, d, n, sameSign, divZero)[s[r]] >= 0 && Negatives(f, d, n, sameSign, divZero)[s[r]] >= 0
      ensures InputOf(f, d, n, r, sameSign, divZero)
           == FloatOf(f, d.sign, d.exp, Positives(f, d, n, sameSign, divZero)[s[r]]
                                      - Negatives(f, d, n, sameSign, divZero)[s[r]])
    {
      InputSplits(f, d, n, r, s[r], sameSign, divZero);
    }
  }

  lemma {:induction false} InputSplits(f: Format, d: Draft, n: nat, r: nat, j: nat, sameSign: bool, divZero: nat)
    requires n > 0 && j == Shuffled(n, r, d.shuffleRng) < n
    ensures Positives(f, d, n, sameSign, divZero)[j] >= 0 && Negatives(f, d, n, sameSign, divZero)[j] >= 0
    ensures InputOf(f, d, n, r, sameSign, divZero)
         == FloatOf(f, d.sign, d.exp, Positives(f, d, n, sameSign, divZero)[j] - Negatives(f, d, n, sameSign, divZero)[j])
  {
    hide Positives, Negatives, Contribution, FloatOf, Shuffled;
    ContributionSplits(f, d, n, j, sameSign, divZero);
  }

  /** Every reduction tree over all ranks is exact at every node and ends in the generated
      output, bit for bit; full cancellation gives +0 on both sides. */
  lemma {:induction false} SumIsExact(f: Format, n: nat, seed: u64, index: u64, sameSign: bool, divZero: nat,
                                      add: (Float, Float) -> Float, t: Tree)
    requires ValidFormat(f) && 0 < n < 0x8000_0000
    requires GroupsFit(f, DraftFor(f, seed, index), n, sameSign, divZero)
    requires AddsExactly(f, add) && ReducesAll(t, n)
    ensures Below(t, n)
    ensures Eval(t, add, Inputs(n, f, DraftFor(f, seed, index), n, sameSign, divZero))
         == OutputOf(f, DraftFor(f, seed, index), n, sameSign)
    ensures SumsExactly(f, t, add, Inputs(n, f, DraftFor(f, seed, index), n, sameSign, divZero))
  {
    DraftIsValid(f, seed, index);
    SumOfDraft(f, DraftFor(f, seed, index), n, sameSign, divZero, add, t);
  }

  lemma {:induction false} DraftIsValid(f: Format, seed: u64, index: u64)
    requires ValidFormat(f)
    ensures ValidDraft(f, DraftFor(f, seed, index))
  {
    MantissaFits(f);
  }

  lemma {:induction false} SumOfDraft(f: Format, d: Draft, n: nat, sameSign: bool, divZero: nat,
                                      add: (Float, Float) -> Float, t: Tree)
    requires ValidDraft(f, d) && 0 < n < 0x8000_0000 && GroupsFit(f, d, n, sameSign, divZero)
    requires AddsExactly(f, add) && ReducesAll(t, n)
    ensures Below(t, n)
    ensures Eval(t, add, Inputs(n, f, d, n, sameSign, divZero)) == OutputOf(f, d, n, sameSign)
    ensures SumsExactly(f, t, add, Inputs(n, f, d, n, sameSign, divZero))
  {
    hide Positives, Negatives, FloatOf, Inputs, Sum, Pick, ShuffledRanks, SumsExactly, Eval, IsPermutation;
    var s := ShuffledRanks(n, n, d.shuffleRng);
    ShuffleIsPermutation(n, d.shuffleRng);
    InputsEncode(f, d, n, sameSign, divZero, s);
    PositiveTotal(f, d, n, sameSign, divZero);
    NegativeTotal(f, d, n, sameSign, divZero);
    ExactReduction(f, d.sign, d.exp, t, add, Inputs(n, f, d, n, sameSign, divZero), s,
                   Positives(f, d, n, sameSign, divZero), Negatives(f, d, n, sameSign, divZero));
  }

  // ---- the source's statements

  /** The mantissa to be packed has no more bits than the format, so that the source's shift by
      its leading zeros is a shift by at least 0. */
  predicate Packs(f: Format, d: Draft, n: nat, rank: nat, sameSign: bool, divZero: nat)
    requires n > 0
  {
    FitsMant(f, Contribution(f, d, n, Shuffled(n, rank, d.shuffleRng), sameSign, divZero))
  }

  /** Every input packs when the groups fit. */
  lemma {:induction false} FittingGroupsPack(f: Format, n: nat, rank: nat, seed: u64, index: u64, sameSign: bool, divZero: nat)
    requires ValidFormat(f) && rank < n < 0x8000_0000 && GroupsFit(f, DraftFor(f, seed, index), n, sameSign, divZero)
    ensures Packs(f, DraftFor(f, seed, index), n, rank, sameSign, divZero)
  {
    hide DraftFor, GroupsFit, Contribution, Shuffled;
    var d := DraftFor(f, seed, index);
    DraftIsValid(f, seed, index);
    ShuffledInRange(n, rank, d.shuffleRng);
    InputMagnitude(f, d, n, Shuffled(n, rank, d.shuffleRng), sameSign, divZero);
  }

  method GenInOutFloatSum(f: Format, inputNotOutput: bool, rankN: nat, rankMe: nat, seed: u64, index: u64,
                          sameSign: bool, divZero: u32) returns (ans: Float)
    requires ValidFormat(f) && 0 < rankN < 0x8000_0000 && rankMe < rankN
    requires inputNotOutput ==> Packs(f, DraftFor(f, seed, index), rankN, rankMe, sameSign, divZero)
    ensures ans == if inputNotOutput then InputOf(f, DraftFor(f, seed, index), rankN, rankMe, sameSign, divZero)
                   else OutputOf(f, DraftFor(f, seed, index), rankN, sameSign)
  {
    hide HashOf, MixBits, Share, FirstTarget, OtherTarget, FloatOf, Shuffled, MaxMant, Pow2, CommonExponent, FitsMant, Contribution;
    MantissaFits(f);
    DraftIsValid(f, seed, index);
    ghost var d := DraftFor(f, seed, index);
    var rng := HashOf(seed, index);
    var ySign := rng % 2;
    var exp := CommonExponent(f, rng);
    rng := MixBits(rng);
    var me: nat;
    me, rng := Shuffle(rankN, rankMe, rng);
    ShuffledInRange(rankN, rankMe, d.shuffleRng);

    var subN := if sameSign then rankN else (rankN + 1) / 2;
    var subMe := if sameSign then me else me / 2;
    var x0, y0, x1, y1 := 0, 0, 0, 0;
    rng, x0, y0 := GenSumXY(subN, subMe, rng, MaxMant(f), 0, false, Wide(f), divZero);
    if !sameSign && rankN / 2 != 0 {
      rng, x1, y1 := GenSumXY(rankN / 2, me / 2, rng, MaxMant(f), y0, true, Wide(f), divZero);
    }
    ans := FinishSum(f, d, inputNotOutput, rankN, me, sameSign, divZero, ySign, exp, x0, y0, x1, y1);
  }

  /** The second half of the generator: combine the two groups and pack the answer. */
  method FinishSum(f: Format, ghost d: Draft, inputNotOutput: bool, n: nat, me: nat, sameSign: bool, ghost divZero: nat,
                   ySign0: nat, exp: nat, x0: nat, y0: nat, x1: nat, y1: nat) returns (ans: Float)
    requires ValidFormat(f) && ValidDraft(f, d) && 0 < n < 0x8000_0000 && me < n
    requires inputNotOutput ==> FitsMant(f, Contribution(f, d, n, me, sameSign, divZero))
    requires ySign0 <= 1 && d.sign == (ySign0 == 1) && exp == d.exp && y0 == d.y0
    requires x0 == Share(Evens(n, sameSign), if sameSign then me else me / 2, d.y0, MaxMant(f), divZero)
    requires Odds(n, sameSign) > 0 ==>
               y1 == d.y1 && x1 == Share(Odds(n, sameSign), me / 2, d.y1, MaxMant(f), divZero)
    ensures ans == if inputNotOutput then FloatOf(f, d.sign, d.exp, Contribution(f, d, n, me, sameSign, divZero))
                   else OutputOf(f, d, n, sameSign)
  {
    hide Share, FloatOf;
    MantissaFits(f);
    var xSign, ySign, xMant, yMant := ySign0, ySign0, x0, y0;
    if !sameSign && n / 2 != 0 {
      ySign := if y0 < y1 then 1 - ySign else ySign;
      yMant := Difference(y0, y1, Wide(f), MaxMant(f));
      xSign := if me % 2 == 1 then 1 - xSign else xSign;
      xMant := if me % 2 == 0 then x0 else x1;
    }
    if inputNotOutput {
      assert FitsMant(f, xMant);
      ans := PackMant(f, xSign, exp, xMant);
      FloatOfNegated(f, d.sign, exp, xMant);
    } else {
      ans := PackMant(f, ySign, exp, yMant);
      FloatOfNegated(f, d.sign, exp, yMant);
    }
  }

  /** `(y0 < y1 ? -1 : 1)*(y0 - y1)` on unsigned words. */
  method Difference(y0: nat, y1: nat, wide: bool, ghost max: nat) returns (diff: nat)
    requires y0 <= max && y1 <= max < WordSize(wide)
    ensures diff == if y0 < y1 then y1 - y0 else y0 - y1
  {
    diff := Unsigned(y0 - y1, wide);
    if y0 < y1 {
      diff := Unsigned(0 - diff, wide);
    }
  }

  /** A contribution never exceeds its group's target. */
  lemma {:induction false} InputMagnitude(f: Format, d: Draft, n: nat, j: nat, sameSign: bool, divZero: nat)
    requires 0 < n < 0x8000_0000 && j < n && ValidDraft(f, d) && GroupsFit(f, d, n, sameSign, divZero)
    ensures FitsMant(f, Contribution(f, d, n, j, sameSign, divZero))
  {
    if sameSign {
      ShareBound(n, j, d.y0, MaxMant(f), divZero);
    } else if j % 2 == 0 {
      ShareBound((n + 1) / 2, j / 2, d.y0, MaxMant(f), divZero);
    } else if n / 2 > 0 {
      ShareBound(n / 2, j / 2, d.y1, MaxMant(f), divZero);
    }
  }

  // ---- the condition is exact when all ranks share one sign

  /** A packed nonnegative contribution, as a value along the common sign. */
  lemma {:induction false} PackedAtLeast(f: Format, sign: bool, exp: nat, k: nat)
    requires ExponentOk(f, exp) && FitsMant(f, k)
    ensures 0 <= Shl(k, exp - 1) && AtLeast(f, sign, FloatOf(f, sign, exp, k), Shl(k, exp - 1))
    ensures AtLeast(f, sign, FloatOf(f, sign, exp, k), 0)
  {
    hide FloatOf, Finite, Units, Shl, MaxMant;
    EncodedUnits(f, sign, exp, k);
    ShlMono(0, k, exp - 1);
    ShlZero(exp - 1);
  }

  /** With one sign, whatever the seed and the index: if every input packs but the ranks are too many
      for their target, every reduction tree that rounds to nearest ends above the generated output. */
  lemma {:induction false} MissedSum(f: Format, d: Draft, n: nat, divZero: nat, t: Tree)
    requires ValidFormat(f) && ValidDraft(f, d) && 0 < n < 0x8000_0000 && ReducesAll(t, n)
    requires forall r: nat :: r < n ==> Packs(f, d, n, r, true, divZero)
    requires !GroupsFit(f, d, n, true, divZero)
    ensures Below(t, n)
    ensures Eval(t, (a, b) => AddNearest(f, a, b), Inputs(n, f, d, n, true, divZero)) != OutputOf(f, d, n, true)
  {
    hide Share, Shuffled, InputOf, OutputOf, AtLeast, GroupFits, Packs, Eval, AddNearest, Shl, MaxMant;
    var xs := Inputs(n, f, d, n, true, divZero);
    forall r: nat | r < n
      ensures Shuffled(n, r, d.shuffleRng) < n && AtLeast(f, d.sign, xs[r], 0)
    {
      ShuffledInRange(n, r, d.shuffleRng);
      LeafAtLeast(f, d, n, r, divZero);
    }
    ShuffleIsOnto(n, n - 1, d.shuffleRng);
    var last: nat :| last < n && Shuffled(n, last, d.shuffleRng) == n - 1;
    var k := Share(n, n - 1, d.y0, MaxMant(f), divZero);
    LeafAtLeast(f, d, n, last, divZero);
    LeavesBelow(t, n);
    PermutationHits(Leaves(t), last);
    TreeAtLeast(f, d.sign, t, xs, last, Shl(k, d.exp - 1));
    LastShareExceeds(n, d.y0, MaxMant(f), divZero);
    OutputBelow(f, d, n, k);
  }

  lemma {:induction false} LeafAtLeast(f: Format, d: Draft, n: nat, r: nat, divZero: nat)
    requires ValidDraft(f, d) && r < n && Packs(f, d, n, r, true, divZero)
    ensures var k := Share(n, Shuffled(n, r, d.shuffleRng), d.y0, MaxMant(f), divZero);
      && 0 <= Shl(k, d.exp - 1) && AtLeast(f, d.sign, InputOf(f, d, n, r, true, divZero), 0)
      && AtLeast(f, d.sign, InputOf(f, d, n, r, true, divZero), Shl(k, d.exp - 1))
  {
    hide Share, Shuffled, FloatOf, AtLeast, Shl, FitsMant, MaxMant;
    PackedAtLeast(f, d.sign, d.exp, Share(n, Shuffled(n, r, d.shuffleRng), d.y0, MaxMant(f), divZero));
  }

  lemma {:induction false} OutputBelow(f: Format, d: Draft, n: nat, k: nat)
    requires ValidDraft(f, d) && k > d.y0
    ensures 0 <= Shl(k, d.exp - 1) && !AtLeast(f, d.sign, OutputOf(f, d, n, true), Shl(k, d.exp - 1))
  {
    hide FloatOf, Finite, Units, Shl, MaxMant;
    EncodedUnits(f, d.sign, d.exp, d.y0);
    ShlMono(d.y0, k, d.exp - 1);
    ShlMono(0, k, d.exp - 1);
    ShlZero(d.exp - 1);
  }

  /** With one sign, GroupsFit is exact: the reductions end at the generated output if and only if it holds. */
  lemma {:induction false} OneSignExactly(f: Format, n: nat, seed: u64, index: u64, divZero: nat, t: Tree)
    requires ValidFormat(f) && 0 < n < 0x8000_0000 && ReducesAll(t, n)
    requires forall r: nat :: r < n ==> Packs(f, DraftFor(f, seed, index), n, r, true, divZero)
    ensures Below(t, n)
    ensures Eval(t, (a, b) => AddNearest(f, a, b), Inputs(n, f, DraftFor(f, seed, index), n, true, divZero))
         == OutputOf(f, DraftFor(f, seed, index), n, true)
       <==> GroupsFit(f, DraftFor(f, seed, index), n, true, divZero)
  {
    hide DraftFor, Packs, GroupsFit, Eval, Inputs, OutputOf, AddNearest, AddsExactly;
    DraftIsValid(f, seed, index);
    NearestIsExact(f);
    if GroupsFit(f, DraftFor(f, seed, index), n, true, divZero) {
      SumIsExact(f, n, seed, index, true, divZero, (a, b) => AddNearest(f, a, b), t);
    } else {
      MissedSum(f, DraftFor(f, seed, index), n, divZero, t);
    }
  }
}
