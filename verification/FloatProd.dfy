/** genInOutFloatProd of verifiable/verifiable.cu: one rank submits a random significand, every
    rank a power of two and a sign, and the exponents of all ranks add up to a chosen total. */
module FloatProd {
  import opened Bits
  import opened Sums
  import opened ShuffleRank
  import opened Hashing
  import opened GenSum
  import opened Floats
  import opened ReductionTree
  import opened ExactData

  datatype Draft = Draft(shuffleRng: u64, yExp: nat, yMant: nat)

  function DraftFor(f: Format, seed: u64, index: u64): (d: Draft)
    requires ValidFormat(f)
  {
    ExponentRange(f);
    var rng0 := HashOf(seed, index);
    var rng1 := MixBits(rng0);
    var rng2 := MixBits(rng1);
    var mant := And(rng2, Pow2(f.m) - 1);
    Draft(rng0, FirstTarget(rng1, Bias(f), false), if mant == 0 then 1 else mant)
  }

  /** For every index, every exponent total in the upper half of the range and every significand
      other than a power of two occur, each for some seed. */
  lemma {:induction false} DraftsOccur(f: Format, index: u64, exp: nat, mant: nat)
    requires ValidFormat(f) && Bias(f) <= 2 * exp <= 2 * Bias(f) && 0 < mant < Pow2(f.m)
    ensures exists seed: u64 :: DraftFor(f, seed, index).yExp == exp
    ensures exists seed: u64 :: DraftFor(f, seed, index).yMant == mant
  {
    hide HashOf, MixBits, FirstTarget, And, Bias, Pow2, Unhash, Unmix;
    ExponentRange(f);
    var v := FirstTargetDrawn(exp, Bias(f), false);
    MixIsPermutation(0, v);
    HashIsPermutation(0, Unmix(v), index);
    assert DraftFor(f, Unhash(Unmix(v), index), index).yExp == exp;
    MantissaIsWord(f);
    var w: u64 := mant;
    AndMask(w, f.m);
    LowIdentity(w, f.m);
    MixIsPermutation(0, w);
    MixIsPermutation(0, Unmix(w));
    HashIsPermutation(0, Unmix(Unmix(w)), index);
    assert DraftFor(f, Unhash(Unmix(Unmix(w)), index), index).yMant == mant;
  }

  lemma {:induction false} MantissaIsWord(f: Format)
    requires ValidFormat(f)
    ensures Pow2(f.m) < TWO_64
  {
    hide Pow2;
    Pow2Word64();
    Pow2Mono(f.m, 64);
  }

  predicate ValidDraft(f: Format, d: Draft)
    requires ValidFormat(f)
  {
    1 <= d.yExp <= Bias(f) && 1 <= d.yMant < Pow2(f.m)
  }

  /** The largest exponent total, one less than half the exponent range, fits 31 bits. */
  lemma {:induction false} ExponentRange(f: Format)
    requires ValidFormat(f)
    ensures 1 <= Bias(f) <= 0x3fff_ffff && Pow2(f.e) == 2 * Bias(f) + 2 && Pow2(f.m) >= 4
  {
    Pow2Word();
    Pow2Mono(f.e - 1, 30);
    Pow2Mono(1, f.e - 1);
    Pow2Mono(2, f.m);
    assert Pow2(1) == 2 && Pow2(2) == 4;
  }

  lemma {:induction false} DraftIsValid(f: Format, seed: u64, index: u64)
    requires ValidFormat(f)
    ensures ValidDraft(f, DraftFor(f, seed, index))
  {
    hide HashOf, MixBits;
    ExponentRange(f);
    var rng2 := MixBits(MixBits(HashOf(seed, index)));
    AndMask(rng2, f.m);
    ShrLow(rng2, f.m);
  }

  /** What a shuffled rank submits: its fields, packed. */
  function SubmissionOf(f: Format, d: Draft, n: nat, j: nat, divZero: nat): Float
    requires n > 0 && f.e >= 1
  {
    MakeFloat(f, j % 2, Share(n, j, d.yExp, Bias(f), divZero) + Bias(f), if j == 0 then d.yMant else 0)
  }

  /** The fields stay apart as long as the exponent does not exceed its own. */
  lemma {:induction false} SubmissionFields(f: Format, d: Draft, n: nat, j: nat, divZero: nat)
    requires ValidFormat(f) && n > 0 && ValidDraft(f, d) && Share(n, j, d.yExp, Bias(f), divZero) <= Bias(f)
    ensures SubmissionOf(f, d, n, j, divZero)
         == Float(j % 2 == 1, Share(n, j, d.yExp, Bias(f), divZero) + Bias(f), if j == 0 then d.yMant else 0)
  {
    hide Share, MakeFloat, Pow2, Bias;
    ExponentRange(f);
    MakeFloatFields(f, j % 2, Share(n, j, d.yExp, Bias(f), divZero) + Bias(f), if j == 0 then d.yMant else 0);
  }

  function InputOf(f: Format, d: Draft, n: nat, rank: nat, divZero: nat): Float
    requires n > 0 && f.e >= 1
  {
    SubmissionOf(f, d, n, Shuffled(n, rank, d.shuffleRng), divZero)
  }

  function OutputOf(f: Format, d: Draft, n: nat): Float
    requires f.e >= 1
  {
    Float((n / 2) % 2 == 1, d.yExp + Bias(f), d.yMant)
  }

  /** The inputs of the first m ranks. */
  function Inputs(m: nat, f: Format, d: Draft, n: nat, divZero: nat): (xs: seq<Float>)
    requires n > 0 && f.e >= 1
    ensures |xs| == m && forall r :: 0 <= r < m ==> xs[r] == InputOf(f, d, n, r, divZero)
  {
    if m == 0 then [] else Inputs(m - 1, f, d, n, divZero) + [InputOf(f, d, n, m - 1, divZero)]
  }

  // ---- partial products

  /** A product of submissions: the exponents add up, the signs count the negative factors, and
      the significand is random once its one owner takes part. */
  function PartialProduct(f: Format, mant: nat, exps: nat, negatives: nat, owners: nat): Float
    requires f.e >= 1
  {
    Float(negatives % 2 == 1, exps + Bias(f), if owners == 0 then 0 else mant)
  }

  lemma {:induction false} PartialMag(f: Format, mant: nat, exps: nat, negatives: nat, owners: nat)
    requires ValidFormat(f) && mant < Pow2(f.m) && exps <= Bias(f)
    ensures Normal(f, PartialProduct(f, mant, exps, negatives, owners))
    ensures Mag(f, PartialProduct(f, mant, exps, negatives, owners))
         == Shl(Pow2(f.m) + (if owners == 0 then 0 else mant), exps + Bias(f) - 1)
  {
    ExponentRange(f);
  }

  /** Multiplying two partial products with disjoint factors does not round. */
  lemma {:induction false} ProductStep(f: Format, mant: nat, e1: nat, n1: nat, o1: nat, e2: nat, n2: nat, o2: nat)
    requires ValidFormat(f) && mant < Pow2(f.m) && e1 + e2 <= Bias(f) && o1 + o2 <= 1
    ensures ExactProduct(f, PartialProduct(f, mant, e1, n1, o1), PartialProduct(f, mant, e2, n2, o2),
                         PartialProduct(f, mant, e1 + e2, n1 + n2, o1 + o2))
  {
    hide Mag, Shl, Pow2;
    ExponentRange(f);
    PartialMag(f, mant, e1, n1, o1);
    PartialMag(f, mant, e2, n2, o2);
    PartialMag(f, mant, e1 + e2, n1 + n2, o1 + o2);
    var b, p := Bias(f), Pow2(f.m);
    var s1, s2 := p + (if o1 == 0 then 0 else mant), p + (if o2 == 0 then 0 else mant);
    var s := p + (if o1 + o2 == 0 then 0 else mant);
    SignificandShift(s1, s2, s, f.m, e1, e2, b);
  }

  lemma {:induction false} SignificandShift(s1: nat, s2: nat, s: nat, m: nat, e1: nat, e2: nat, b: nat)
    requires (s1 == Pow2(m) && s2 == s) || (s2 == Pow2(m) && s1 == s)
    requires b >= 1
    ensures Shl(Shl(s, e1 + e2 + b - 1), b + m - 1) == Shl(s1, e1 + b - 1) * Shl(s2, e2 + b - 1)
  {
    ShlMul(s1, s2, e1 + b - 1, e2 + b - 1);
    ShlShl(s, e1 + e2 + b - 1, b + m - 1);
    ShlShl(s, m, e1 + e2 + 2 * b - 2);
    ShlProduct(s, m);
    SignificandProduct(s1, s2, s, Pow2(m));
  }

  lemma {:induction false} SignificandProduct(s1: nat, s2: nat, s: nat, p: nat)
    requires (s1 == p && s2 == s) || (s2 == p && s1 == s)
    ensures s1 * s2 == s * p
  {
  }

  /** Every node of the tree is an exact product. */
  ghost predicate MultipliesExactlyAt(f: Format, t: Tree, mul: (Float, Float) -> Float, xs: seq<Float>)
    requires Below(t, |xs|)
  {
    match t
    case Leaf(r) => Normal(f, xs[r])
    case Node(l, r) =>
      && Normal(f, Eval(t, mul, xs))
      && ExactProduct(f, Eval(l, mul, xs), Eval(r, mul, xs), Eval(t, mul, xs))
      && MultipliesExactlyAt(f, l, mul, xs) && MultipliesExactlyAt(f, r, mul, xs)
  }

  /** xs[i] is the submission with exponent es[i], and negs[i], owns[i] mark signs and the owner. */
  predicate Submits(f: Format, mant: nat, xs: seq<Float>, es: seq<int>, negs: seq<int>, owns: seq<int>)
    requires f.e >= 1
  {
    && |xs| == |es| == |negs| == |owns|
    && forall i :: 0 <= i < |xs| ==>
         es[i] >= 0 && negs[i] >= 0 && owns[i] >= 0 && xs[i] == PartialProduct(f, mant, es[i], negs[i], owns[i])
  }

  lemma {:induction false} ProductTree(f: Format, mant: nat, t: Tree, mul: (Float, Float) -> Float,
                                       xs: seq<Float>, es: seq<int>, negs: seq<int>, owns: seq<int>)
    requires ValidFormat(f) && mant < Pow2(f.m) && MultipliesExactly(f, mul) && Submits(f, mant, xs, es, negs, owns)
    requires Below(t, |xs|) && TreeSum(t, es) <= Bias(f) && TreeSum(t, owns) <= 1
    ensures TreeSum(t, es) >= 0 && TreeSum(t, negs) >= 0 && TreeSum(t, owns) >= 0
    ensures Eval(t, mul, xs) == PartialProduct(f, mant, TreeSum(t, es), TreeSum(t, negs), TreeSum(t, owns))
    ensures MultipliesExactlyAt(f, t, mul, xs)
  {
    hide PartialProduct, ExactProduct, Normal, Bias, ValidFormat;
    match t
    case Leaf(r) =>
      PartialMag(f, mant, es[r], negs[r], owns[r]);
    case Node(l, r) =>
      TreeSumNonNegative(l, es);
      TreeSumNonNegative(r, es);
      TreeSumNonNegative(l, owns);
      TreeSumNonNegative(r, owns);
      ProductTree(f, mant, l, mul, xs, es, negs, owns);
      ProductTree(f, mant, r, mul, xs, es, negs, owns);
      ProductStep(f, mant, TreeSum(l, es), TreeSum(l, negs), TreeSum(l, owns),
                  TreeSum(r, es), TreeSum(r, negs), TreeSum(r, owns));
      PartialMag(f, mant, TreeSum(t, es), TreeSum(t, negs), TreeSum(t, owns));
  }

  // ---- signs and owner, by shuffled rank

  function Parities(n: nat): (xs: seq<int>)
    ensures |xs| == n
  {
    if n == 0 then [] else Parities(n - 1) + [(n - 1) % 2]
  }

  lemma {:induction false} ParityAt(n: nat, j: nat)
    requires j < n
    ensures Parities(n)[j] == j % 2
  {
    if j < n - 1 {
      ParityAt(n - 1, j);
    }
  }

  lemma {:induction false} ParitySum(n: nat)
    ensures Sum(Parities(n)) == n / 2
  {
    hide Sum;
    if n == 0 {
      SumZeros(0);
      assert Parities(0) == Zeros(0);
    } else {
      ParitySum(n - 1);
      SumSnoc(Parities(n - 1), (n - 1) % 2);
    }
  }

  function Owner(n: nat): (xs: seq<int>)
    requires n > 0
    ensures |xs| == n && forall j :: 0 <= j < n ==> xs[j] == if j == 0 then 1 else 0
  {
    [1] + Zeros(n - 1)
  }

  lemma {:induction false} OwnerSum(n: nat)
    requires n > 0
    ensures Sum(Owner(n)) == 1
  {
    SumSingle(1);
    SumZeros(n - 1);
    SumConcat([1], Zeros(n - 1));
  }

  lemma {:induction false} OneSubmission(f: Format, d: Draft, n: nat, j: nat, divZero: nat)
    requires ValidFormat(f) && ValidDraft(f, d) && j < n < 0x8000_0000 && GroupFits(n, d.yExp, Bias(f), divZero)
    ensures SubmissionOf(f, d, n, j, divZero)
         == PartialProduct(f, d.yMant, Share(n, j, d.yExp, Bias(f), divZero), j % 2, Owner(n)[j])
  {
    hide Share, GroupFits, SubmissionOf;
    ShareBound(n, j, d.yExp, Bias(f), divZero);
    SubmissionFields(f, d, n, j, divZero);
  }

  lemma {:induction false} InputsSubmit(f: Format, d: Draft, n: nat, divZero: nat, s: seq<nat>)
    requires ValidFormat(f) && ValidDraft(f, d) && 0 < n < 0x8000_0000 && GroupFits(n, d.yExp, Bias(f), divZero)
    requires s == ShuffledRanks(n, n, d.shuffleRng) && IsPermutation(s)
    ensures Submits(f, d.yMant, Inputs(n, f, d, n, divZero),
                    Pick(s, Shares(n, n, d.yExp, Bias(f), divZero)), Pick(s, Parities(n)), Pick(s, Owner(n)))
  {
    hide Share, Shuffled, Bias, SubmissionOf, GroupFits, ValidDraft, PartialProduct, Owner;
    var xs := Inputs(n, f, d, n, divZero);
    forall r | 0 <= r < n
      ensures xs[r] == PartialProduct(f, d.yMant, Shares(n, n, d.yExp, Bias(f), divZero)[s[r]],
                                      s[r] % 2, Owner(n)[s[r]])
      ensures Parities(n)[s[r]] == s[r] % 2
    {
      assert xs[r] == SubmissionOf(f, d, n, s[r], divZero);
      OneSubmission(f, d, n, s[r], divZero);
      ParityAt(n, s[r]);
    }
  }

  /** Every reduction tree over all ranks is exact at every node, never overflows nor becomes
      subnormal, and ends in the generated output: sign, exponent and significand. */
  lemma {:induction false} ProdIsExact(f: Format, n: nat, seed: u64, index: u64, divZero: nat,
                                       mul: (Float, Float) -> Float, t: Tree)
    requires ValidFormat(f) && 0 < n < 0x8000_0000
    requires GroupFits(n, DraftFor(f, seed, index).yExp, Bias(f), divZero)
    requires MultipliesExactly(f, mul) && ReducesAll(t, n)
    ensures Below(t, n)
    ensures Eval(t, mul, Inputs(n, f, DraftFor(f, seed, index), n, divZero))
         == OutputOf(f, DraftFor(f, seed, index), n)
    ensures MultipliesExactlyAt(f, t, mul, Inputs(n, f, DraftFor(f, seed, index), n, divZero))
  {
    hide DraftFor, Sum, Inputs, Submits, Shares, Parities, Owner, ShuffledRanks, Pick, IsPermutation, MultipliesExactlyAt;
    var d := DraftFor(f, seed, index);
    var s := ShuffledRanks(n, n, d.shuffleRng);
    DraftIsValid(f, seed, index);
    ShuffleIsPermutation(n, d.shuffleRng);
    InputsSubmit(f, d, n, divZero, s);
    ShareSumExact(n, d.yExp, Bias(f), divZero);
    ParitySum(n);
    OwnerSum(n);
    TreeSumOfAll(t, s, Shares(n, n, d.yExp, Bias(f), divZero));
    TreeSumOfAll(t, s, Parities(n));
    TreeSumOfAll(t, s, Owner(n));
    ProductTree(f, d.yMant, t, mul, Inputs(n, f, d, n, divZero), Pick(s, Shares(n, n, d.yExp, Bias(f), divZero)),
                Pick(s, Parities(n)), Pick(s, Owner(n)));
  }

  // ---- the source's statements: an exponent is an int, which must not overflow

  method GenInOutFloatProd(f: Format, inputNotOutput: bool, rankN: nat, rankMe: nat, seed: u64, index: u64,
                           divZero: u32) returns (ans: Float)
    requires ValidFormat(f) && 0 < rankN < 0x8000_0000 && rankMe < rankN
    requires inputNotOutput ==>
               Share(rankN, Shuffled(rankN, rankMe, DraftFor(f, seed, index).shuffleRng), DraftFor(f, seed, index).yExp,
                     Bias(f), divZero) + Bias(f) < 0x8000_0000
    ensures ans == if inputNotOutput then InputOf(f, DraftFor(f, seed, index), rankN, rankMe, divZero)
                   else OutputOf(f, DraftFor(f, seed, index), rankN)
  {
    hide HashOf, MixBits, Share, FirstTarget, Shuffled, MakeFloat, Pow2, And;
    ExponentRange(f);
    DraftIsValid(f, seed, index);
    ghost var d := DraftFor(f, seed, index);
    var rng := HashOf(seed, index);
    var me: nat;
    me, rng := Shuffle(rankN, rankMe, rng);
    ShuffledInRange(rankN, rankMe, d.shuffleRng);
    var ySign, xSign := (rankN / 2) % 2, me % 2;
    var xExp, yExp;
    rng, xExp, yExp := GenSumXY(rankN, me, rng, Bias(f), 0, false, false, divZero);
    var yMant := And(rng, Pow2(f.m) - 1);
    if yMant == 0 {
      yMant := 1;
    }
    var sign, exp := if inputNotOutput then xSign else ySign, (if inputNotOutput then xExp else yExp) + Bias(f);
    var mant := if !inputNotOutput || me == 0 then yMant else 0;
    if !inputNotOutput {
      MakeFloatFields(f, sign, exp, mant);
    }
    ans := MakeFloat(f, sign, exp, mant);
  }
}
