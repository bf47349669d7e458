/** What the exact-data generators of verifiable/verifiable.cu share: the common exponent, the
    shuffled rank numbers as a permutation, groups of even and odd ranks, and packing a mantissa. */
module ExactData {
  import opened Bits
  import opened Sums
  import opened ShuffleRank
  import opened GenSum
  import opened Floats

  /** Mantissas are computed in 64 bits for types wider than 32 bits. */
  predicate Wide(f: Format) { 1 + f.e + f.m > 32 }

  lemma {:induction false} WideFormats()
    ensures forall f :: f in {FLOAT16, BFLOAT16, FLOAT32, FLOAT64, FLOAT8_E4M3, FLOAT8_E5M2} ==> (Wide(f) <==> f == FLOAT64)
  {
  }

  lemma {:induction false} MantissaFits(f: Format)
    requires ValidFormat(f)
    ensures 2 * MaxMant(f) < WordSize(Wide(f)) && MaxMant(f) >= 7
    ensures !Wide(f) ==> MaxMant(f) <= 0x7fff_ffff
  {
    hide Pow2;
    Pow2Word();
    Pow2Word64();
    Pow2Mono(3, f.m + 1);
    Eight();
    Pow2Next(f.m + 1);
    if Wide(f) {
      Pow2Mono(f.m + 2, 64);
    } else {
      Pow2Mono(f.m + 2, 32);
    }
  }

  lemma {:induction false} Eight()
    ensures Pow2(3) == 8
  {
  }

  /** The exponent all values of one element share, from the high word of the random bits. */
  function CommonExponent(f: Format, rng: u64): (exp: nat)
    requires ValidFormat(f)
    ensures ExponentOk(f, exp)
  {
    var n := Pow2(f.e) - 1 - (1 + f.m);
    ExponentCountIsWord(f);
    HighWordBelow(rng / TWO_32, n, TWO_32);
    1 + f.m + Umul32Hi(rng / TWO_32, n)
  }

  lemma {:induction false} ExponentCountIsWord(f: Format)
    requires ValidFormat(f)
    ensures Pow2(f.e) < TWO_32
  {
    Pow2Word();
    Pow2Mono(f.e, 31);
  }

  /** A larger high word never draws a smaller exponent. */
  lemma {:induction false} ExponentMono(f: Format, rng: u64, rng': u64)
    requires ValidFormat(f) && rng / TWO_32 <= rng' / TWO_32
    ensures CommonExponent(f, rng) <= CommonExponent(f, rng')
  {
    ExponentCountIsWord(f);
    HighWordMono(rng / TWO_32, rng' / TWO_32, Pow2(f.e) - 1 - (1 + f.m), TWO_32);
  }

  /** Every permitted exponent is drawn by some word, together with either sign. */
  lemma {:induction false} ExponentDrawn(f: Format, exp: nat, sign: bool) returns (rng: u64)
    requires ValidFormat(f) && ExponentOk(f, exp)
    ensures CommonExponent(f, rng) == exp && (rng % 2 == 1 <==> sign)
  {
    ExponentCountIsWord(f);
    var hi := HighWordOnto(exp - 1 - f.m, Pow2(f.e) - 1 - (1 + f.m), TWO_32);
    rng := hi * TWO_32 + if sign then 1 else 0;
    WordParts(hi, sign);
  }

  lemma {:induction false} WordParts(hi: u32, sign: bool)
    ensures var w := hi * TWO_32 + (if sign then 1 else 0);
            w < TWO_64 && w / TWO_32 == hi && (w % 2 == 1 <==> sign)
  {
  }

  // ---- shuffled ranks

  function ShuffledRanks(m: nat, rankN: nat, rng: u64): (p: seq<nat>)
    requires rankN > 0
    ensures |p| == m && forall r :: 0 <= r < m ==> p[r] == Shuffled(rankN, r, rng)
  {
    if m == 0 then [] else ShuffledRanks(m - 1, rankN, rng) + [Shuffled(rankN, m - 1, rng)]
  }

  /** shuffleRank maps [0, rankN) one-to-one onto itself. */
  lemma {:induction false} ShuffleIsPermutation(rankN: nat, rng: u64)
    requires rankN > 0
    ensures IsPermutation(ShuffledRanks(rankN, rankN, rng))
  {
    var p := ShuffledRanks(rankN, rankN, rng);
    forall i | 0 <= i < |p|
      ensures p[i] < rankN
    {
      ShuffledInRange(rankN, i, rng);
    }
    forall i, j | 0 <= i < j < |p|
      ensures p[i] != p[j]
    {
      if p[i] == p[j] {
        ShuffledInjective(rankN, i, j, rng);
      }
    }
  }

  /** Exactly one rank is sent to each place. */
  lemma {:induction false} ShuffleIsOnto(rankN: nat, place: nat, rng: u64)
    requires place < rankN
    ensures exists r :: 0 <= r < rankN && Shuffled(rankN, r, rng) == place
  {
    ShuffleIsPermutation(rankN, rng);
    PermutationHits(ShuffledRanks(rankN, rankN, rng), place);
  }

  // ---- the even and the odd ranks as two groups

  /** The entries of `group` on the ranks of one parity, in order, and 0 on the others. */
  function Spread(m: nat, parity: nat, group: seq<int>): (xs: seq<int>)
    requires parity <= 1 && (m + 1 - parity) / 2 <= |group|
    ensures |xs| == m
  {
    if m == 0 then [] else Spread(m - 1, parity, group) + [SpreadEntry(m - 1, parity, group)]
  }

  function SpreadEntry(j: nat, parity: nat, group: seq<int>): int
    requires j % 2 == parity ==> j / 2 < |group|
  {
    if j % 2 == parity then group[j / 2] else 0
  }

  lemma {:induction false} SpreadAt(m: nat, parity: nat, group: seq<int>, j: nat)
    requires parity <= 1 && (m + 1 - parity) / 2 <= |group| && j < m
    ensures j % 2 == parity ==> j / 2 < |group|
    ensures Spread(m, parity, group)[j] == SpreadEntry(j, parity, group)
  {
    if j < m - 1 {
      SpreadAt(m - 1, parity, group, j);
    }
  }

  lemma {:induction false} SpreadSum(m: nat, parity: nat, group: seq<int>)
    requires parity <= 1 && (m + 1 - parity) / 2 <= |group|
    ensures Sum(Spread(m, parity, group)) == Sum(group[..(m + 1 - parity) / 2])
  {
    hide Sum, Spread;
    if m == 0 {
      assert Spread(0, parity, group) == group[..(1 - parity) / 2] == [];
    } else {
      SpreadSum(m - 1, parity, group);
      SpreadStep(m, parity, group);
    }
  }

  lemma {:induction false} SpreadStep(m: nat, parity: nat, group: seq<int>)
    requires m > 0 && parity <= 1 && (m + 1 - parity) / 2 <= |group|
    requires Sum(Spread(m - 1, parity, group)) == Sum(group[..(m - parity) / 2])
    ensures Sum(Spread(m, parity, group)) == Sum(group[..(m + 1 - parity) / 2])
  {
    hide Sum, Spread;
    SpreadLast(m, parity, group);
    SumSnoc(Spread(m - 1, parity, group), SpreadEntry(m - 1, parity, group));
    if (m - 1) % 2 == parity {
      assert (m - parity) / 2 == (m - 1) / 2 && (m + 1 - parity) / 2 == (m - 1) / 2 + 1;
      SumPrefix(group, (m - 1) / 2);
    }
  }

  lemma {:induction false} SpreadLast(m: nat, parity: nat, group: seq<int>)
    requires m > 0 && parity <= 1 && (m + 1 - parity) / 2 <= |group|
    ensures Spread(m, parity, group) == Spread(m - 1, parity, group) + [SpreadEntry(m - 1, parity, group)]
  {
  }

  lemma {:induction false} SumPrefix(xs: seq<int>, h: nat)
    requires h < |xs|
    ensures Sum(xs[..h + 1]) == Sum(xs[..h]) + xs[h]
  {
    assert xs[..h + 1] == xs[..h] + [xs[h]];
    SumSnoc(xs[..h], xs[h]);
  }

  // ---- packing

  /** Normalise a mantissa and assemble the float, as the ends of the generators do. */
  method PackMant(f: Format, sign: nat, exp: nat, mant: nat) returns (ans: Float)
    requires ValidFormat(f) && sign <= 1 && ExponentOk(f, exp) && mant <= MaxMant(f)
    ensures ans == FloatOf(f, sign == 1, exp, mant)
  {
    hide Pow2, Shl, Low, And, BitLength, MakeFloat;
    Pow2Next(f.m);
    if mant == 0 {
      ans := POSITIVE_ZERO;
    } else {
      Normalised(f, mant);
      var shift := 64 - BitLength(mant) - (64 - f.m - 1);  // clz64(mant) - (64 - mantissa_bits - 1)
      AndMask(Shl(mant, shift), f.m);
      MakeFloatFields(f, sign, exp - shift, Low(Shl(mant, shift), f.m));
      ans := MakeFloat(f, sign, exp - shift, And(Shl(mant, shift), Pow2(f.m) - 1));
    }
  }

  /** A negative multiple is the float of the opposite sign. */
  lemma {:induction false} FloatOfNegated(f: Format, sign: bool, exp: nat, k: nat)
    ensures FloatOf(f, sign, exp, 0 - k) == FloatOf(f, !sign, exp, k)
  {
  }
}
