/** Finite sums over sequences, and permutations of an index range. */
module Sums {

  function Sum(xs: seq<int>): int
  {
    if |xs| == 0 then 0 else Sum(xs[..|xs| - 1]) + xs[|xs| - 1]
  }

  lemma {:induction false} SumConcat(xs: seq<int>, ys: seq<int>)
    ensures Sum(xs + ys) == Sum(xs) + Sum(ys)
  {
    if |ys| == 0 {
      assert xs + ys == xs;
    } else {
      var n := |ys| - 1;
      assert (xs + ys)[..|xs + ys| - 1] == xs + ys[..n];
      SumConcat(xs, ys[..n]);
    }
  }

  lemma {:induction false} SumSnoc(xs: seq<int>, x: int)
    ensures Sum(xs + [x]) == Sum(xs) + x
  {
    assert (xs + [x])[..|xs|] == xs;
  }

  lemma {:induction false} SumSingle(x: int)
    ensures Sum([x]) == x
  {
    assert [x][..0] == [];
  }

  function Without<T>(p: seq<T>, i: nat): seq<T>
    requires i < |p|
  {
    p[..i] + p[i + 1..]
  }

  lemma {:induction false} SumRemove(xs: seq<int>, i: nat)
    requires i < |xs|
    ensures Sum(xs) == Sum(Without(xs, i)) + xs[i]
  {
    assert xs == xs[..i] + [xs[i]] + xs[i + 1..];
    SumConcat(xs[..i] + [xs[i]], xs[i + 1..]);
    SumConcat(xs[..i], [xs[i]]);
    SumSingle(xs[i]);
    SumConcat(xs[..i], xs[i + 1..]);
  }

  lemma {:induction false} SumBump(xs: seq<int>, ys: seq<int>, k: nat, c: int)
    requires |xs| == |ys| && k < |xs| && ys[k] == xs[k] + c
    requires forall i :: 0 <= i < |xs| && i != k ==> ys[i] == xs[i]
    ensures Sum(ys) == Sum(xs) + c
  {
    SumRemove(xs, k);
    SumRemove(ys, k);
    assert Without(xs, k) == Without(ys, k);
  }

  lemma {:induction false} SumNonNegative(xs: seq<int>)
    requires forall i :: 0 <= i < |xs| ==> xs[i] >= 0
    ensures Sum(xs) >= 0
    ensures forall i :: 0 <= i < |xs| ==> xs[i] <= Sum(xs)
  {
    if |xs| > 0 {
      var n := |xs| - 1;
      assert forall i :: 0 <= i < n ==> xs[..n][i] == xs[i];
      SumNonNegative(xs[..n]);
    }
  }

  lemma {:induction false} SumConstant(xs: seq<int>, c: int)
    requires forall i :: 0 <= i < |xs| ==> xs[i] == c
    ensures Sum(xs) == c * |xs|
  {
    if |xs| > 0 {
      SumConstant(xs[..|xs| - 1], c);
      assert c * |xs| == c * (|xs| - 1) + c;
    }
  }

  /** A sum of bounded terms reaches its bound exactly when every term does. */
  lemma {:induction false} SumAtMost(xs: seq<int>, m: int)
    requires forall i :: 0 <= i < |xs| ==> xs[i] <= m
    ensures Sum(xs) <= m * |xs|
    ensures Sum(xs) == m * |xs| <==> forall i :: 0 <= i < |xs| ==> xs[i] == m
  {
    if xs == [] {
      assert m * 0 == 0;
    } else {
      var n := |xs| - 1;
      SumAtMost(xs[..n], m);
      assert m * |xs| == m * n + m by { assert |xs| == n + 1; assert m * (n + 1) == m * n + m; }
      assert forall i :: 0 <= i < n ==> xs[i] == xs[..n][i];
    }
  }

  function Zeros(n: nat): (xs: seq<nat>)
    ensures |xs| == n && forall i :: 0 <= i < n ==> xs[i] == 0
  {
    if n == 0 then [] else Zeros(n - 1) + [0]
  }

  lemma {:induction false} SumZeros(n: nat)
    ensures Sum(Zeros(n)) == 0
  {
    hide Sum;
    if n == 0 {
      SumOfNothing();
    } else {
      SumZeros(n - 1);
      SumSnoc(Zeros(n - 1), 0);
    }
  }

  lemma {:induction false} SumOfNothing()
    ensures Sum([]) == 0
  {
  }

  // ---- permutations

  predicate Distinct(p: seq<nat>)
  {
    forall i, j :: 0 <= i < j < |p| ==> p[i] != p[j]
  }

  predicate Bounded(p: seq<nat>, n: nat)
  {
    forall i :: 0 <= i < |p| ==> p[i] < n
  }

  /** p lists every index below |p| exactly once. */
  predicate IsPermutation(p: seq<nat>)
  {
    Distinct(p) && Bounded(p, |p|)
  }

  lemma {:induction false} WithoutDistinct(p: seq<nat>, i: nat, m: nat)
    requires i < |p| && Distinct(p) && p[i] == m && Bounded(p, m + 1)
    ensures Distinct(Without(p, i)) && Bounded(Without(p, i), m)
  {
    var q := Without(p, i);
    assert forall k :: 0 <= k < |q| ==> q[k] == if k < i then p[k] else p[k + 1];
  }

  /** The pigeonhole principle. */
  lemma {:induction false} Pigeonhole(p: seq<nat>, m: nat)
    requires Distinct(p) && Bounded(p, m)
    ensures |p| <= m
    decreases m
  {
    if |p| > 0 {
      assert p[0] < m;
      if i :| 0 <= i < |p| && p[i] == m - 1 {
        WithoutDistinct(p, i, m - 1);
        Pigeonhole(Without(p, i), m - 1);
      } else {
        Pigeonhole(p, m - 1);
      }
    }
  }

  lemma {:induction false} PermutationHits(p: seq<nat>, v: nat)
    requires IsPermutation(p) && v < |p|
    ensures exists i :: 0 <= i < |p| && p[i] == v
  {
    if v !in p {
      // Appending the missing value would make too long a list of distinct indices.
      Pigeonhole(p + [v], |p|);
    }
  }

  function Pick<T>(p: seq<nat>, xs: seq<T>): (ys: seq<T>)
    requires Bounded(p, |xs|)
    ensures |ys| == |p| && forall i :: 0 <= i < |p| ==> ys[i] == xs[p[i]]
  {
    if |p| == 0 then [] else Pick(p[..|p| - 1], xs) + [xs[p[|p| - 1]]]
  }

  lemma {:induction false} PickWithout(p: seq<nat>, i: nat, xs: seq<int>, m: nat)
    requires i < |p| && m <= |xs| && Bounded(p, |xs|) && Bounded(Without(p, i), m)
    ensures Without(Pick(p, xs), i) == Pick(Without(p, i), xs[..m])
  {
    var l, r := Without(Pick(p, xs), i), Pick(Without(p, i), xs[..m]);
    forall k | 0 <= k < |l|
      ensures l[k] == r[k]
    {
      assert Without(p, i)[k] == if k < i then p[k] else p[k + 1];
    }
  }

  /** Listing every number below n takes at least n entries. */
  lemma {:induction false} AllPresent(p: seq<nat>, n: nat)
    requires forall v: nat :: v < n ==> v in p
    ensures |p| >= n
  {
    if n > 0 {
      var last: nat := n - 1;
      assert last in p;
      var i :| 0 <= i < |p| && p[i] == n - 1;
      forall v: nat | v < n - 1
        ensures v in Without(p, i)
      {
        assert v in p;
        var j :| 0 <= j < |p| && p[j] == v;
        assert Without(p, i)[if j < i then j else j - 1] == v;
      }
      AllPresent(Without(p, i), n - 1);
    }
  }

  /** Reordering the terms does not change the sum. */
  lemma {:induction false} SumOfPermutation(p: seq<nat>, xs: seq<int>)
    requires IsPermutation(p) && |p| == |xs|
    ensures Sum(Pick(p, xs)) == Sum(xs)
  {
    if |p| > 0 {
      var n := |p| - 1;
      PermutationHits(p, n);
      var i :| 0 <= i < |p| && p[i] == n;
      WithoutDistinct(p, i, n);
      SumOfPermutation(Without(p, i), xs[..n]);
      SumRestore(p, i, xs);
    }
  }

  lemma {:induction false} SumRestore(p: seq<nat>, i: nat, xs: seq<int>)
    requires i < |p| == |xs| && Bounded(p, |p|) && p[i] == |p| - 1
    requires Bounded(Without(p, i), |p| - 1)
    requires Sum(Pick(Without(p, i), xs[..|p| - 1])) == Sum(xs[..|p| - 1])
    ensures Sum(Pick(p, xs)) == Sum(xs)
  {
    hide Sum, Without, Pick, Bounded;
    PickWithout(p, i, xs, |p| - 1);
    SumRemove(Pick(p, xs), i);
    assert Pick(p, xs)[i] == xs[|p| - 1];
    SumSnoc(xs[..|p| - 1], xs[|p| - 1]);
    assert xs[..|p| - 1] + [xs[|p| - 1]] == xs;
  }

  /** Applying a permutation to the entries of a permutation gives a permutation. */
  lemma {:induction false} PermutationCompose(p: seq<nat>, s: seq<nat>)
    requires IsPermutation(p) && IsPermutation(s) && |p| == |s|
    ensures IsPermutation(Pick(p, s))
  {
    var q := Pick(p, s);
    forall i, j | 0 <= i < j < |q|
      ensures q[i] != q[j]
    {
      assert p[i] != p[j];
      assert s[p[i]] != s[p[j]] by {
        if p[i] < p[j] {
        } else {
          assert p[j] < p[i];
        }
      }
    }
  }

  lemma {:induction false} PickPick<T>(p: seq<nat>, s: seq<nat>, xs: seq<T>)
    requires Bounded(p, |s|) && Bounded(s, |xs|)
    ensures Pick(p, Pick(s, xs)) == Pick(Pick(p, s), xs)
  {
  }
}
