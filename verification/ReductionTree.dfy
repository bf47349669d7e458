/** Reductions in an arbitrary order and association: binary trees with one leaf per rank. */
module ReductionTree {
  import opened Sums
  import opened Floats

  datatype Tree = Leaf(rank: nat) | Node(left: Tree, right: Tree)

  function Leaves(t: Tree): seq<nat>
  {
    match t
    case Leaf(r) => [r]
    case Node(l, r) => Leaves(l) + Leaves(r)
  }

  predicate Below(t: Tree, n: nat)
  {
    match t
    case Leaf(r) => r < n
    case Node(l, r) => Below(l, n) && Below(r, n)
  }

  /** The tree combines the contributions of ranks 0..n-1, each exactly once. */
  predicate ReducesAll(t: Tree, n: nat)
  {
    |Leaves(t)| == n && IsPermutation(Leaves(t))
  }

  lemma {:induction false} LeavesBelow(t: Tree, n: nat)
    ensures Below(t, n) <==> Bounded(Leaves(t), n)
  {
    match t
    case Leaf(r) => assert Leaves(t)[0] == r;
    case Node(l, r) =>
      LeavesBelow(l, n);
      LeavesBelow(r, n);
      assert forall i :: 0 <= i < |Leaves(l)| ==> Leaves(t)[i] == Leaves(l)[i];
      assert forall i :: 0 <= i < |Leaves(r)| ==> Leaves(t)[|Leaves(l)| + i] == Leaves(r)[i];
  }

  function Eval<T>(t: Tree, op: (T, T) -> T, xs: seq<T>): T
    requires Below(t, |xs|)
  {
    match t
    case Leaf(r) => xs[r]
    case Node(l, r) => op(Eval(l, op, xs), Eval(r, op, xs))
  }

  function TreeSum(t: Tree, ks: seq<int>): int
    requires Below(t, |ks|)
  {
    match t
    case Leaf(r) => ks[r]
    case Node(l, r) => TreeSum(l, ks) + TreeSum(r, ks)
  }

  lemma {:induction false} PickConcat<T>(p: seq<nat>, q: seq<nat>, xs: seq<T>)
    requires Bounded(p, |xs|) && Bounded(q, |xs|)
    ensures Bounded(p + q, |xs|) && Pick(p + q, xs) == Pick(p, xs) + Pick(q, xs)
  {
  }

  lemma {:induction false} TreeSumOfLeaves(t: Tree, ks: seq<int>)
    requires Below(t, |ks|)
    ensures Bounded(Leaves(t), |ks|) && TreeSum(t, ks) == Sum(Pick(Leaves(t), ks))
  {
    LeavesBelow(t, |ks|);
    match t
    case Leaf(r) =>
      assert Pick([r], ks) == [ks[r]];
      SumSingle(ks[r]);
    case Node(l, r) =>
      TreeSumOfLeaves(l, ks);
      TreeSumOfLeaves(r, ks);
      PickConcat(Leaves(l), Leaves(r), ks);
      SumConcat(Pick(Leaves(l), ks), Pick(Leaves(r), ks));
  }

  /** Every order of reduction gives the plain sum, also after renumbering the ranks. */
  lemma {:induction false} TreeSumOfAll(t: Tree, s: seq<nat>, ks: seq<int>)
    requires |s| == |ks| && ReducesAll(t, |ks|) && IsPermutation(s)
    ensures Below(t, |ks|) && TreeSum(t, Pick(s, ks)) == Sum(ks)
  {
    LeavesBelow(t, |ks|);
    TreeSumOfLeaves(t, Pick(s, ks));
    PickPick(Leaves(t), s, ks);
    PermutationCompose(Leaves(t), s);
    SumOfPermutation(Pick(Leaves(t), s), ks);
  }

  lemma {:induction false} TreeSumNonNegative(t: Tree, ks: seq<int>)
    requires Below(t, |ks|) && forall i :: 0 <= i < |ks| ==> ks[i] >= 0
    ensures TreeSum(t, ks) >= 0
  {
    match t
    case Leaf(r) =>
    case Node(l, r) =>
      TreeSumNonNegative(l, ks);
      TreeSumNonNegative(r, ks);
  }

  // ---- floating-point sums

  /** No node of the tree rounds: each partial result is the exact sum of its operands. */
  ghost predicate SumsExactly(f: Format, t: Tree, add: (Float, Float) -> Float, xs: seq<Float>)
    requires Below(t, |xs|)
  {
    match t
    case Leaf(r) => Finite(f, xs[r])
    case Node(l, r) =>
      && ExactSum(f, Eval(l, add, xs), Eval(r, add, xs), Eval(t, add, xs))
      && SumsExactly(f, l, add, xs) && SumsExactly(f, r, add, xs)
  }

  /** Rank i contributes the integer pos[i] - neg[i], in units of 2^(exp-1) and up to one sign. */
  predicate Encodes(f: Format, sign: bool, exp: nat, xs: seq<Float>, pos: seq<int>, neg: seq<int>)
  {
    && |xs| == |pos| == |neg|
    && forall i :: 0 <= i < |xs| ==>
         pos[i] >= 0 && neg[i] >= 0 && xs[i] == FloatOf(f, sign, exp, pos[i] - neg[i])
  }

  /** If the positive and the negative contributions each fit the mantissa in total, every
      partial sum of every tree is exact. */
  lemma {:induction false} ExactTree(f: Format, sign: bool, exp: nat, t: Tree, add: (Float, Float) -> Float,
                                     xs: seq<Float>, pos: seq<int>, neg: seq<int>)
    requires ExponentOk(f, exp) && AddsExactly(f, add) && Encodes(f, sign, exp, xs, pos, neg)
    requires Below(t, |xs|) && TreeSum(t, pos) <= MaxMant(f) && TreeSum(t, neg) <= MaxMant(f)
    ensures Eval(t, add, xs) == FloatOf(f, sign, exp, TreeSum(t, pos) - TreeSum(t, neg))
    ensures SumsExactly(f, t, add, xs)
  {
    hide FloatOf, Units, MaxMant;
    match t
    case Leaf(r) =>
      EncodedUnits(f, sign, exp, pos[r] - neg[r]);
    case Node(l, r) =>
      TreeSumNonNegative(l, pos);
      TreeSumNonNegative(r, pos);
      TreeSumNonNegative(l, neg);
      TreeSumNonNegative(r, neg);
      ExactTree(f, sign, exp, l, add, xs, pos, neg);
      ExactTree(f, sign, exp, r, add, xs, pos, neg);
      var k1, k2 := TreeSum(l, pos) - TreeSum(l, neg), TreeSum(r, pos) - TreeSum(r, neg);
      ExactNode(f, sign, exp, add, Eval(l, add, xs), Eval(r, add, xs), k1, k2);
  }

  lemma {:induction false} ExactNode(f: Format, sign: bool, exp: nat, add: (Float, Float) -> Float,
                                     x: Float, y: Float, k1: int, k2: int)
    requires ExponentOk(f, exp) && AddsExactly(f, add)
    requires FitsMant(f, k1) && FitsMant(f, k2) && FitsMant(f, k1 + k2)
    requires x == FloatOf(f, sign, exp, k1) && y == FloatOf(f, sign, exp, k2)
    ensures add(x, y) == FloatOf(f, sign, exp, k1 + k2) && ExactSum(f, x, y, add(x, y))
  {
    EncodedSum(f, sign, exp, k1, k2);
  }

  /** With roundings to nearest, a tree over values of one sign never ends below any of its leaves. */
  lemma {:induction false} TreeAtLeast(f: Format, sign: bool, t: Tree, xs: seq<Float>, rank: nat, v: nat)
    requires f.m >= 1 && Below(t, |xs|) && forall i :: 0 <= i < |xs| ==> AtLeast(f, sign, xs[i], 0)
    requires rank < |xs| && AtLeast(f, sign, xs[rank], v)
    ensures AtLeast(f, sign, Eval(t, (a, b) => AddNearest(f, a, b), xs), 0)
    ensures rank in Leaves(t) ==> AtLeast(f, sign, Eval(t, (a, b) => AddNearest(f, a, b), xs), v)
  {
    hide AtLeast, AddNearest;
    match t
    case Leaf(r) =>
    case Node(l, r) =>
      TreeAtLeast(f, sign, l, xs, rank, v);
      TreeAtLeast(f, sign, r, xs, rank, v);
      var x, y := Eval(l, (a, b) => AddNearest(f, a, b), xs), Eval(r, (a, b) => AddNearest(f, a, b), xs);
      AddKeepsBound(f, sign, x, y, 0);
      if rank in Leaves(t) {
        AddKeepsBound(f, sign, x, y, v);
      }
  }

  /** Any reduction of all ranks, after renumbering them by s, ends in the exact total. */
  lemma {:induction false} ExactReduction(f: Format, sign: bool, exp: nat, t: Tree, add: (Float, Float) -> Float,
                                          xs: seq<Float>, s: seq<nat>, pos: seq<int>, neg: seq<int>)
    requires ExponentOk(f, exp) && AddsExactly(f, add) && |pos| == |neg| == |s| && IsPermutation(s)
    requires Encodes(f, sign, exp, xs, Pick(s, pos), Pick(s, neg)) && ReducesAll(t, |s|)
    requires Sum(pos) <= MaxMant(f) && Sum(neg) <= MaxMant(f)
    ensures Below(t, |xs|)
    ensures Eval(t, add, xs) == FloatOf(f, sign, exp, Sum(pos) - Sum(neg))
    ensures SumsExactly(f, t, add, xs)
  {
    hide Sum, Pick, Distinct, FloatOf, SumsExactly, AddsExactly;
    TreeSumOfAll(t, s, pos);
    TreeSumOfAll(t, s, neg);
    ExactTree(f, sign, exp, t, add, xs, Pick(s, pos), Pick(s, neg));
  }

  /** The same when the contributions are already listed by rank and none is negative. */
  lemma {:induction false} ExactReductionByRank(f: Format, sign: bool, exp: nat, t: Tree,
                                                add: (Float, Float) -> Float, xs: seq<Float>, ks: seq<int>)
    requires ExponentOk(f, exp) && AddsExactly(f, add) && ReducesAll(t, |ks|)
    requires Encodes(f, sign, exp, xs, ks, Zeros(|ks|)) && Sum(ks) <= MaxMant(f)
    ensures Below(t, |xs|)
    ensures Eval(t, add, xs) == FloatOf(f, sign, exp, Sum(ks))
    ensures SumsExactly(f, t, add, xs)
  {
    hide Sum, Pick, Distinct, FloatOf, SumsExactly, AddsExactly;
    LeavesBelow(t, |ks|);
    TreeSumOfLeaves(t, ks);
    SumOfPermutation(Leaves(t), ks);
    TreeSumOfLeaves(t, Zeros(|ks|));
    SumOfPermutation(Leaves(t), Zeros(|ks|));
    SumZeros(|ks|);
    ExactTree(f, sign, exp, t, add, xs, ks, Zeros(|ks|));
  }

  // ---- there are such trees

  /** One rank after the other. */
  function Chain(n: nat): Tree
    requires n > 0
  {
    if n == 1 then Leaf(0) else Node(Chain(n - 1), Leaf(n - 1))
  }

  lemma {:induction false} ChainReducesAll(n: nat)
    requires n > 0
    ensures ReducesAll(Chain(n), n) && forall i :: 0 <= i < n ==> Leaves(Chain(n))[i] == i
  {
    if n > 1 {
      ChainReducesAll(n - 1);
      assert Leaves(Chain(n)) == Leaves(Chain(n - 1)) + [n - 1];
    }
  }
}
