/** The block-partitioned kernels of verifiable/verifiable.cu. Blocks cut the element range into
    near-equal runs and the threads of a block stride over its run; together they visit every
    element exactly once, so the mismatch counts they add up are the number of wrong elements. */
module VerifyKernel {
  import opened Sums
  import opened Arith

  /** A launch of `grid` blocks of `dim` threads over n elements. */
  datatype Launch = Launch(n: nat, grid: nat, dim: nat)

  predicate ValidLaunch(l: Launch) { l.grid > 0 && l.dim > 0 }

  /** The first element of a block. */
  function BlockStart(l: Launch, block: nat): nat
    requires l.grid > 0
  {
    ProductNonNegative(block, l.n / l.grid);
    block * (l.n / l.grid) + if block < l.n % l.grid then block else l.n % l.grid
  }

  /** Whether a thread visits element i. */
  predicate Visits(l: Launch, block: nat, thread: nat, i: nat)
    requires ValidLaunch(l)
  {
    BlockStart(l, block) <= i < BlockStart(l, block + 1) && (i - BlockStart(l, block)) % l.dim == thread
  }

  lemma {:induction false} BlocksCover(l: Launch)
    requires l.grid > 0
    ensures BlockStart(l, 0) == 0 && BlockStart(l, l.grid) == l.n
  {
    MulCommutes(l.grid, l.n / l.grid);
  }

  /** The blocks are as equal as can be, the longer ones first. */
  lemma {:induction false} BlockLength(l: Launch, block: nat)
    requires l.grid > 0 && block < l.grid
    ensures BlockStart(l, block + 1) == BlockStart(l, block) + l.n / l.grid + if block < l.n % l.grid then 1 else 0
  {
    var q := l.n / l.grid;
    assert (block + 1) * q == block * q + q;
  }

  lemma {:induction false} BlocksAscend(l: Launch, b: nat, c: nat)
    requires l.grid > 0 && b <= c
    ensures BlockStart(l, b) <= BlockStart(l, c)
  {
    assert l.n / l.grid >= 0 by { QuotientLe(l.n, l.grid); }
    MulMono(b, c, l.n / l.grid);
  }

  /** The block an element falls into. */
  lemma {:induction false} FindBlock(l: Launch, i: nat, b: nat) returns (block: nat)
    requires l.grid > 0 && b <= l.grid && i < BlockStart(l, b)
    ensures block < b && BlockStart(l, block) <= i < BlockStart(l, block + 1)
    decreases b
  {
    hide BlockStart;
    BlocksCover(l);
    if BlockStart(l, b - 1) <= i {
      block := b - 1;
    } else {
      block := FindBlock(l, i, b - 1);
    }
  }

  /** Every element has exactly one visitor. */
  lemma {:induction false} ExactlyOneVisitor(l: Launch, i: nat)
    requires ValidLaunch(l) && i < l.n
    ensures exists b, t :: 0 <= b < l.grid && 0 <= t < l.dim && Visits(l, b, t, i)
    ensures forall b: nat, t: nat, c: nat, u: nat | Visits(l, b, t, i) && Visits(l, c, u, i) :: b == c && t == u
  {
    hide BlockStart;
    BlocksCover(l);
    var b := FindBlock(l, i, l.grid);
    assert Visits(l, b, (i - BlockStart(l, b)) % l.dim, i);
    forall b: nat, t: nat, c: nat, u: nat | Visits(l, b, t, i) && Visits(l, c, u, i)
      ensures b == c && t == u
    {
      if b < c {
        BlocksAscend(l, b + 1, c);
      } else if c < b {
        BlocksAscend(l, c + 1, b);
      }
    }
  }

  // ---- counting mismatches

  function Delta(a: nat, b: nat): nat { if a < b then b - a else a - b }

  predicate Wrong(results: seq<nat>, expected: seq<nat>, tolerance: nat, i: nat)
    requires i < |results| == |expected|
  {
    tolerance < Delta(results[i], expected[i])
  }

  /** An element is wrong exactly when one of the two values exceeds the other by more than the tolerance. */
  lemma {:induction false} WrongIs(results: seq<nat>, expected: seq<nat>, tolerance: nat, i: nat)
    requires i < |results| == |expected|
    ensures Wrong(results, expected, tolerance, i)
       <==> results[i] > expected[i] + tolerance || expected[i] > results[i] + tolerance
  {
  }

  /** The wrong elements among the first m. */
  function WrongCount(results: seq<nat>, expected: seq<nat>, tolerance: nat, m: nat): nat
    requires m <= |results| == |expected|
  {
    if m == 0 then 0
    else WrongCount(results, expected, tolerance, m - 1) + if Wrong(results, expected, tolerance, m - 1) then 1 else 0
  }

  /** The wrong elements a thread visits among the first m. */
  function ThreadCount(l: Launch, block: nat, thread: nat, results: seq<nat>, expected: seq<nat>, tolerance: nat, m: nat): nat
    requires ValidLaunch(l) && m <= |results| == |expected|
  {
    if m == 0 then 0
    else
      ThreadCount(l, block, thread, results, expected, tolerance, m - 1)
      + if Visits(l, block, thread, m - 1) && Wrong(results, expected, tolerance, m - 1) then 1 else 0
  }

  /** Elements the thread does not visit add nothing to its count. */
  lemma {:induction false} CountSkips(l: Launch, block: nat, thread: nat, results: seq<nat>, expected: seq<nat>,
                                      tolerance: nat, m: nat, m': nat)
    requires ValidLaunch(l) && m <= m' <= |results| == |expected|
    requires forall i :: m <= i < m' ==> !Visits(l, block, thread, i)
    ensures ThreadCount(l, block, thread, results, expected, tolerance, m')
         == ThreadCount(l, block, thread, results, expected, tolerance, m)
    decreases m'
  {
    if m < m' {
      CountSkips(l, block, thread, results, expected, tolerance, m, m' - 1);
    }
  }

  method VerifyPrepared(l: Launch, block: nat, thread: nat, results: array<nat>, expected: array<nat>, tolerance: nat)
    returns (bad: nat)
    requires ValidLaunch(l) && block < l.grid && thread < l.dim
    requires results.Length == expected.Length == l.n
    ensures bad == ThreadCount(l, block, thread, results[..], expected[..], tolerance, l.n)
  {
    hide BlockStart;
    var i0, i1 := BlockStart(l, block), BlockStart(l, block + 1);
    BlocksCover(l);
    BlocksAscend(l, block, block + 1);
    BlocksAscend(l, block + 1, l.grid);
    var i := i0 + thread;
    bad := 0;
    ghost var rs, es := results[..], expected[..];
    ghost var seen := if i < i1 then i else l.n;
    FirstVisit(l, block, thread);
    CountSkips(l, block, thread, rs, es, tolerance, 0, seen);
    while i < i1
      invariant i0 + thread <= i && (i < i1 ==> Visits(l, block, thread, i))
      invariant seen == if i < i1 then i else l.n
      invariant bad == ThreadCount(l, block, thread, rs, es, tolerance, seen)
    {
      var a, b := results[i], expected[i];
      var delta := if a < b then b - a else a - b;
      bad := bad + if tolerance < delta then 1 else 0;
      NextVisit(l, block, thread, i);
      i := i + l.dim;
      CountSkips(l, block, thread, rs, es, tolerance, seen + 1, if i < i1 then i else l.n);
      seen := if i < i1 then i else l.n;
    }
  }

  /** prepareInput2 and prepareExpected2: a thread fills in the elements it visits. */
  method Prepare<T>(l: Launch, block: nat, thread: nat, elts: array<T>, gen: nat -> T)
    requires ValidLaunch(l) && block < l.grid && thread < l.dim && elts.Length == l.n
    modifies elts
    ensures forall i :: 0 <= i < l.n ==> elts[i] == if Visits(l, block, thread, i) then gen(i) else old(elts[i])
  {
    hide BlockStart;
    var i0, i1 := BlockStart(l, block), BlockStart(l, block + 1);
    BlocksCover(l);
    BlocksAscend(l, block, block + 1);
    BlocksAscend(l, block + 1, l.grid);
    var i := i0 + thread;
    FirstVisit(l, block, thread);
    while i < i1
      invariant i0 + thread <= i && (i < i1 ==> Visits(l, block, thread, i))
      invariant i >= i1 ==> forall j :: i <= j ==> !Visits(l, block, thread, j)
      invariant forall j :: 0 <= j < l.n ==>
                  elts[j] == if j < i && Visits(l, block, thread, j) then gen(j) else old(elts[j])
    {
      elts[i] := gen(i);
      NextVisit(l, block, thread, i);
      i := i + l.dim;
    }
  }

  lemma {:induction false} FirstVisit(l: Launch, block: nat, thread: nat)
    requires ValidLaunch(l) && thread < l.dim
    ensures forall j :: 0 <= j < BlockStart(l, block) + thread ==> !Visits(l, block, thread, j)
    ensures BlockStart(l, block) + thread < BlockStart(l, block + 1) ==>
              Visits(l, block, thread, BlockStart(l, block) + thread)
    ensures BlockStart(l, block) + thread >= BlockStart(l, block + 1) ==>
              forall j :: j >= 0 ==> !Visits(l, block, thread, j)
  {
    hide BlockStart;
    forall j: nat | Visits(l, block, thread, j)
      ensures j >= BlockStart(l, block) + thread
    {
      ModLe(j - BlockStart(l, block), l.dim);
    }
    SmallMod(thread, l.dim);
  }

  lemma {:induction false} ModLe(x: nat, d: nat)
    requires d > 0
    ensures x % d <= x
  {
    QuotientLe(x, d);
    ProductNonNegative(x / d, d);
    assert x == (x / d) * d + x % d;
  }

  lemma {:induction false} NextVisit(l: Launch, block: nat, thread: nat, i: nat)
    requires ValidLaunch(l) && Visits(l, block, thread, i)
    ensures forall j :: i < j < i + l.dim ==> !Visits(l, block, thread, j)
    ensures i + l.dim < BlockStart(l, block + 1) ==> Visits(l, block, thread, i + l.dim)
    ensures i + l.dim >= BlockStart(l, block + 1) ==> forall j :: i < j ==> !Visits(l, block, thread, j)
  {
    hide BlockStart;
    var x := i - BlockStart(l, block);
    forall j | i < j < i + l.dim
      ensures !Visits(l, block, thread, j)
    {
      ModShift(x, j - i, l.dim);
      assert x + (j - i) == j - BlockStart(l, block);
    }
    ModShift(x, l.dim, l.dim);
    assert x + l.dim == i + l.dim - BlockStart(l, block);
  }

  // ---- the atomically added counts

  /** The counts of the first k threads, numbered block by block. */
  function Counts(k: nat, l: Launch, results: seq<nat>, expected: seq<nat>, tolerance: nat, m: nat): (xs: seq<int>)
    requires ValidLaunch(l) && m <= |results| == |expected|
    ensures |xs| == k
    ensures forall i :: 0 <= i < k ==> xs[i] == ThreadCount(l, BlockOf(l, i), ThreadOf(l, i), results, expected, tolerance, m)
  {
    if k == 0 then []
    else
      Counts(k - 1, l, results, expected, tolerance, m)
      + [ThreadCount(l, BlockOf(l, k - 1), ThreadOf(l, k - 1), results, expected, tolerance, m)]
  }

  function BlockOf(l: Launch, i: nat): nat
    requires l.dim > 0
  {
    QuotientLe(i, l.dim);
    i / l.dim
  }

  function ThreadOf(l: Launch, i: nat): nat
    requires l.dim > 0
  {
    i % l.dim
  }

  lemma {:induction false} ThreadNumber(l: Launch, b: nat, t: nat)
    requires ValidLaunch(l) && b < l.grid && t < l.dim
    ensures 0 <= b * l.dim + t < l.grid * l.dim
    ensures BlockOf(l, b * l.dim + t) == b && ThreadOf(l, b * l.dim + t) == t
  {
    MulMono(b + 1, l.grid, l.dim);
    ProductNonNegative(b, l.dim);
    assert (b + 1) * l.dim == b * l.dim + l.dim;
    var i := b * l.dim + t;
    assert i == (i / l.dim) * l.dim + i % l.dim;
    QuotientUnique(i / l.dim, i % l.dim, b, t, l.dim);
  }

  /** The counts of all threads add up to the number of wrong elements. */
  lemma {:induction false} CountsAddUp(l: Launch, results: seq<nat>, expected: seq<nat>, tolerance: nat, m: nat)
    requires ValidLaunch(l) && m <= |results| == |expected| == l.n
    ensures l.grid * l.dim >= 0
    ensures Sum(Counts(l.grid * l.dim, l, results, expected, tolerance, m)) == WrongCount(results, expected, tolerance, m)
  {
    hide Sum, Visits;
    ProductNonNegative(l.grid, l.dim);
    var k := l.grid * l.dim;
    if m == 0 {
      SumZeros(k);
      assert Counts(k, l, results, expected, tolerance, 0) == Zeros(k);
    } else {
      CountsAddUp(l, results, expected, tolerance, m - 1);
      CountsStep(l, k, results, expected, tolerance, m);
    }
  }

  lemma {:induction false} CountsStep(l: Launch, k: nat, results: seq<nat>, expected: seq<nat>, tolerance: nat, m: nat)
    requires ValidLaunch(l) && 0 < m <= |results| == |expected| == l.n && k == l.grid * l.dim
    ensures Sum(Counts(k, l, results, expected, tolerance, m))
         == Sum(Counts(k, l, results, expected, tolerance, m - 1))
          + if Wrong(results, expected, tolerance, m - 1) then 1 else 0
  {
    hide Sum, Visits, BlockOf, ThreadOf, Wrong;
    ExactlyOneVisitor(l, m - 1);
    var b, t :| 0 <= b < l.grid && 0 <= t < l.dim && Visits(l, b, t, m - 1);
    ThreadNumber(l, b, t);
    var own := b * l.dim + t;
    forall i | 0 <= i < k && i != own
      ensures !Visits(l, BlockOf(l, i), ThreadOf(l, i), m - 1)
    {
      ThreadNumberBack(l, i);
    }
    SumBump(Counts(k, l, results, expected, tolerance, m - 1), Counts(k, l, results, expected, tolerance, m), own,
            if Wrong(results, expected, tolerance, m - 1) then 1 else 0);
  }

  lemma {:induction false} ThreadNumberBack(l: Launch, i: nat)
    requires l.dim > 0
    ensures i == BlockOf(l, i) * l.dim + ThreadOf(l, i)
  {
  }

  /** With zero tolerance, nothing is counted exactly when the results equal the expectation. */
  lemma {:induction false} NoneWrong(results: seq<nat>, expected: seq<nat>, m: nat)
    requires m <= |results| == |expected|
    ensures WrongCount(results, expected, 0, m) == 0 <==> results[..m] == expected[..m]
  {
    if m > 0 {
      NoneWrong(results, expected, m - 1);
      assert results[..m] == results[..m - 1] + [results[m - 1]];
      assert expected[..m] == expected[..m - 1] + [expected[m - 1]];
    }
  }
}
