/** The two load/store all-to-all kernels of src/alltoall.cu: the scalar one, and the one that moves
    vectors, unrolled, for a few peers at a time. A method issues the element copies of one thread of
    one rank in the kernel's loop order. */
module AlltoAllKernels {
  import opened Arith
  import opened Lists

  /** aligned: the send pointer is a multiple of vecBytes. */
  datatype Shape = Shape(nRanks: nat, count: nat, threads: nat, eltBytes: nat, vecBytes: nat, aligned: bool)

  /** One element, from an index of the own send window to an index of a peer's receive window. */
  datatype Copy = Copy(peer: nat, from: int, to: int)

  predicate ValidShape(s: Shape)
  {
    s.threads > 0 && 0 < s.eltBytes <= s.vecBytes <= 128
  }

  const PEER_UNROLL := 2

  /** Start of a rank's slot. */
  function Slot(s: Shape, r: nat): int
  {
    r * s.count
  }

  /** The copy that the collective asks for: element e of the chunk for peer. */
  function Unit(s: Shape, rank: nat, peer: nat, e: int): Copy
  {
    Copy(peer, Slot(s, peer) + e, Slot(s, rank) + e)
  }

  function Element(s: Shape, rank: nat, c: Copy): int
  {
    c.to - Slot(s, rank)
  }

  predicate Genuine(s: Shape, rank: nat, c: Copy)
  {
    c.peer < s.nRanks && 0 <= Element(s, rank, c) < s.count && c == Unit(s, rank, c.peer, Element(s, rank, c))
  }

  /** The log holds, once each, exactly the copies that sel selects by peer and element. */
  ghost predicate Covers(s: Shape, rank: nat, log: seq<Copy>, sel: (nat, int) -> bool)
  {
    && NoRepeats(log)
    && forall c :: c in log <==> Genuine(s, rank, c) && sel(c.peer, Element(s, rank, c))
  }

  lemma {:induction false} CoversBoth(s: Shape, rank: nat, a: seq<Copy>, selA: (nat, int) -> bool,
                                      b: seq<Copy>, selB: (nat, int) -> bool, sel: (nat, int) -> bool)
    requires Covers(s, rank, a, selA) && Covers(s, rank, b, selB)
    requires forall p: nat, e :: p < s.nRanks && 0 <= e < s.count ==>
               (sel(p, e) <==> selA(p, e) || selB(p, e)) && !(selA(p, e) && selB(p, e))
    ensures Covers(s, rank, a + b, sel)
  {
    hide Unit, Slot;
    forall i, j | 0 <= i < j < |a + b|
      ensures (a + b)[i] != (a + b)[j]
    {
      if i < |a| <= j {
        assert a[i] in a && b[j - |a|] in b;
      }
    }
    forall c
      ensures c in a + b <==> Genuine(s, rank, c) && sel(c.peer, Element(s, rank, c))
    {
      assert c in a + b <==> c in a || c in b;
    }
  }

  lemma {:induction false} CoversSame(s: Shape, rank: nat, log: seq<Copy>, selA: (nat, int) -> bool, sel: (nat, int) -> bool)
    requires Covers(s, rank, log, selA)
    requires forall p: nat, e :: p < s.nRanks && 0 <= e < s.count ==> (sel(p, e) <==> selA(p, e))
    ensures Covers(s, rank, log, sel)
  {
    hide Unit, Slot;
  }

  lemma {:induction false} CoversNothing(s: Shape, rank: nat, sel: (nat, int) -> bool)
    requires forall p: nat, e :: p < s.nRanks && 0 <= e < s.count ==> !sel(p, e)
    ensures Covers(s, rank, [], sel)
  {
    hide Unit, Slot;
  }

  lemma {:induction false} CoversOne(s: Shape, rank: nat, peer: nat, e: nat)
    requires peer < s.nRanks && e < s.count
    ensures Covers(s, rank, [Unit(s, rank, peer, e)], (p: nat, x: int) => p == peer && x == e)
  {
    var one := [Unit(s, rank, peer, e)];
    forall c
      ensures c in one <==> Genuine(s, rank, c) && c.peer == peer && Element(s, rank, c) == e
    {
      hide Slot;
    }
  }

  // ---- scalar copies

  /** `for (peer = 0; peer < nRanks; peer++)` for one element. */
  method CopyElement(s: Shape, rank: nat, e: nat) returns (log: seq<Copy>)
    requires e < s.count
    ensures Covers(s, rank, log, (p: nat, x: int) => x == e)
  {
    hide Covers;
    log := [];
    CoversNothing(s, rank, (p: nat, x: int) => p < 0 && x == e);
    for peer := 0 to s.nRanks
      invariant Covers(s, rank, log, (p: nat, x: int) => p < peer && x == e)
    {
      CoversOne(s, rank, peer, e);
      CoversBoth(s, rank, log, (p: nat, x: int) => p < peer && x == e,
                 [Unit(s, rank, peer, e)], (p: nat, x: int) => p == peer && x == e,
                 (p: nat, x: int) => p < peer + 1 && x == e);
      log := log + [Copy(peer, Slot(s, peer) + e, Slot(s, rank) + e)];
    }
    CoversSame(s, rank, log, (p: nat, x: int) => p < s.nRanks && x == e, (p: nat, x: int) => x == e);
  }

  /** In one row of n numbers starting at a multiple of n, tid's number is the one congruent to tid. */
  lemma {:induction false} RowOf(row: nat, k: nat, n: nat, tid: nat, v: nat)
    requires tid < n && row == k * n && row <= v < row + n
    ensures v % n == tid <==> v == row + tid
    ensures row + n == (k + 1) * n
  {
    assert v == k * n + (v - row);
    DivModOf(k, v - row, n);
  }

  /** The elements from `start` that thread tid of n takes, below a bound. */
  function Residue(start: int, n: nat, e: int): int
    requires n > 0
  {
    (e - start) % n
  }

  predicate Mine(start: nat, bound: int, n: nat, tid: nat, e: int)
    requires n > 0
  {
    start <= e < bound && Residue(start, n, e) == tid
  }

  /** `for (offset = start + tid; offset < count; offset += nthreads)` with all peers for each. */
  method ScalarLoop(s: Shape, rank: nat, start: nat, tid: nat) returns (log: seq<Copy>)
    requires ValidShape(s) && tid < s.threads && start <= s.count
    ensures Covers(s, rank, log, (p: nat, e: int) => Mine(start, s.count, s.threads, tid, e))
  {
    hide Covers, Mine;
    var n := s.threads;
    log := [];
    var row := start;
    ghost var k := 0;
    MineEmpty(start, n, tid);
    CoversNothing(s, rank, (p: nat, e: int) => Mine(start, row, n, tid, e));
    while row + tid < s.count
      invariant row == start + k * n
      invariant Covers(s, rank, log, (p: nat, e: int) => Mine(start, row, n, tid, e))
    {
      var part := CopyElement(s, rank, row + tid);
      var next := row + n;
      MineStep(start, row, next, k, n, tid);
      CoversBoth(s, rank, log, (p: nat, e: int) => Mine(start, row, n, tid, e), part, (p: nat, e: int) => e == row + tid,
                 (p: nat, e: int) => Mine(start, next, n, tid, e));
      log := log + part;
      row := next;
      k := k + 1;
    }
    MineEnd(start, row, k, n, tid, s.count);
    CoversSame(s, rank, log, (p: nat, e: int) => Mine(start, row, n, tid, e), (p: nat, e: int) => Mine(start, s.count, n, tid, e));
  }

  lemma {:induction false} MineEmpty(start: nat, n: nat, tid: nat)
    requires n > 0
    ensures forall e :: !Mine(start, start, n, tid, e)
  {
  }

  /** One more row adds one element. */
  lemma {:induction false} RowProduct(k: nat, n: nat)
    ensures k * n >= 0 && k * n + n == (k + 1) * n
  {
  }

  lemma {:induction false} MineStep(start: nat, row: nat, next: nat, k: nat, n: nat, tid: nat)
    requires tid < n && row == start + k * n && next == row + n
    ensures k * n + n == (k + 1) * n
    ensures forall e :: Mine(start, next, n, tid, e) <==> Mine(start, row, n, tid, e) || e == row + tid
    ensures forall e :: !(Mine(start, row, n, tid, e) && e == row + tid)
  {
    hide Residue, Mine;
    RowProduct(k, n);
    ResidueInRow(start, row, k, n, tid);
    MineInRow(start, row, next, n, tid);
  }

  lemma {:induction false} MineInRow(start: nat, row: nat, next: nat, n: nat, tid: nat)
    requires tid < n && start <= row && next == row + n
    requires forall e :: row <= e < next ==> (Residue(start, n, e) == tid <==> e == row + tid)
    ensures forall e :: Mine(start, next, n, tid, e) <==> Mine(start, row, n, tid, e) || e == row + tid
    ensures forall e :: !(Mine(start, row, n, tid, e) && e == row + tid)
  {
    hide Residue;
  }

  lemma {:induction false} ResidueInRow(start: nat, row: nat, k: nat, n: nat, tid: nat)
    requires tid < n && row == start + k * n
    ensures forall e :: row <= e < row + n ==> (Residue(start, n, e) == tid <==> e == row + tid)
  {
    RowProduct(k, n);
    forall e | row <= e < row + n
      ensures Residue(start, n, e) == tid <==> e == row + tid
    {
      RowOf(row - start, k, n, tid, e - start);
    }
  }

  lemma {:induction false} MineEnd(start: nat, row: nat, k: nat, n: nat, tid: nat, count: nat)
    requires tid < n && row == start + k * n && row + tid >= count && start <= count
    ensures forall e :: e < count ==> (Mine(start, row, n, tid, e) <==> Mine(start, count, n, tid, e))
    ensures forall e :: Mine(start, count, n, tid, e) ==> e < count
  {
    hide Residue;
    RowProduct(k, n);
    ResidueInRow(start, row, k, n, tid);
  }

  /** `AlltoAllScalarImpl` */
  method ScalarKernel(s: Shape, rank: nat, tid: nat) returns (log: seq<Copy>)
    requires ValidShape(s) && tid < s.threads
    ensures Covers(s, rank, log, (p: nat, e: int) => e >= 0 && e % s.threads == tid)
  {
    log := ScalarLoop(s, rank, 0, tid);
    CoversSame(s, rank, log, (p: nat, e: int) => Mine(0, s.count, s.threads, tid, e), (p: nat, e: int) => e >= 0 && e % s.threads == tid);
  }

  // ---- vectors

  function Factor(s: Shape): (f: nat)
    requires ValidShape(s)
    ensures f >= 1
  {
    QuotientPositive(s.vecBytes, s.eltBytes);
    s.vecBytes / s.eltBytes
  }

  function Unroll(s: Shape): (u: nat)
    requires ValidShape(s)
    ensures u >= 1
  {
    QuotientPositive(128, s.vecBytes);
    128 / s.vecBytes
  }

  function VectorCount(s: Shape): (n: nat)
    requires ValidShape(s)
  {
    QuotientBounds(s.count, Factor(s));
    s.count / Factor(s)
  }

  /** The vector an element lies in. */
  function VectorOf(s: Shape, e: int): int
    requires ValidShape(s)
  {
    e / Factor(s)
  }

  /** Thread tid's elements of peer p in vectors from lo up to hi. */
  predicate InVectors(s: Shape, tid: nat, lo: int, hi: int, e: int)
    requires ValidShape(s)
  {
    e >= 0 && lo <= VectorOf(s, e) < hi && VectorOf(s, e) % s.threads == tid
  }

  /** Where vector v of a peer's chunk begins in the send window. */
  function VectorStart(s: Shape, peer: nat, v: int): int
    requires ValidShape(s)
  {
    Slot(s, peer) + v * Factor(s)
  }

  /** One vector store: the lanes of the value loaded from vector v of the peer's chunk. */
  method StoreVector(s: Shape, rank: nat, peer: nat, v: nat, value: int) returns (log: seq<Copy>)
    requires ValidShape(s) && peer < s.nRanks && v < VectorCount(s) && value == VectorStart(s, peer, v)
    ensures Covers(s, rank, log, (p: nat, e: int) => p == peer && e >= 0 && VectorOf(s, e) == v)
  {
    hide Covers, VectorOf, Unit, Slot;
    log := [];
    var f := Factor(s);
    VectorEnd(s, v);
    CoversNothing(s, rank, (p: nat, e: int) => p == peer && v * f <= e < v * f + 0);
    for lane := 0 to f
      invariant Covers(s, rank, log, (p: nat, e: int) => p == peer && v * f <= e < v * f + lane)
    {
      CoversOne(s, rank, peer, v * f + lane);
      UnitIs(s, rank, peer, v * f + lane);
      CoversBoth(s, rank, log, (p: nat, e: int) => p == peer && v * f <= e < v * f + lane,
                 [Unit(s, rank, peer, v * f + lane)], (p: nat, e: int) => p == peer && e == v * f + lane,
                 (p: nat, e: int) => p == peer && v * f <= e < v * f + (lane + 1));
      log := log + [Copy(peer, value + lane, Slot(s, rank) + v * f + lane)];
    }
    VectorLanes(s, v);
    CoversSame(s, rank, log, (p: nat, e: int) => p == peer && v * f <= e < v * f + f,
               (p: nat, e: int) => p == peer && e >= 0 && VectorOf(s, e) == v);
  }

  lemma {:induction false} UnitIs(s: Shape, rank: nat, peer: nat, e: int)
    ensures Unit(s, rank, peer, e) == Copy(peer, Slot(s, peer) + e, Slot(s, rank) + e)
  {
  }

  lemma {:induction false} VectorEnd(s: Shape, v: nat)
    requires ValidShape(s) && v < VectorCount(s)
    ensures 0 <= v * Factor(s) && v * Factor(s) + Factor(s) <= s.count
  {
    var f := Factor(s);
    MulMono(0, v, f);
    MulMono(v + 1, VectorCount(s), f);
    QuotientBounds(s.count, f);
    assert (v + 1) * f == v * f + f;
  }

  lemma {:induction false} VectorLanes(s: Shape, v: nat)
    requires ValidShape(s)
    ensures forall e: int :: e >= 0 ==> (VectorOf(s, e) == v <==> v * Factor(s) <= e < v * Factor(s) + Factor(s))
  {
    var f := Factor(s);
    forall e: int | e >= 0
      ensures VectorOf(s, e) == v <==> v * f <= e < v * f + f
    {
      QuotientBounds(e, f);
      if v * f <= e < v * f + f {
        DivModOf(v, e - v * f, f);
      }
    }
  }

  /** One peer of one unrolled step: all loads, then all stores. */
  method UnrolledPeer(s: Shape, rank: nat, peer: nat, lo: nat, ghost k: nat, tid: nat) returns (log: seq<Copy>)
    requires ValidShape(s) && peer < s.nRanks && tid < s.threads
    requires lo == k * s.threads && lo + s.threads * Unroll(s) <= VectorCount(s)
    ensures Covers(s, rank, log, (p: nat, e: int) => p == peer && InVectors(s, tid, lo, lo + s.threads * Unroll(s), e))
  {
    hide Covers, VectorStart, VectorOf, InVectors;
    var n, u := s.threads, Unroll(s);
    var values: seq<int> := [];
    for i := 0 to u
      invariant |values| == i && forall q :: 0 <= q < i ==> values[q] == VectorStart(s, peer, lo + tid + q * n)
    {
      values := values + [VectorStart(s, peer, lo + tid + i * n)];
    }
    log := [];
    var row := lo;
    NoVectors(s, tid, lo);
    CoversNothing(s, rank, (p: nat, e: int) => p == peer && InVectors(s, tid, lo, row, e));
    for i := 0 to u
      invariant row == lo + i * n && row == (k + i) * n
      invariant Covers(s, rank, log, (p: nat, e: int) => p == peer && InVectors(s, tid, lo, row, e))
    {
      RowFits(lo, i, n, u);
      var offset := lo + tid + i * n;
      var part := StoreVector(s, rank, peer, offset, values[i]);
      var next := row + n;
      NextVectorRow(s, tid, lo, row, next, k + i);
      CoversBoth(s, rank, log, (p: nat, e: int) => p == peer && InVectors(s, tid, lo, row, e),
                 part, (p: nat, e: int) => p == peer && e >= 0 && VectorOf(s, e) == offset,
                 (p: nat, e: int) => p == peer && InVectors(s, tid, lo, next, e));
      log := log + part;
      row := next;
    }
    assert u * n == n * u;
  }

  lemma {:induction false} NoVectors(s: Shape, tid: nat, lo: int)
    requires ValidShape(s)
    ensures forall e :: !InVectors(s, tid, lo, lo, e)
  {
  }

  lemma {:induction false} RowFits(lo: nat, i: nat, n: nat, u: nat)
    requires i < u
    ensures i * n >= 0 && lo + i * n + n <= lo + n * u && i * n + n == (i + 1) * n
  {
    MulMono(0, i, n);
    MulMono(i + 1, u, n);
    assert (i + 1) * n == i * n + n && u * n == n * u;
  }

  /** A row of vectors, one for each thread, adds the thread's vector. */
  lemma {:induction false} NextVectorRow(s: Shape, tid: nat, lo: int, row: nat, next: nat, k: nat)
    requires ValidShape(s) && tid < s.threads && row == k * s.threads && lo <= row && next == row + s.threads
    ensures next == (k + 1) * s.threads
    ensures forall e :: InVectors(s, tid, lo, next, e)
                    <==> InVectors(s, tid, lo, row, e) || (e >= 0 && VectorOf(s, e) == row + tid)
    ensures forall e :: !(InVectors(s, tid, lo, row, e) && VectorOf(s, e) == row + tid)
  {
    hide VectorOf;
    RowProduct(k, s.threads);
    forall v: int | row <= v < next
      ensures v % s.threads == tid <==> v == row + tid
    {
      RowOf(row, k, s.threads, tid, v);
    }
  }

  /** One unrolled step for all peers, PEER_UNROLL of them at a time. */
  method UnrolledStep(s: Shape, rank: nat, lo: nat, ghost k: nat, tid: nat) returns (log: seq<Copy>)
    requires ValidShape(s) && tid < s.threads
    requires lo == k * s.threads && lo + s.threads * Unroll(s) <= VectorCount(s)
    ensures Covers(s, rank, log, (p: nat, e: int) => InVectors(s, tid, lo, lo + s.threads * Unroll(s), e))
  {
    hide Covers, InVectors;
    var hi := lo + s.threads * Unroll(s);
    log := [];
    CoversNothing(s, rank, (p: nat, e: int) => p < 0 && InVectors(s, tid, lo, hi, e));
    var peerBase := 0;
    while peerBase < s.nRanks
      invariant Covers(s, rank, log, (p: nat, e: int) => p < peerBase && InVectors(s, tid, lo, hi, e))
    {
      var peersInGroup := if PEER_UNROLL < s.nRanks - peerBase then PEER_UNROLL else s.nRanks - peerBase;
      var q := 0;
      while q < peersInGroup
        invariant q <= peersInGroup
        invariant Covers(s, rank, log, (p: nat, e: int) => p < peerBase + q && InVectors(s, tid, lo, hi, e))
      {
        var part := UnrolledPeer(s, rank, peerBase + q, lo, k, tid);
        CoversBoth(s, rank, log, (p: nat, e: int) => p < peerBase + q && InVectors(s, tid, lo, hi, e),
                   part, (p: nat, e: int) => p == peerBase + q && InVectors(s, tid, lo, hi, e),
                   (p: nat, e: int) => p < peerBase + (q + 1) && InVectors(s, tid, lo, hi, e));
        log := log + part;
        q := q + 1;
      }
      CoversSame(s, rank, log, (p: nat, e: int) => p < peerBase + q && InVectors(s, tid, lo, hi, e),
                 (p: nat, e: int) => p < peerBase + PEER_UNROLL && InVectors(s, tid, lo, hi, e));
      peerBase := peerBase + PEER_UNROLL;
    }
    CoversSame(s, rank, log, (p: nat, e: int) => p < peerBase && InVectors(s, tid, lo, hi, e),
               (p: nat, e: int) => InVectors(s, tid, lo, hi, e));
  }

  /** `(vector_count / elements_per_iteration) * elements_per_iteration` */
  function AlignedVectors(s: Shape): (a: nat)
    requires ValidShape(s)
    ensures a <= VectorCount(s)
  {
    var step := StepSize(s);
    QuotientBounds(VectorCount(s), step);
    RowProduct(VectorCount(s) / step, step);
    (VectorCount(s) / step) * step
  }

  function StepSize(s: Shape): (e: nat)
    requires ValidShape(s)
    ensures e >= s.threads
  {
    MulMono(1, Unroll(s), s.threads);
    assert s.threads * Unroll(s) == Unroll(s) * s.threads;
    s.threads * Unroll(s)
  }

  lemma {:induction false} NextStep(lo: nat, b: nat, step: nat, q: nat, tid: nat)
    requires lo == b * step && tid < step && b <= q
    ensures lo + step == (b + 1) * step
    ensures lo + tid < q * step ==> b + 1 <= q && lo + step <= q * step
    ensures lo + tid >= q * step ==> lo == q * step
  {
    if b < q {
      MulMono(b + 1, q, step);
    }
    assert (b + 1) * step == b * step + step;
  }

  lemma {:induction false} StepIsRows(b: nat, n: nat, u: nat)
    ensures b * (n * u) == (b * u) * n
  {
  }

  lemma {:induction false} VectorsAppend(s: Shape, tid: nat, lo: int, hi: int)
    requires ValidShape(s) && 0 <= lo <= hi
    ensures forall e :: InVectors(s, tid, 0, hi, e) <==> InVectors(s, tid, 0, lo, e) || InVectors(s, tid, lo, hi, e)
    ensures forall e :: !(InVectors(s, tid, 0, lo, e) && InVectors(s, tid, lo, hi, e))
  {
    hide VectorOf;
    assert forall e :: e >= 0 ==> VectorOf(s, e) >= 0 by {
      forall e: int | e >= 0
        ensures VectorOf(s, e) >= 0
      {
        QuotientAtLeastZero(s, e);
      }
    }
  }

  lemma {:induction false} QuotientAtLeastZero(s: Shape, e: nat)
    requires ValidShape(s)
    ensures VectorOf(s, e) >= 0
  {
    QuotientBounds(e, Factor(s));
  }

  /** Whole unrolled steps, without bounds checks. */
  method AlignedPart(s: Shape, rank: nat, tid: nat) returns (log: seq<Copy>)
    requires ValidShape(s) && tid < s.threads
    ensures Covers(s, rank, log, (p: nat, e: int) => InVectors(s, tid, 0, AlignedVectors(s), e))
  {
    hide Covers, InVectors;
    var step := StepSize(s);
    var aligned := AlignedVectors(s);
    ghost var b, q := 0, VectorCount(s) / step;
    QuotientBounds(VectorCount(s), step);
    log := [];
    NoVectors(s, tid, 0);
    var lo := 0;
    CoversNothing(s, rank, (p: nat, e: int) => InVectors(s, tid, 0, lo, e));
    while lo + tid < aligned
      invariant b <= q && lo == b * step
      invariant Covers(s, rank, log, (p: nat, e: int) => InVectors(s, tid, 0, lo, e))
      decreases aligned - lo
    {
      NextStep(lo, b, step, q, tid);
      StepIsRows(b, s.threads, Unroll(s));
      RowProduct(b, Unroll(s));
      var part := UnrolledStep(s, rank, lo, b * Unroll(s), tid);
      var next := lo + step;
      VectorsAppend(s, tid, lo, next);
      CoversBoth(s, rank, log, (p: nat, e: int) => InVectors(s, tid, 0, lo, e), part, (p: nat, e: int) => InVectors(s, tid, lo, next, e),
                 (p: nat, e: int) => InVectors(s, tid, 0, next, e));
      log := log + part;
      lo := next;
      b := b + 1;
    }
    NextStep(lo, b, step, q, tid);
  }

  /** The same vector of every peer. */
  method VectorOfAllPeers(s: Shape, rank: nat, v: nat) returns (log: seq<Copy>)
    requires ValidShape(s) && v < VectorCount(s)
    ensures Covers(s, rank, log, (p: nat, e: int) => e >= 0 && VectorOf(s, e) == v)
  {
    hide Covers, VectorOf;
    log := [];
    CoversNothing(s, rank, (p: nat, e: int) => p < 0 && e >= 0 && VectorOf(s, e) == v);
    for peer := 0 to s.nRanks
      invariant Covers(s, rank, log, (p: nat, e: int) => p < peer && e >= 0 && VectorOf(s, e) == v)
    {
      var part := StoreVector(s, rank, peer, v, VectorStart(s, peer, v));
      CoversBoth(s, rank, log, (p: nat, e: int) => p < peer && e >= 0 && VectorOf(s, e) == v,
                 part, (p: nat, e: int) => p == peer && e >= 0 && VectorOf(s, e) == v,
                 (p: nat, e: int) => p < peer + 1 && e >= 0 && VectorOf(s, e) == v);
      log := log + part;
    }
    CoversSame(s, rank, log, (p: nat, e: int) => p < s.nRanks && e >= 0 && VectorOf(s, e) == v,
               (p: nat, e: int) => e >= 0 && VectorOf(s, e) == v);
  }

  lemma {:induction false} VectorRowsEnd(s: Shape, tid: nat, row: nat, k: nat)
    requires ValidShape(s) && tid < s.threads && row == k * s.threads && row + tid >= VectorCount(s)
    requires row <= VectorCount(s) || (k > 0 && row - s.threads + tid < VectorCount(s))
    ensures forall e :: InVectors(s, tid, 0, row, e) <==> InVectors(s, tid, 0, VectorCount(s), e)
  {
    hide VectorOf;
    var n, vc := s.threads, VectorCount(s);
    forall e | e >= 0 && VectorOf(s, e) % n == tid
      ensures VectorOf(s, e) < row <==> VectorOf(s, e) < vc
    {
      var v := VectorOf(s, e);
      if row <= v < vc {
        RowOf(row, k, n, tid, v);
      } else if vc <= v < row {
        assert (k - 1) * n == k * n - n;
        RowOf(row - n, k - 1, n, tid, v);
      }
    }
  }

  /** Vectors that do not fill an unrolled step, after the aligned part. */
  method VectorRemainder(s: Shape, rank: nat, tid: nat, log0: seq<Copy>) returns (log: seq<Copy>)
    requires ValidShape(s) && tid < s.threads
    requires Covers(s, rank, log0, (p: nat, e: int) => InVectors(s, tid, 0, AlignedVectors(s), e))
    ensures Covers(s, rank, log, (p: nat, e: int) => InVectors(s, tid, 0, VectorCount(s), e))
  {
    hide Covers, InVectors, VectorOf;
    var n, vc := s.threads, VectorCount(s);
    log := log0;
    var row := AlignedVectors(s);
    StepIsRows(vc / StepSize(s), n, Unroll(s));
    QuotientBounds(vc, StepSize(s));
    RowProduct(vc / StepSize(s), Unroll(s));
    ghost var k := (vc / StepSize(s)) * Unroll(s);
    while row + tid < vc
      invariant row == k * n && (row <= vc || (k > 0 && row - n + tid < vc))
      invariant Covers(s, rank, log, (p: nat, e: int) => InVectors(s, tid, 0, row, e))
    {
      var part := VectorOfAllPeers(s, rank, row + tid);
      var next := row + n;
      NextVectorRow(s, tid, 0, row, next, k);
      CoversBoth(s, rank, log, (p: nat, e: int) => InVectors(s, tid, 0, row, e),
                 part, (p: nat, e: int) => e >= 0 && VectorOf(s, e) == row + tid,
                 (p: nat, e: int) => InVectors(s, tid, 0, next, e));
      log := log + part;
      row := next;
      k := k + 1;
    }
    VectorRowsEnd(s, tid, row, k);
    CoversSame(s, rank, log, (p: nat, e: int) => InVectors(s, tid, 0, row, e), (p: nat, e: int) => InVectors(s, tid, 0, vc, e));
  }

  predicate CanVectorize(s: Shape)
    requires ValidShape(s)
  {
    s.vecBytes > s.eltBytes && s.aligned && (s.count * s.eltBytes) % s.vecBytes == 0
  }

  /** `vector_count * VECTOR_FACTOR` */
  /** How the kernel splits a chunk: vectors that hold as many elements as fit, as many of them to a step of
      a thread as make 128 bytes, as many as fit into the chunk, and of these as many whole steps of all
      threads as there are. It uses them when a vector holds more than an element, the send pointer is
      aligned and a chunk is a whole number of vectors; then, if elements fill vectors, none is left over. */
  lemma {:induction false} SplitIs(s: Shape)
    requires ValidShape(s)
    ensures Factor(s) * s.eltBytes <= s.vecBytes < (Factor(s) + 1) * s.eltBytes
    ensures Unroll(s) * s.vecBytes <= 128 < (Unroll(s) + 1) * s.vecBytes
    ensures VectorCount(s) * Factor(s) <= s.count < (VectorCount(s) + 1) * Factor(s)
    ensures AlignedVectors(s) <= VectorCount(s) < AlignedVectors(s) + s.threads * Unroll(s)
    ensures AlignedVectors(s) % (s.threads * Unroll(s)) == 0
    ensures CanVectorize(s) <==> s.eltBytes < s.vecBytes && s.aligned && exists k: nat :: s.count * s.eltBytes == k * s.vecBytes
    ensures CanVectorize(s) && s.vecBytes % s.eltBytes == 0 ==> ScalarStart(s) == s.count
  {
    hide CanVectorize, Factor, Unroll, VectorCount, AlignedVectors, ScalarStart;
    VectorsFill(s);
    StepsFill(s);
    VectorizesWhen(s);
    if CanVectorize(s) && s.vecBytes % s.eltBytes == 0 {
      NoneLeftOver(s);
    }
  }

  lemma {:induction false} VectorsFill(s: Shape)
    requires ValidShape(s)
    ensures Factor(s) * s.eltBytes <= s.vecBytes < (Factor(s) + 1) * s.eltBytes
    ensures s.vecBytes % s.eltBytes == 0 ==> Factor(s) * s.eltBytes == s.vecBytes
    ensures Unroll(s) * s.vecBytes <= 128 < (Unroll(s) + 1) * s.vecBytes
    ensures VectorCount(s) == s.count / Factor(s)
  {
    WholeAndRest(s.vecBytes, s.eltBytes);
    WholeAndRest(128, s.vecBytes);
    assert s.vecBytes == (s.vecBytes / s.eltBytes) * s.eltBytes + s.vecBytes % s.eltBytes;
  }

  lemma {:induction false} StepsFill(s: Shape)
    requires ValidShape(s)
    ensures VectorCount(s) * Factor(s) <= s.count < (VectorCount(s) + 1) * Factor(s)
    ensures AlignedVectors(s) <= VectorCount(s) < AlignedVectors(s) + s.threads * Unroll(s)
    ensures AlignedVectors(s) % (s.threads * Unroll(s)) == 0
  {
    hide Factor, Unroll, VectorCount;
    VectorsFill(s);
    WholeAndRest(s.count, Factor(s));
    var step := StepSize(s);
    WholeAndRest(VectorCount(s), step);
    var q := VectorCount(s) / step;
    assert (q + 1) * step == q * step + step;
    DivModOf(q, 0, step);
  }

  lemma {:induction false} NoneLeftOver(s: Shape)
    requires ValidShape(s) && CanVectorize(s) && s.vecBytes % s.eltBytes == 0
    ensures ScalarStart(s) == s.count
  {
    hide CanVectorize, Factor, VectorCount;
    VectorizesWhen(s);
    VectorsFill(s);
    var k: nat :| s.count * s.eltBytes == k * s.vecBytes;
    NothingLeft(s.count, s.eltBytes, k, Factor(s));
  }

  lemma {:induction false} VectorizesWhen(s: Shape)
    requires ValidShape(s)
    ensures CanVectorize(s) <==> s.eltBytes < s.vecBytes && s.aligned && exists k: nat :: s.count * s.eltBytes == k * s.vecBytes
  {
    ProductNonNegative(s.count, s.eltBytes);
    var x := s.count * s.eltBytes;
    WholeAndRest(x, s.vecBytes);
    assert x == (x / s.vecBytes) * s.vecBytes + x % s.vecBytes;
    if k: nat :| x == k * s.vecBytes {
      DivModOf(k, 0, s.vecBytes);
    }
    if x % s.vecBytes == 0 {
      assert x == (x / s.vecBytes) * s.vecBytes;
    }
  }

  lemma {:induction false} WholeAndRest(x: nat, d: nat)
    requires d > 0
    ensures 0 <= x / d && (x / d) * d <= x < (x / d + 1) * d
  {
    QuotientBounds(x, d);
    assert (x / d + 1) * d == (x / d) * d + d;
  }

  lemma {:induction false} NothingLeft(count: nat, elt: nat, k: nat, f: nat)
    requires elt > 0 && f > 0 && count * elt == k * (f * elt)
    ensures (count / f) * f == count
  {
    Regroup(k, f, elt);
    assert (count - k * f) * elt == 0;
    assert count == k * f by {
      if count > k * f {
        MulMono(1, count - k * f, elt);
      } else if count < k * f {
        MulMono(1, k * f - count, elt);
      }
    }
    DivModOf(k, 0, f);
  }

  function ScalarStart(s: Shape): (e: nat)
    requires ValidShape(s)
    ensures e <= s.count
  {
    QuotientBounds(s.count, Factor(s));
    RowProduct(VectorCount(s), Factor(s));
    VectorCount(s) * Factor(s)
  }

  /** The thread that copies element e (of every peer). */
  function OwnerOf(s: Shape, e: nat): (g: nat)
    requires ValidShape(s)
    ensures g < s.threads
  {
    if CanVectorize(s) then
      if e < ScalarStart(s) then VectorOf(s, e) % s.threads else (e - ScalarStart(s)) % s.threads
    else e % s.threads
  }

  lemma {:induction false} OwnedParts(s: Shape, tid: nat)
    requires ValidShape(s) && CanVectorize(s)
    ensures forall e :: 0 <= e < s.count ==>
              (OwnerOf(s, e) == tid <==> InVectors(s, tid, 0, VectorCount(s), e) || Mine(ScalarStart(s), s.count, s.threads, tid, e))
    ensures forall e :: !(InVectors(s, tid, 0, VectorCount(s), e) && Mine(ScalarStart(s), s.count, s.threads, tid, e))
  {
    forall e: int | e >= 0
      ensures 0 <= VectorOf(s, e) && (VectorOf(s, e) < VectorCount(s) <==> e < ScalarStart(s))
    {
      BelowScalarStart(s, e);
    }
    hide VectorOf, ScalarStart, VectorCount, CanVectorize;
  }

  lemma {:induction false} BelowScalarStart(s: Shape, e: nat)
    requires ValidShape(s)
    ensures 0 <= VectorOf(s, e) && (VectorOf(s, e) < VectorCount(s) <==> e < ScalarStart(s))
  {
    var f, v, vc := Factor(s), VectorOf(s, e), VectorCount(s);
    QuotientBounds(e, f);
    assert (v + 1) * f == v * f + f;
    if v < vc {
      MulMono(v + 1, vc, f);
    } else {
      MulMono(vc, v, f);
    }
  }

  /** The vectorized kernel: a thread copies exactly the elements it owns, for every peer, each
      once; or falls back to the scalar kernel. */
  method VectorizedKernel(s: Shape, rank: nat, tid: nat) returns (log: seq<Copy>)
    requires ValidShape(s) && tid < s.threads
    ensures Covers(s, rank, log, (p: nat, e: int) => e >= 0 && OwnerOf(s, e) == tid)
  {
    if CanVectorize(s) {
      hide Covers, InVectors, VectorOf, Mine, OwnerOf;
      var a := AlignedPart(s, rank, tid);
      var b := VectorRemainder(s, rank, tid, a);
      var c := ScalarLoop(s, rank, ScalarStart(s), tid);
      OwnedParts(s, tid);
      CoversBoth(s, rank, b, (p: nat, e: int) => InVectors(s, tid, 0, VectorCount(s), e),
                 c, (p: nat, e: int) => Mine(ScalarStart(s), s.count, s.threads, tid, e),
                 (p: nat, e: int) => e >= 0 && OwnerOf(s, e) == tid);
      log := b + c;
    } else {
      log := ScalarKernel(s, rank, tid);
      CoversSame(s, rank, log, (p: nat, e: int) => e >= 0 && e % s.threads == tid, (p: nat, e: int) => e >= 0 && OwnerOf(s, e) == tid);
    }
  }

  // ---- all ranks and threads together

  /** When every element has one owner among the threads, each copy the collective asks for is
      issued by exactly one thread, once, and no other copy is. */
  lemma {:induction false} IssuedOnce(s: Shape, rank: nat, logs: seq<seq<Copy>>, owner: int -> nat, c: Copy)
    requires forall tid: nat :: tid < |logs| ==> Covers(s, rank, logs[tid], (p: nat, e: int) => e >= 0 && owner(e) == tid)
    ensures Occurrences(logs, c) == if Genuine(s, rank, c) && owner(Element(s, rank, c)) < |logs| then 1 else 0
  {
    hide Genuine, Element;
    GenuineElement(s, rank, c);
    forall tid | 0 <= tid < |logs|
      ensures NoRepeats(logs[tid])
      ensures c in logs[tid] <==> Genuine(s, rank, c) && tid == owner(Element(s, rank, c))
    {
      assert Covers(s, rank, logs[tid], (p: nat, e: int) => e >= 0 && owner(e) == tid);
    }
    OccursOnce(logs, c, Genuine(s, rank, c), owner(Element(s, rank, c)));
  }

  lemma {:induction false} GenuineElement(s: Shape, rank: nat, c: Copy)
    ensures Genuine(s, rank, c) ==> 0 <= Element(s, rank, c) < s.count
  {
  }

  datatype Issued = Issued(rank: nat, copy: Copy)

  /** Windows of all ranks; copies read send windows and write receive windows. */
  function After<T>(send: seq<seq<T>>, recv: seq<seq<T>>, sched: seq<Issued>): (r: seq<seq<T>>)
    ensures |r| == |recv| && forall q :: 0 <= q < |recv| ==> |r[q]| == |recv[q]|
  {
    if sched == [] then recv else
    var before := After(send, recv, sched[..|sched| - 1]);
    var x := sched[|sched| - 1];
    if x.rank < |send| && 0 <= x.copy.from < |send[x.rank]| && x.copy.peer < |recv| && 0 <= x.copy.to < |recv[x.copy.peer]| then
      before[x.copy.peer := before[x.copy.peer][x.copy.to := send[x.rank][x.copy.from]]]
    else before
  }

  predicate Window<T>(s: Shape, w: seq<seq<T>>)
  {
    |w| == s.nRanks && forall r :: 0 <= r < |w| ==> |w[r]| == Slot(s, s.nRanks)
  }

  /** sched is an interleaving of what all threads of all ranks issue. */
  ghost predicate Interleaves(s: Shape, logs: seq<seq<seq<Copy>>>, sched: seq<Issued>)
  {
    && |logs| == s.nRanks
    && (forall x :: x in sched ==> x.rank < s.nRanks)
    && forall rank: nat, c :: rank < s.nRanks ==> multiset(sched)[Issued(rank, c)] == Occurrences(logs[rank], c)
  }

  lemma {:induction false} SlotsInWindow(s: Shape, r: nat, e: nat)
    requires r < s.nRanks && e < s.count
    ensures 0 <= Slot(s, r) + e < Slot(s, s.nRanks)
  {
    MulMono(0, r, s.count);
    MulMono(r + 1, s.nRanks, s.count);
    assert (r + 1) * s.count == r * s.count + s.count;
  }

  lemma {:induction false} SlotUnique(s: Shape, r: nat, e: nat, r': nat, e': nat)
    requires e < s.count && e' < s.count && Slot(s, r) + e == Slot(s, r') + e'
    ensures r == r' && e == e'
  {
    if r < r' {
      MulMono(r + 1, r', s.count);
    } else if r' < r {
      MulMono(r' + 1, r, s.count);
    }
    assert (r + 1) * s.count == r * s.count + s.count && (r' + 1) * s.count == r' * s.count + s.count;
  }

  /** Only one genuine copy of all ranks goes to a given index of a peer's window. */
  lemma {:induction false} TargetsDiffer(s: Shape, rank: nat, c: Copy, peer: nat, rank': nat, e: nat)
    requires rank < s.nRanks && rank' < s.nRanks && e < s.count && Genuine(s, rank, c)
    requires c.peer == peer && c.to == Slot(s, rank') + e
    ensures rank == rank' && c == Unit(s, rank', peer, e)
  {
    SlotUnique(s, rank, Element(s, rank, c), rank', e);
  }

  /** After any interleaving in which genuine copies are issued (any number of times, in any order),
      an index holds the source element if its copy was issued, and is untouched otherwise. */
  lemma {:induction false} IndexAfter<T>(s: Shape, send: seq<seq<T>>, recv: seq<seq<T>>, sched: seq<Issued>, peer: nat, rank: nat, e: nat)
    requires Window(s, send) && Window(s, recv) && peer < s.nRanks && rank < s.nRanks && e < s.count
    requires forall i :: 0 <= i < |sched| ==> sched[i].rank < s.nRanks && Genuine(s, sched[i].rank, sched[i].copy)
    ensures 0 <= Slot(s, rank) + e < Slot(s, s.nRanks) && 0 <= Slot(s, peer) + e < Slot(s, s.nRanks)
    ensures After(send, recv, sched)[peer][Slot(s, rank) + e]
         == if Issued(rank, Unit(s, rank, peer, e)) in sched then send[rank][Slot(s, peer) + e] else recv[peer][Slot(s, rank) + e]
  {
    SlotsInWindow(s, rank, e);
    SlotsInWindow(s, peer, e);
    if sched != [] {
      var n := |sched| - 1;
      var front, x := sched[..n], sched[n];
      IndexAfter(s, send, recv, front, peer, rank, e);
      assert sched == front + [x];
      CopyInWindow(s, x.rank, x.copy);
      if x.copy.peer == peer && x.copy.to == Slot(s, rank) + e {
        TargetsDiffer(s, x.rank, x.copy, peer, rank, e);
      }
      UnitTarget(s, rank, peer, e);
      hide Slot, Genuine, Unit;
    }
  }

  lemma {:induction false} UnitTarget(s: Shape, rank: nat, peer: nat, e: int)
    ensures Unit(s, rank, peer, e).peer == peer && Unit(s, rank, peer, e).to == Slot(s, rank) + e
    ensures Unit(s, rank, peer, e).from == Slot(s, peer) + e
  {
  }

  lemma {:induction false} CopyInWindow(s: Shape, rank: nat, c: Copy)
    requires rank < s.nRanks && Genuine(s, rank, c)
    ensures c.peer < s.nRanks && 0 <= c.from < Slot(s, s.nRanks) && 0 <= c.to < Slot(s, s.nRanks)
  {
    SlotsInWindow(s, rank, Element(s, rank, c));
    SlotsInWindow(s, c.peer, Element(s, rank, c));
  }

  /** Any interleaving of all threads of all ranks, of a kernel whose threads own the elements,
      exchanges all chunks. */
  lemma {:induction false} ExchangesAll<T>(s: Shape, logs: seq<seq<seq<Copy>>>, sched: seq<Issued>, owner: int -> nat,
                                           send: seq<seq<T>>, recv: seq<seq<T>>, peer: nat, rank: nat, e: nat)
    requires Window(s, send) && Window(s, recv) && peer < s.nRanks && rank < s.nRanks && e < s.count
    requires Interleaves(s, logs, sched)
    requires forall r: nat :: r < s.nRanks ==> |logs[r]| == s.threads
    requires forall r: nat, tid: nat :: r < s.nRanks && tid < s.threads ==>
               Covers(s, r, logs[r][tid], (p: nat, e: int) => e >= 0 && owner(e) == tid)
    requires forall e :: 0 <= e < s.count ==> owner(e) < s.threads
    ensures 0 <= Slot(s, rank) + e < Slot(s, s.nRanks) && 0 <= Slot(s, peer) + e < Slot(s, s.nRanks)
    ensures multiset(sched)[Issued(rank, Unit(s, rank, peer, e))] == 1
    ensures After(send, recv, sched)[peer][Slot(s, rank) + e] == send[rank][Slot(s, peer) + e]
  {
    hide Slot, Covers, Occurrences;
    forall i | 0 <= i < |sched|
      ensures sched[i].rank < s.nRanks && Genuine(s, sched[i].rank, sched[i].copy)
    {
      var x := sched[i];
      assert x in sched;
      IssuedOnce(s, x.rank, logs[x.rank], owner, x.copy);
      assert multiset(sched)[Issued(x.rank, x.copy)] >= 1;
    }
    IndexAfter(s, send, recv, sched, peer, rank, e);
    var c := Unit(s, rank, peer, e);
    IssuedOnce(s, rank, logs[rank], owner, c);
    GenuineUnit(s, rank, peer, e);
    assert multiset(sched)[Issued(rank, c)] == 1;
  }

  lemma {:induction false} GenuineUnit(s: Shape, rank: nat, peer: nat, e: nat)
    requires peer < s.nRanks && e < s.count
    ensures Genuine(s, rank, Unit(s, rank, peer, e)) && Element(s, rank, Unit(s, rank, peer, e)) == e
  {
  }

  // ---- the two kernels

  lemma {:induction false} PositionOf(s: Shape, i: nat)
    requires i < Slot(s, s.nRanks)
    ensures s.count > 0 && 0 <= i / s.count < s.nRanks && i == Slot(s, i / s.count) + i % s.count
  {
    assert s.count == 0 ==> s.nRanks * s.count == 0;
    QuotientBounds(i, s.count);
    if i / s.count >= s.nRanks {
      MulMono(s.nRanks, i / s.count, s.count);
    }
  }

  /** What the collective leaves at index i of a peer's window. */
  function ExchangedAt<T>(s: Shape, send: seq<seq<T>>, peer: nat, i: nat): T
    requires Window(s, send) && peer < s.nRanks && i < Slot(s, s.nRanks)
  {
    PositionOf(s, i);
    SlotsInWindow(s, peer, i % s.count);
    send[i / s.count][Slot(s, peer) + i % s.count]
  }

  /** The windows the collective promises: chunk r of a peer's window is that peer's chunk of rank r. */
  ghost predicate IsExchanged<T>(s: Shape, send: seq<seq<T>>, w: seq<seq<T>>)
    requires Window(s, send)
  {
    Window(s, w) && forall peer: nat, i: nat :: peer < s.nRanks && i < Slot(s, s.nRanks) ==> w[peer][i] == ExchangedAt(s, send, peer, i)
  }

  /** The threads of all ranks issue what they own. */
  ghost predicate IssueOwn(s: Shape, logs: seq<seq<seq<Copy>>>, owner: int -> nat)
  {
    && |logs| == s.nRanks && (forall r: nat :: r < s.nRanks ==> |logs[r]| == s.threads)
    && forall r: nat, tid: nat :: r < s.nRanks && tid < s.threads ==>
         Covers(s, r, logs[r][tid], (p: nat, e: int) => e >= 0 && owner(e) == tid)
  }

  lemma {:induction false} AllExchanged<T>(s: Shape, logs: seq<seq<seq<Copy>>>, sched: seq<Issued>, owner: int -> nat,
                                           send: seq<seq<T>>, recv: seq<seq<T>>)
    requires Window(s, send) && Window(s, recv) && Interleaves(s, logs, sched) && IssueOwn(s, logs, owner)
    requires forall e :: 0 <= e < s.count ==> owner(e) < s.threads
    ensures IsExchanged(s, send, After(send, recv, sched))
  {
    hide Slot, Covers, After, Interleaves, Occurrences;
    forall peer: nat, i: nat | peer < s.nRanks && i < Slot(s, s.nRanks)
      ensures After(send, recv, sched)[peer][i] == ExchangedAt(s, send, peer, i)
    {
      PositionOf(s, i);
      ExchangesAll(s, logs, sched, owner, send, recv, peer, i / s.count, i % s.count);
    }
  }

  /** Whatever the interleavings, the vectorized kernel leaves the same receive windows as the scalar
      one: those of the all-to-all exchange. */
  lemma {:induction false} KernelsAgree<T>(s: Shape, scalar: seq<seq<seq<Copy>>>, scalarSched: seq<Issued>,
                                           vector: seq<seq<seq<Copy>>>, vectorSched: seq<Issued>,
                                           send: seq<seq<T>>, recv: seq<seq<T>>)
    requires ValidShape(s) && Window(s, send) && Window(s, recv)
    requires Interleaves(s, scalar, scalarSched) && Interleaves(s, vector, vectorSched)
    requires (forall r: nat :: r < s.nRanks ==> |scalar[r]| == s.threads && |vector[r]| == s.threads)
    requires forall r: nat, tid: nat :: r < s.nRanks && tid < s.threads ==>
               && Covers(s, r, scalar[r][tid], (p: nat, e: int) => e >= 0 && e % s.threads == tid)
               && Covers(s, r, vector[r][tid], (p: nat, e: int) => e >= 0 && OwnerOf(s, e) == tid)
    ensures IsExchanged(s, send, After(send, recv, scalarSched))
    ensures After(send, recv, vectorSched) == After(send, recv, scalarSched)
  {
    hide Slot, Covers, After, OwnerOf, Occurrences;
    var scalarOwner: int -> nat := (e: int) => e % s.threads;
    var vectorOwner: int -> nat := (e: int) => if e >= 0 then OwnerOf(s, e) else 0;
    forall r: nat, tid: nat | r < s.nRanks && tid < s.threads
      ensures Covers(s, r, scalar[r][tid], (p: nat, e: int) => e >= 0 && scalarOwner(e) == tid)
      ensures Covers(s, r, vector[r][tid], (p: nat, e: int) => e >= 0 && vectorOwner(e) == tid)
    {
      CoversSame(s, r, scalar[r][tid], (p: nat, e: int) => e >= 0 && e % s.threads == tid,
                 (p: nat, e: int) => e >= 0 && scalarOwner(e) == tid);
      CoversSame(s, r, vector[r][tid], (p: nat, e: int) => e >= 0 && OwnerOf(s, e) == tid,
                 (p: nat, e: int) => e >= 0 && vectorOwner(e) == tid);
    }
    AllExchanged(s, scalar, scalarSched, scalarOwner, send, recv);
    AllExchanged(s, vector, vectorSched, vectorOwner, send, recv);
    SameWindows(s, send, After(send, recv, vectorSched), After(send, recv, scalarSched));
  }

  lemma {:induction false} SameWindows<T>(s: Shape, send: seq<seq<T>>, v: seq<seq<T>>, w: seq<seq<T>>)
    requires Window(s, send) && IsExchanged(s, send, v) && IsExchanged(s, send, w)
    ensures v == w
  {
    hide ExchangedAt, Slot;
    forall peer | 0 <= peer < |v|
      ensures v[peer] == w[peer]
    {
      assert |v[peer]| == |w[peer]| == Slot(s, s.nRanks);
    }
  }

  // ---- there are interleavings

  function Tagged(rank: nat, log: seq<Copy>): (xs: seq<Issued>)
    ensures |xs| == |log| && forall i :: 0 <= i < |log| ==> xs[i] == Issued(rank, log[i])
  {
    seq(|log|, i requires 0 <= i < |log| => Issued(rank, log[i]))
  }

  lemma {:induction false} TaggedCount(rank: nat, log: seq<Copy>, x: Issued)
    ensures multiset(Tagged(rank, log))[x] == if x.rank == rank then multiset(log)[x.copy] else 0
  {
    if log != [] {
      var n := |log| - 1;
      TaggedCount(rank, log[..n], x);
      assert log == log[..n] + [log[n]] && Tagged(rank, log) == Tagged(rank, log[..n]) + [Issued(rank, log[n])];
    }
  }

  /** The threads of a rank one after the other, and so the ranks. */
  function RankInOrder(rank: nat, logs: seq<seq<Copy>>): seq<Issued>
  {
    if logs == [] then [] else RankInOrder(rank, logs[..|logs| - 1]) + Tagged(rank, logs[|logs| - 1])
  }

  function AllInOrder(logs: seq<seq<seq<Copy>>>): seq<Issued>
  {
    if logs == [] then [] else AllInOrder(logs[..|logs| - 1]) + RankInOrder(|logs| - 1, logs[|logs| - 1])
  }

  lemma {:induction false} RankCounts(rank: nat, logs: seq<seq<Copy>>, x: Issued)
    ensures multiset(RankInOrder(rank, logs))[x] == if x.rank == rank then Occurrences(logs, x.copy) else 0
  {
    if logs != [] {
      RankCounts(rank, logs[..|logs| - 1], x);
      TaggedCount(rank, logs[|logs| - 1], x);
    }
  }

  lemma {:induction false} AllCounts(logs: seq<seq<seq<Copy>>>, x: Issued)
    ensures multiset(AllInOrder(logs))[x] == if x.rank < |logs| then Occurrences(logs[x.rank], x.copy) else 0
  {
    hide RankInOrder, Occurrences;
    if logs != [] {
      AllCounts(logs[..|logs| - 1], x);
      RankCounts(|logs| - 1, logs[|logs| - 1], x);
    }
  }

  /** Whatever the threads issue can be interleaved: one after the other, for one. */
  lemma {:induction false} SomeInterleaving(s: Shape, logs: seq<seq<seq<Copy>>>)
    requires |logs| == s.nRanks
    ensures Interleaves(s, logs, AllInOrder(logs))
  {
    hide AllInOrder, Occurrences;
    var sched := AllInOrder(logs);
    forall x | x in sched
      ensures x.rank < s.nRanks
    {
      AllCounts(logs, x);
      assert multiset(sched)[x] > 0;
    }
    forall rank: nat, c | rank < s.nRanks
      ensures multiset(sched)[Issued(rank, c)] == Occurrences(logs[rank], c)
    {
      AllCounts(logs, Issued(rank, c));
    }
  }
}
