/** The two load/store all-reduce kernels of src/all_reduce.cu. Every thread of every rank runs
    the same code on its global number; a method below issues the accesses of one thread in the
    kernel's loop order. Both kernels divide the elements among the threads without overlap, so
    under any interleaving they leave the same windows. */
module AllReduce {
  import opened Sums
  import opened Arith
  import opened Interleaving

  const WARP_SIZE := 32

  /** A launch: `ranks` ranks of `ctas` blocks of `dim` threads on `count` elements of eltBytes,
      grouped into vectors of vecBytes, the windows starting at sendOffset. */
  datatype Shape = Shape(ranks: nat, ctas: nat, dim: nat, count: nat, sendOffset: nat, eltBytes: nat, vecBytes: nat)

  /** What the kernel derives at its start: threads over all ranks, unaligned prefix, elements
      per vector, unrolling, and the number of whole vectors. */
  datatype Plan = Plan(warps: nat, prefix: nat, factor: nat, unroll: nat, vectors: nat, count: nat)

  predicate ValidShape(s: Shape)
  {
    && s.ranks > 0 && s.ctas > 0 && s.dim > 0 && s.dim % WARP_SIZE == 0
    && s.eltBytes > 0 && s.eltBytes <= s.vecBytes <= 128
    && (s.sendOffset % s.vecBytes) / s.eltBytes <= s.count
  }

  predicate ValidPlan(p: Plan)
  {
    && p.warps > 0 && p.factor > 0 && p.unroll > 0 && p.prefix <= p.count
    && p.vectors == (p.count - p.prefix) / p.factor
  }

  function Threads(p: Plan): nat { p.warps * WARP_SIZE }

  // ---- the thread that handles an element

  /** The number of the row of 32*unroll vectors that a vector lies in. */
  function RowOf(p: Plan, o: nat): nat
    requires ValidPlan(p)
  {
    QuotientLe(o, WARP_SIZE * p.unroll);
    o / (WARP_SIZE * p.unroll)
  }

  function BlockOf(p: Plan, o: nat): nat
    requires ValidPlan(p)
  {
    QuotientLe(RowOf(p, o), p.warps);
    RowOf(p, o) / p.warps
  }

  function StepOf(p: Plan, o: nat): nat
    requires ValidPlan(p)
  {
    (o % (WARP_SIZE * p.unroll)) / WARP_SIZE
  }

  function VectorOwner(p: Plan, o: nat): nat
    requires ValidPlan(p)
  {
    (RowOf(p, o) % p.warps) * WARP_SIZE + (o % (WARP_SIZE * p.unroll)) % WARP_SIZE
  }

  /** The vector an element past the prefix lies in. */
  function VectorOf(p: Plan, e: nat): nat
    requires ValidPlan(p) && e >= p.prefix
  {
    QuotientLe(e - p.prefix, p.factor);
    (e - p.prefix) / p.factor
  }

  function Tail(p: Plan): nat
    requires ValidPlan(p)
  {
    QuotientLe(p.count - p.prefix, p.factor);
    p.prefix + p.vectors * p.factor
  }

  function Owner(p: Plan, e: nat): nat
    requires ValidPlan(p)
  {
    ThreadsPositive(p);
    if e < p.prefix then e % Threads(p)
    else if e < Tail(p) then VectorOwner(p, VectorOf(p, e))
    else (e - Tail(p)) % Threads(p)
  }

  lemma {:induction false} ThreadsPositive(p: Plan)
    requires ValidPlan(p)
    ensures Threads(p) >= WARP_SIZE
  {
  }

  lemma {:induction false} OwnerInRange(p: Plan, e: nat)
    requires ValidPlan(p)
    ensures Owner(p, e) < Threads(p)
  {
    ThreadsPositive(p);
  }

  /** `warp_lane_offset + block_offset + i*WARP_SIZE`. */
  function Offset(p: Plan, g: nat, block: nat, i: nat): nat
  {
    ProductNonNegative(block, Threads(p));
    ProductNonNegative(block * Threads(p), p.unroll);
    ProductNonNegative(g / WARP_SIZE * WARP_SIZE, p.unroll);
    (g / WARP_SIZE) * WARP_SIZE * p.unroll + g % WARP_SIZE + block * Threads(p) * p.unroll + i * WARP_SIZE
  }

  lemma {:induction false} OffsetSplits(p: Plan, g: nat, block: nat, i: nat)
    ensures Offset(p, g, block, i)
         == (block * p.warps + g / WARP_SIZE) * (WARP_SIZE * p.unroll) + (i * WARP_SIZE + g % WARP_SIZE)
  {
    Reassociate(block, p.warps, p.unroll);
    Reassociate(1, g / WARP_SIZE, p.unroll);
    var c := WARP_SIZE * p.unroll;
    assert (block * p.warps + g / WARP_SIZE) * c == (block * p.warps) * c + (g / WARP_SIZE) * c;
  }

  lemma {:induction false} Reassociate(a: int, b: int, c: int)
    ensures a * (b * 32) * c == (a * b) * (32 * c)
    ensures (b * 32) * c == b * (32 * c)
  {
  }

  /** A thread's offset lies in its own row, and tells the thread, the block and the step. */
  lemma {:induction false} OffsetOwned(p: Plan, g: nat, block: nat, i: nat)
    requires ValidPlan(p) && g < Threads(p) && i < p.unroll
    ensures VectorOwner(p, Offset(p, g, block, i)) == g
    ensures BlockOf(p, Offset(p, g, block, i)) == block && StepOf(p, Offset(p, g, block, i)) == i
  {
    hide Offset;
    OffsetSplits(p, g, block, i);
    ProductNonNegative(block, p.warps);
    var row, y := block * p.warps + g / WARP_SIZE, i * WARP_SIZE + g % WARP_SIZE;
    DivModOf(row, y, WARP_SIZE * p.unroll);
    DivModOf(block, g / WARP_SIZE, p.warps);
  }

  /** Conversely, every vector is an offset of its owner. */
  lemma {:induction false} OwnedIsOffset(p: Plan, g: nat, o: nat)
    requires ValidPlan(p) && g == VectorOwner(p, o)
    ensures o == Offset(p, g, BlockOf(p, o), StepOf(p, o)) && StepOf(p, o) < p.unroll
  {
    hide Offset;
    var c := WARP_SIZE * p.unroll;
    var row, y := o / c, o % c;
    DivModBack(o, c);
    DivModBack(row, p.warps);
    OffsetSplits(p, g, BlockOf(p, o), StepOf(p, o));
    assert g / WARP_SIZE == row % p.warps && g % WARP_SIZE == y % WARP_SIZE;
  }

  // ---- the elements of one unrolled chunk

  function Lanes(start: nat, width: nat): (es: seq<nat>)
    ensures |es| == width && forall j :: 0 <= j < width ==> es[j] == start + j
  {
    if width == 0 then [] else Lanes(start, width - 1) + [start + width - 1]
  }

  function VectorBase(p: Plan, o: nat): nat
  {
    ProductNonNegative(o, p.factor);
    p.prefix + o * p.factor
  }

  /** The elements thread g touches in the first i steps of a block; the last, partial block
      guards every step with `offset < vector_count`. */
  function ChunkElements(p: Plan, g: nat, block: nat, i: nat, guarded: bool): seq<nat>
  {
    if i == 0 then []
    else
      var o := Offset(p, g, block, i - 1);
      ChunkElements(p, g, block, i - 1, guarded) + StepElements(p, o, guarded)
  }

  function StepElements(p: Plan, o: nat, guarded: bool): seq<nat>
  {
    if guarded && o >= p.vectors then [] else Lanes(VectorBase(p, o), p.factor)
  }

  predicate InChunk(p: Plan, g: nat, block: nat, i: nat, guarded: bool, e: nat)
    requires ValidPlan(p)
  {
    && e >= p.prefix && VectorOwner(p, VectorOf(p, e)) == g && BlockOf(p, VectorOf(p, e)) == block
    && StepOf(p, VectorOf(p, e)) < i && (guarded ==> VectorOf(p, e) < p.vectors)
  }

  lemma {:induction false} LanesMember(p: Plan, o: nat, e: nat)
    requires ValidPlan(p)
    ensures e in Lanes(VectorBase(p, o), p.factor) <==> e >= p.prefix && VectorOf(p, e) == o
  {
    var es, start := Lanes(VectorBase(p, o), p.factor), VectorBase(p, o);
    if start <= e < start + p.factor {
      assert es[e - start] == e;
      DivModOf(o, e - start, p.factor);
    } else if e >= p.prefix {
      DivModBack(e - p.prefix, p.factor);
    }
  }

  lemma {:induction false} ChunkMember(p: Plan, g: nat, block: nat, i: nat, guarded: bool, e: nat)
    requires ValidPlan(p) && g < Threads(p) && i <= p.unroll
    ensures e in ChunkElements(p, g, block, i, guarded) <==> InChunk(p, g, block, i, guarded, e)
  {
    hide VectorOf, VectorOwner, BlockOf, StepOf, Offset, Lanes, VectorBase, ValidPlan;
    if i > 0 {
      ChunkMember(p, g, block, i - 1, guarded, e);
      StepMember(p, g, block, i - 1, guarded, e);
    }
  }

  lemma {:induction false} StepMember(p: Plan, g: nat, block: nat, i: nat, guarded: bool, e: nat)
    requires ValidPlan(p) && g < Threads(p) && i < p.unroll
    ensures e in StepElements(p, Offset(p, g, block, i), guarded)
       <==> InChunk(p, g, block, i + 1, guarded, e) && StepOf(p, VectorOf(p, e)) == i
  {
    hide VectorOf, VectorOwner, BlockOf, StepOf, Offset, Lanes, VectorBase, ValidPlan;
    LanesMember(p, Offset(p, g, block, i), e);
    OffsetOwned(p, g, block, i);
    if e >= p.prefix && VectorOwner(p, VectorOf(p, e)) == g {
      OwnedIsOffset(p, g, VectorOf(p, e));
    }
  }

  lemma {:induction false} ChunkDistinct(p: Plan, g: nat, block: nat, i: nat, guarded: bool)
    requires ValidPlan(p) && g < Threads(p) && i <= p.unroll
    ensures Distinct(ChunkElements(p, g, block, i, guarded))
  {
    hide VectorOf, VectorOwner, BlockOf, StepOf, Offset, VectorBase, ValidPlan;
    if i > 0 {
      var xs, ys := ChunkElements(p, g, block, i - 1, guarded), StepElements(p, Offset(p, g, block, i - 1), guarded);
      ChunkDistinct(p, g, block, i - 1, guarded);
      forall e | e in xs
        ensures e !in ys
      {
        ChunkMember(p, g, block, i - 1, guarded, e);
        StepMember(p, g, block, i - 1, guarded, e);
      }
      DistinctConcat(xs, ys);
    }
  }

  lemma {:induction false} DistinctConcat(xs: seq<nat>, ys: seq<nat>)
    requires Distinct(xs) && Distinct(ys) && forall e :: e in xs ==> e !in ys
    ensures Distinct(xs + ys)
  {
    forall i, j | 0 <= i < j < |xs + ys|
      ensures (xs + ys)[i] != (xs + ys)[j]
    {
      if i < |xs| <= j {
        assert xs[i] in xs && ys[j - |xs|] in ys;
      }
    }
  }

  // ---- the accesses a thread issues

  /** `for peer: for i: [if (offset < vector_count)] access the vector at offset`. */
  method ChunkAccess(p: Plan, g: nat, block: nat, guarded: bool, kind: Kind, peers: nat) returns (log: seq<Event>)
    ensures log == Grid(g, kind, peers, ChunkElements(p, g, block, p.unroll, guarded))
  {
    hide Row, ChunkElements;
    log := [];
    for peer := 0 to peers
      invariant log == Grid(g, kind, peer, ChunkElements(p, g, block, p.unroll, guarded))
    {
      var row := UnrolledAccess(p, g, block, guarded, kind, peer);
      log := log + row;
    }
  }

  method UnrolledAccess(p: Plan, g: nat, block: nat, guarded: bool, kind: Kind, peer: nat) returns (log: seq<Event>)
    ensures log == Row(g, kind, peer, ChunkElements(p, g, block, p.unroll, guarded))
  {
    hide Offset, VectorBase;
    log := [];
    for i := 0 to p.unroll
      invariant log == Row(g, kind, peer, ChunkElements(p, g, block, i, guarded))
    {
      var o := Offset(p, g, block, i);
      RowConcat(g, kind, peer, ChunkElements(p, g, block, i, guarded), StepElements(p, o, guarded));
      if !guarded || o < p.vectors {
        var accesses := VectorAccess(p, g, kind, peer, o);
        log := log + accesses;
      }
    }
  }

  method VectorAccess(p: Plan, g: nat, kind: Kind, peer: nat, o: nat) returns (log: seq<Event>)
    ensures log == Row(g, kind, peer, Lanes(VectorBase(p, o), p.factor))
  {
    hide VectorBase, Lanes;
    var start := VectorBase(p, o);
    log := [];
    RowLanes(g, kind, peer, start, 0);
    for lane := 0 to p.factor
      invariant log == Row(g, kind, peer, Lanes(start, lane))
    {
      RowLanes(g, kind, peer, start, lane);
      log := log + [Event(g, kind, peer, start + lane)];
    }
  }

  lemma {:induction false} RowLanes(g: nat, kind: Kind, peer: nat, start: nat, lane: nat)
    ensures Row(g, kind, peer, Lanes(start, 0)) == []
    ensures Row(g, kind, peer, Lanes(start, lane + 1)) == Row(g, kind, peer, Lanes(start, lane)) + [Event(g, kind, peer, start + lane)]
  {
    assert Lanes(start, lane + 1)[..lane] == Lanes(start, lane);
  }

  method Chunk(p: Plan, g: nat, block: nat, guarded: bool, peers: nat) returns (log: seq<Event>)
    ensures log == Task(g, peers, ChunkElements(p, g, block, p.unroll, guarded))
  {
    var loads := ChunkAccess(p, g, block, guarded, Load, peers);
    var stores := ChunkAccess(p, g, block, guarded, Store, peers);
    log := loads + stores;
  }

  /** One element by the scalar path: load it from every peer, then store it to every peer. */
  method Scalar(g: nat, peers: nat, e: nat) returns (log: seq<Event>)
    ensures log == Task(g, peers, [e])
  {
    log := [];
    for peer := 0 to peers
      invariant log == Grid(g, Load, peer, [e])
    {
      assert Row(g, Load, peer, [e]) == Row(g, Load, peer, []) + [Event(g, Load, peer, e)];
      log := log + [Event(g, Load, peer, e)];
    }
    for peer := 0 to peers
      invariant log == Grid(g, Load, peers, [e]) + Grid(g, Store, peer, [e])
    {
      assert Row(g, Store, peer, [e]) == Row(g, Store, peer, []) + [Event(g, Store, peer, e)];
      log := log + [Event(g, Store, peer, e)];
    }
  }

  // ---- grid-stride loops

  /** Elements start, start+1, .. handled one by one by the threads in turn, up to `limit`. */
  method ScalarLoop(g: nat, threads: nat, peers: nat, start: nat, limit: nat, log0: seq<Event>, ghost done0: set<nat>)
    returns (log: seq<Event>, ghost done: set<nat>)
    requires g < threads && Tracks(log0, g, peers, done0)
    requires forall e :: e in done0 ==> !(start <= e < start + limit)
    ensures Tracks(log, g, peers, done)
    ensures forall e :: e in done <==> e in done0 || (start <= e < start + limit && (e - start) % threads == g)
  {
    hide Tracks, Task;
    log, done := log0, done0;
    var offset := g;
    FirstOfStride(g, threads);
    while offset < limit
      invariant offset % threads == g
      invariant Tracks(log, g, peers, done)
      invariant forall e :: e in done <==>
                  e in done0 || (start <= e < start + limit && e < start + offset && (e - start) % threads == g)
    {
      var task := Scalar(g, peers, start + offset);
      NextOfStride(offset, threads);
      TrackTask(log, g, peers, done, [start + offset]);
      log, done := log + task, done + Elements([start + offset]);
      offset := offset + threads;
    }
  }

  // ---- the kernels

  /** Kernel 1: one grid-stride loop over all elements. */
  method LsaThread(g: nat, threads: nat, peers: nat, count: nat) returns (log: seq<Event>)
    requires g < threads
    ensures HandlesOwn(log, g, peers, count, e => e % threads)
  {
    ghost var done;
    log, done := ScalarLoop(g, threads, peers, 0, count, [], {});
  }

  /** The vectors of the blocks before `block`. */
  predicate BlocksDone(p: Plan, g: nat, block: nat, e: nat)
    requires ValidPlan(p)
  {
    e >= p.prefix && VectorOf(p, e) < p.vectors && VectorOwner(p, VectorOf(p, e)) == g && BlockOf(p, VectorOf(p, e)) < block
  }

  /** A whole block lies below vector_count, and no vector lies past the partial block. */
  lemma {:induction false} BlockBound(p: Plan, o: nat, blocks: nat)
    requires ValidPlan(p) && blocks == p.vectors / (Threads(p) * p.unroll)
    ensures BlockOf(p, o) < blocks ==> o < p.vectors
    ensures o < p.vectors ==> BlockOf(p, o) <= blocks
  {
    hide VectorOf, VectorOwner, StepOf;
    var c, w := WARP_SIZE * p.unroll, p.warps;
    Reassociate(1, p.warps, p.unroll);
    var size := w * c;
    assert Threads(p) * p.unroll == size;
    ProductPositive(w, c);
    DivDiv(o, c, w);
    DivModBack(p.vectors, size);
    DivModBack(o, size);
    if o / size < blocks {
      MulMono(o / size + 1, blocks, size);
    }
    if o < p.vectors && o / size > blocks {
      MulMono(blocks + 1, o / size, size);
    }
  }

  lemma {:induction false} ProductPositive(x: nat, y: nat)
    requires x > 0 && y > 0
    ensures x * y > 0
  {
  }

  lemma {:induction false} DivDiv(x: nat, c: nat, w: nat)
    requires c > 0 && w > 0 && w * c > 0
    ensures (x / c) / w == x / (w * c)
  {
    var row := x / c;
    QuotientLe(x, c);
    DivModBack(x, c);
    DivModBack(row, w);
    var q, r := row / w, (row % w) * c + x % c;
    MulMono(row % w + 1, w, c);
    ProductNonNegative(row % w, c);
    assert (row % w + 1) * c == (row % w) * c + c;
    assert row * c == (q * w + row % w) * c == q * (w * c) + (row % w) * c;
    QuotientLe(row, w);
    DivModOf(q, r, w * c);
  }

  lemma {:induction false} ChunkIsBlock(p: Plan, g: nat, block: nat, blocks: nat, guarded: bool, e: nat)
    requires ValidPlan(p) && blocks == p.vectors / (Threads(p) * p.unroll)
    requires if guarded then block == blocks else block < blocks
    requires g < Threads(p)
    ensures e in ChunkElements(p, g, block, p.unroll, guarded)
       <==> BlocksDone(p, g, block + 1, e) && !BlocksDone(p, g, block, e)
  {
    hide VectorOf, VectorOwner, BlockOf, StepOf, Offset, ChunkElements, ValidPlan;
    ChunkMember(p, g, block, p.unroll, guarded, e);
    if e >= p.prefix {
      BlockBound(p, VectorOf(p, e), blocks);
      OwnedIsOffset(p, VectorOwner(p, VectorOf(p, e)), VectorOf(p, e));
    }
  }

  /** One chunk brings a thread from the blocks before `block` to those up to it. */
  lemma {:induction false} TrackChunk(p: Plan, g: nat, block: nat, blocks: nat, guarded: bool, peers: nat,
                                      log: seq<Event>, done0: set<nat>, done: set<nat>)
    requires ValidPlan(p) && blocks == p.vectors / (Threads(p) * p.unroll) && g < Threads(p)
    requires if guarded then block == blocks else block < blocks
    requires Tracks(log, g, peers, done) && forall e :: e in done0 ==> e < p.prefix
    requires forall e :: e in done <==> e in done0 || BlocksDone(p, g, block, e)
    ensures Tracks(log + Task(g, peers, ChunkElements(p, g, block, p.unroll, guarded)), g, peers,
                   done + Elements(ChunkElements(p, g, block, p.unroll, guarded)))
    ensures forall e :: e in done + Elements(ChunkElements(p, g, block, p.unroll, guarded))
                   <==> e in done0 || BlocksDone(p, g, block + 1, e)
  {
    hide Tracks, Task, ChunkElements, BlocksDone, ValidPlan, Distinct;
    var es := ChunkElements(p, g, block, p.unroll, guarded);
    ChunkDistinct(p, g, block, p.unroll, guarded);
    forall e: nat
      ensures e in es <==> BlocksDone(p, g, block + 1, e) && !BlocksDone(p, g, block, e)
      ensures BlocksDone(p, g, block, e) ==> BlocksDone(p, g, block + 1, e)
      ensures BlocksDone(p, g, block + 1, e) ==> e >= p.prefix
    {
      ChunkIsBlock(p, g, block, blocks, guarded, e);
      BlocksGrow(p, g, block, e);
    }
    TrackTask(log, g, peers, done, es);
  }

  lemma {:induction false} BlocksGrow(p: Plan, g: nat, block: nat, e: nat)
    requires ValidPlan(p)
    ensures BlocksDone(p, g, block, e) ==> BlocksDone(p, g, block + 1, e)
    ensures BlocksDone(p, g, block + 1, e) ==> e >= p.prefix
  {
  }

  /** The whole blocks, then the guarded partial one. */
  method VectorLoop(p: Plan, g: nat, peers: nat, log0: seq<Event>, ghost done0: set<nat>)
    returns (log: seq<Event>, ghost done: set<nat>)
    requires ValidPlan(p) && g < Threads(p)
    requires Tracks(log0, g, peers, done0) && forall e :: e in done0 ==> e < p.prefix
    ensures Tracks(log, g, peers, done)
    ensures forall e :: e in done <==>
              e in done0 || (p.prefix <= e < Tail(p) && VectorOwner(p, VectorOf(p, e)) == g)
  {
    hide Tracks, Task, ChunkElements, VectorOf, VectorOwner, BlockOf, Tail;
    ThreadsPositive(p);
    ProductPositive(Threads(p), p.unroll);
    QuotientLe(p.vectors, Threads(p) * p.unroll);
    var blocks := p.vectors / (Threads(p) * p.unroll);
    log, done := log0, done0;
    forall e: nat
      ensures !BlocksDone(p, g, 0, e)
    {
      NoBlocks(p, g, e);
    }
    for block := 0 to blocks
      invariant Tracks(log, g, peers, done)
      invariant forall e :: e in done <==> e in done0 || BlocksDone(p, g, block, e)
    {
      var chunk := Chunk(p, g, block, false, peers);
      TrackChunk(p, g, block, blocks, false, peers, log, done0, done);
      log, done := log + chunk, done + Elements(ChunkElements(p, g, block, p.unroll, false));
    }
    var last := Chunk(p, g, blocks, true, peers);
    TrackChunk(p, g, blocks, blocks, true, peers, log, done0, done);
    log, done := log + last, done + Elements(ChunkElements(p, g, blocks, p.unroll, true));
    forall e: nat
      ensures BlocksDone(p, g, blocks + 1, e)
         <==> p.prefix <= e < Tail(p) && VectorOwner(p, VectorOf(p, e)) == g
    {
      AllBlocks(p, g, blocks, e);
    }
  }

  lemma {:induction false} NoBlocks(p: Plan, g: nat, e: nat)
    requires ValidPlan(p)
    ensures !BlocksDone(p, g, 0, e)
  {
  }

  lemma {:induction false} AllBlocks(p: Plan, g: nat, blocks: nat, e: nat)
    requires ValidPlan(p) && blocks == p.vectors / (Threads(p) * p.unroll)
    ensures BlocksDone(p, g, blocks + 1, e) <==> p.prefix <= e < Tail(p) && VectorOwner(p, VectorOf(p, e)) == g
  {
    hide VectorOwner, BlockOf, StepOf;
    if e >= p.prefix {
      BlockBound(p, VectorOf(p, e), blocks);
      BelowTail(p, e);
    }
  }

  lemma {:induction false} BelowTail(p: Plan, e: nat)
    requires ValidPlan(p) && e >= p.prefix
    ensures e < Tail(p) <==> VectorOf(p, e) < p.vectors
  {
    var q := (e - p.prefix) / p.factor;
    DivModBack(e - p.prefix, p.factor);
    QuotientLe(p.count - p.prefix, p.factor);
    if q < p.vectors {
      MulMono(q + 1, p.vectors, p.factor);
      assert (q + 1) * p.factor == q * p.factor + p.factor;
    } else {
      MulMono(p.vectors, q, p.factor);
    }
  }

  function PlanOf(s: Shape): (p: Plan)
    requires ValidShape(s)
    ensures ValidPlan(p) && Threads(p) == GlobalThreads(s)
  {
    WarpsPositive(s.ranks, s.ctas, s.dim);
    QuotientPositive(s.vecBytes, s.eltBytes);
    QuotientPositive(128, s.vecBytes);
    var prefix := PrefixOf(s.sendOffset, s.vecBytes, s.eltBytes);
    QuotientLe(s.count - prefix, s.vecBytes / s.eltBytes);
    Plan(s.ranks * s.ctas * (s.dim / WARP_SIZE), prefix, s.vecBytes / s.eltBytes, 128 / s.vecBytes,
         (s.count - prefix) / (s.vecBytes / s.eltBytes), s.count)
  }

  /** What the kernel derives: as many warps as threads/32, a prefix of the elements that fit between the
      last vector boundary and the window, vectors that hold as many elements as fit, as many of them to
      a step as make 128 bytes, and as many vectors as fit after the prefix. */
  lemma {:induction false} PlanIs(s: Shape)
    requires ValidShape(s)
    ensures var p, past := PlanOf(s), s.sendOffset % s.vecBytes;
      && p.warps * WARP_SIZE == s.dim * s.ctas * s.ranks && p.count == s.count
      && p.prefix * s.eltBytes <= past < (p.prefix + 1) * s.eltBytes
      && p.factor * s.eltBytes <= s.vecBytes < (p.factor + 1) * s.eltBytes
      && p.unroll * s.vecBytes <= 128 < (p.unroll + 1) * s.vecBytes
      && p.vectors * p.factor <= s.count - p.prefix < (p.vectors + 1) * p.factor
  {
    var p := PlanOf(s);
    WarpsPositive(s.ranks, s.ctas, s.dim);
    Quotient(s.sendOffset % s.vecBytes, s.eltBytes);
    Quotient(s.vecBytes, s.eltBytes);
    Quotient(128, s.vecBytes);
    Quotient(s.count - p.prefix, p.factor);
  }

  lemma {:induction false} Quotient(x: nat, d: nat)
    requires d > 0
    ensures (x / d) * d <= x < (x / d + 1) * d
  {
    QuotientBounds(x, d);
    assert (x / d + 1) * d == (x / d) * d + d;
  }

  function PrefixOf(offset: nat, vecBytes: nat, eltBytes: nat): nat
    requires vecBytes > 0 && eltBytes > 0
  {
    QuotientLe(offset % vecBytes, eltBytes);
    (offset % vecBytes) / eltBytes
  }

  /** `blockDim.x * gridDim.x * nRanks`. */
  function GlobalThreads(s: Shape): int { s.dim * s.ctas * s.ranks }

  lemma {:induction false} WarpsPositive(ranks: nat, ctas: nat, dim: nat)
    requires ranks > 0 && ctas > 0 && dim > 0 && dim % WARP_SIZE == 0
    ensures ranks * ctas * (dim / WARP_SIZE) > 0
    ensures ranks * ctas * (dim / WARP_SIZE) * WARP_SIZE == dim * ctas * ranks
  {
    var k := dim / WARP_SIZE;
    ProductPositive(ranks, ctas);
    ProductPositive(ranks * ctas, k);
    assert ranks * ctas * k * 32 == ranks * ctas * (k * 32);
    assert dim * ctas * ranks == ranks * ctas * dim by { assert dim * ctas == ctas * dim; }
  }

  /** `threadIdx.x + blockDim.x * (rank + blockIdx.x * nRanks)`. */
  function GlobalTid(s: Shape, rank: nat, cta: nat, thread: nat): int
  {
    thread + s.dim * (rank + cta * s.ranks)
  }

  /** Every number below GlobalThreads is some thread's. */
  lemma {:induction false} GlobalTidOnto(s: Shape, g: nat) returns (rank: nat, cta: nat, thread: nat)
    requires ValidShape(s) && g < GlobalThreads(s)
    ensures rank < s.ranks && cta < s.ctas && thread < s.dim && GlobalTid(s, rank, cta, thread) == g
  {
    QuotientNonNegative(g, s.dim);
    var row := g / s.dim;
    QuotientNonNegative(row, s.ranks);
    thread, rank, cta := g % s.dim, row % s.ranks, row / s.ranks;
    DivModBack(g, s.dim);
    DivModBack(row, s.ranks);
    MulCommutes(s.dim, row);
    Rotate(s.dim, s.ctas, s.ranks);
    if cta >= s.ctas {
      MulMono(s.ctas, cta, s.ranks);
      MulMono(s.ctas * s.ranks, row, s.dim);
    }
  }

  /** The threads of all blocks of all ranks are numbered without clashes. */
  lemma {:induction false} GlobalTidUnique(s: Shape, rank: nat, cta: nat, thread: nat, rank': nat, cta': nat, thread': nat)
    requires ValidShape(s) && rank < s.ranks && cta < s.ctas && thread < s.dim
    requires rank' < s.ranks && cta' < s.ctas && thread' < s.dim
    ensures 0 <= GlobalTid(s, rank, cta, thread) < GlobalThreads(s)
    ensures GlobalTid(s, rank, cta, thread) == GlobalTid(s, rank', cta', thread')
       <==> rank == rank' && cta == cta' && thread == thread'
  {
    var row, row' := rank + cta * s.ranks, rank' + cta' * s.ranks;
    TidBound(s, rank, cta, thread, row);
    MulCommutes(s.dim, row);
    MulCommutes(s.dim, row');
    if GlobalTid(s, rank, cta, thread) == GlobalTid(s, rank', cta', thread') {
      QuotientUnique(row, thread, row', thread', s.dim);
      QuotientUnique(cta, rank, cta', rank', s.ranks);
    }
  }

  lemma {:induction false} TidBound(s: Shape, rank: nat, cta: nat, thread: nat, row: int)
    requires ValidShape(s) && rank < s.ranks && cta < s.ctas && thread < s.dim && row == rank + cta * s.ranks
    ensures 0 <= thread + s.dim * row < GlobalThreads(s)
  {
    ProductNonNegative(cta, s.ranks);
    ProductNonNegative(s.dim, row);
    MulMono(cta + 1, s.ctas, s.ranks);
    assert (cta + 1) * s.ranks == cta * s.ranks + s.ranks;
    MulMono(row + 1, s.ctas * s.ranks, s.dim);
    assert (row + 1) * s.dim == s.dim * row + s.dim;
    Rotate(s.dim, s.ctas, s.ranks);
  }

  lemma {:induction false} Rotate(a: int, b: int, c: int)
    ensures a * b * c == (b * c) * a
  {
    assert a * b * c == a * (b * c);
  }

  lemma {:induction false} TailOf(p: Plan)
    requires ValidPlan(p)
    ensures p.prefix <= Tail(p) <= p.count && p.count - Tail(p) == (p.count - p.prefix) % p.factor
  {
    DivModBack(p.count - p.prefix, p.factor);
    ProductNonNegative(p.vectors, p.factor);
  }

  /** Kernel 2: unaligned prefix, whole unrolled blocks, one guarded block, scalar remainder. */
  method VectorizedThread(s: Shape, g: nat) returns (log: seq<Event>)
    requires ValidShape(s) && g < GlobalThreads(s)
    ensures HandlesOwn(log, g, s.ranks, s.count, e => Owner(PlanOf(s), e))
  {
    hide Tracks, VectorOf, VectorOwner, Tail, PlanOf;
    var p := PlanOf(s);
    log := VectorizedPlan(p, g, s.ranks);
    assert p.count == s.count by { PlanCount(s); }
  }

  lemma {:induction false} PlanCount(s: Shape)
    requires ValidShape(s)
    ensures PlanOf(s).count == s.count
  {
  }

  method VectorizedPlan(p: Plan, g: nat, peers: nat) returns (log: seq<Event>)
    requires ValidPlan(p) && g < Threads(p)
    ensures HandlesOwn(log, g, peers, p.count, e => Owner(p, e))
  {
    hide VectorOf, VectorOwner, Canon, Tail, Tracks, HandlesOwn;
    ghost var done;
    log, done := [], {};
    TracksNothing(g, peers);
    if p.prefix > 0 {
      log, done := ScalarLoop(g, Threads(p), peers, 0, p.prefix, log, done);
    }
    log, done := VectorLoop(p, g, peers, log, done);
    TailOf(p);
    var remainder := (p.count - p.prefix) % p.factor;
    if remainder > 0 {
      log, done := ScalarLoop(g, Threads(p), peers, TailStart(p), remainder, log, done);
    }
    forall e: nat
      ensures e in done <==> e < p.count && Owner(p, e) == g
    {
    }
    TracksOwn(log, g, peers, p, done);
  }

  lemma {:induction false} TracksNothing(g: nat, peers: nat)
    ensures Tracks([], g, peers, {})
  {
  }

  lemma {:induction false} TracksOwn(log: seq<Event>, g: nat, peers: nat, p: Plan, done: set<nat>)
    requires ValidPlan(p) && Tracks(log, g, peers, done)
    requires forall e: nat :: e in done <==> e < p.count && Owner(p, e) == g
    ensures HandlesOwn(log, g, peers, p.count, e => Owner(p, e))
  {
    hide Owner, Canon, OnElement, ValidPlan;
  }

  /** `alignment_offset + vector_count * VECTOR_FACTOR`. */
  function TailStart(p: Plan): (t: nat)
    requires ValidPlan(p)
    ensures t == Tail(p)
  {
    QuotientLe(p.count - p.prefix, p.factor);
    ProductNonNegative(p.vectors, p.factor);
    p.prefix + p.vectors * p.factor
  }

  // ---- the two kernels agree

  /** Fresh windows: `peers` send and receive elements at every index, no register in use. */
  predicate Fresh<T>(mem: seq<Cell<T>>, peers: nat)
  {
    forall i :: 0 <= i < |mem| ==> |mem[i].send| == |mem[i].recv| == peers && mem[i].regs == map[]
  }

  /** Whatever the interleavings, in place or not, the vectorized kernel leaves in every peer's
      receive window the ordered sum over the peers, which is what the simple kernel leaves. */
  lemma {:induction false} KernelsAgree<T>(a: Algebra<T>, mem: seq<Cell<T>>, s: Shape, e: nat,
                                           simple: seq<seq<Event>>, simpleSched: seq<Event>,
                                           vector: seq<seq<Event>>, vectorSched: seq<Event>)
    requires ValidShape(s) && Fresh(mem, s.ranks) && e < |mem|
    requires |simple| == |vector| == GlobalThreads(s)
    requires Interleaves(simpleSched, simple) && Interleaves(vectorSched, vector)
    requires forall g :: 0 <= g < |simple| ==> HandlesOwn(simple[g], g, s.ranks, s.count, i => i % GlobalThreads(s))
    requires forall g :: 0 <= g < |vector| ==> HandlesOwn(vector[g], g, s.ranks, s.count, i => Owner(PlanOf(s), i))
    ensures Run(a, mem, vectorSched)[e].recv == Run(a, mem, simpleSched)[e].recv
    ensures e < s.count ==> forall p :: 0 <= p < s.ranks ==>
              |Run(a, mem, vectorSched)[e].recv| == s.ranks
              && Run(a, mem, vectorSched)[e].recv[p] == Fold(a, Operands(a, mem[e]), s.ranks)
    ensures e >= s.count ==> Run(a, mem, vectorSched)[e] == mem[e]
  {
    hide Run, Fold, Owner, PlanOf, HandlesOwn;
    var p := PlanOf(s);
    ThreadsPositive(p);
    forall i: nat
      ensures Owner(p, i) < GlobalThreads(s)
    {
      OwnerInRange(p, i);
    }
    AllReduced(a, mem, simpleSched, simple, s.ranks, s.count, i => i % GlobalThreads(s), e);
    AllReduced(a, mem, vectorSched, vector, s.ranks, s.count, i => Owner(PlanOf(s), i), e);
  }
}
