/** The six collectives built on one-sided puts (src/all_gather.cu, src/alltoall.cu,
    src/scatter.cu, src/gather.cu, src/broadcast.cu, src/sendrecv.cu): which puts each rank issues,
    which signals each rank waits for, and what the puts leave in memory. Addresses count elements. */
module Rma {
  import opened Arith
  import opened Lists

  datatype Kind = AllGather | AlltoAll | Scatter | Gather | Broadcast | SendRecv

  /** send[r] is the address of rank r's send data; its receive data is at offset off[r] of the
      receive window, which starts at address base[r]. */
  datatype Job = Job(kind: Kind, n: nat, root: nat, count: nat, numSig: nat, nctx: nat,
                     send: seq<int>, base: seq<int>, off: seq<int>)

  datatype Put = Put(src: nat, dst: nat, from: int, to: int, count: nat, sig: nat, ctx: nat)

  datatype Signal = Signal(peer: nat, sig: nat, ctx: nat)

  predicate ValidJob(j: Job)
  {
    && j.root < j.n && j.numSig > 0 && j.nctx > 0
    && |j.send| == |j.base| == |j.off| == j.n
  }

  /** Distance of slot r from slot 0 when each holds `count` elements. */
  function Slot(r: int, count: nat): int
  {
    r * count
  }

  lemma {:induction false} SlotFacts(p: int, q: int, count: nat)
    ensures p < q ==> Slot(p, count) + count <= Slot(q, count)
    ensures p <= q ==> Slot(p, count) <= Slot(q, count)
    ensures Slot(p - q, count) == Slot(p, count) - Slot(q, count)
    ensures Slot(0, count) == 0
    ensures Slot(p + 1, count) == Slot(p, count) + count
  {
    if p < q {
      MulMono(p + 1, q, count);
    } else {
      MulMono(q, p, count);
    }
    if p <= q {
      MulMono(p, q, count);
    }
    assert (p + 1) * count == p * count + count && (p - q) * count == p * count - q * count;
  }

  function RecvAt(j: Job, r: nat): int
    requires ValidJob(j) && r < j.n
  {
    j.base[r] + j.off[r]
  }

  /** The send data lies where the collective would put it. */
  predicate InPlace(j: Job, r: nat)
    requires ValidJob(j) && r < j.n
  {
    match j.kind
    case AllGather => j.send[r] == RecvAt(j, r) + Slot(r, j.count)
    case Gather => j.send[r] == RecvAt(j, r) + Slot(r, j.count)
    case Scatter => RecvAt(j, r) == j.send[r] + Slot(r, j.count)
    case Broadcast => j.send[r] == RecvAt(j, r)
    case AlltoAll => false
    case SendRecv => false
  }

  // ---- the chunks of a point-to-point message

  /** `base + (c < rem ? 1 : 0)` */
  function Chunk(j: Job, c: nat): nat
    requires ValidJob(j)
  {
    QuotientNonNegative(j.count, j.nctx);
    j.count / j.nctx + if c < j.count % j.nctx then 1 else 0
  }

  lemma {:induction false} ChunkIs(j: Job, c: nat)
    requires ValidJob(j)
    ensures Chunk(j, c) == j.count / j.nctx + if c < j.count % j.nctx then 1 else 0
  {
  }

  function ChunkOff(j: Job, c: nat): nat
    requires ValidJob(j)
  {
    if c == 0 then 0 else ChunkOff(j, c - 1) + Chunk(j, c - 1)
  }

  lemma {:induction false} ChunkOffMono(j: Job, c: nat, d: nat)
    requires ValidJob(j) && c <= d
    ensures ChunkOff(j, c) <= ChunkOff(j, d)
    ensures c < d ==> ChunkOff(j, c) + Chunk(j, c) <= ChunkOff(j, d)
  {
    hide Chunk;
    if c < d {
      ChunkOffMono(j, c, d - 1);
    }
  }

  /** The chunks tile the message. */
  lemma {:induction false} ChunksTile(j: Job)
    requires ValidJob(j)
    ensures ChunkOff(j, j.nctx) == j.count
  {
    ChunkOffIs(j, j.nctx);
    DivMod(j.count, j.nctx);
  }

  lemma {:induction false} DivMod(x: nat, d: nat)
    requires d > 0
    ensures x == Slot(d, x / d) + x % d && x % d < d
  {
  }

  lemma {:induction false} ChunkOffIs(j: Job, c: nat)
    requires ValidJob(j)
    ensures ChunkOff(j, c) == Slot(c, j.count / j.nctx) + if c < j.count % j.nctx then c else j.count % j.nctx
  {
    SlotFacts(c - 1, 0, j.count / j.nctx);
    var q, r := j.count / j.nctx, j.count % j.nctx;
    hide Slot;
    if c > 0 {
      ChunkOffIs(j, c - 1);
    }
  }

  // ---- the sender's side and the receiver's side, as each computes them

  predicate Sends(j: Job, q: nat, r: nat)
    requires ValidJob(j) && q < j.n && r < j.n
  {
    match j.kind
    case AllGather => !(InPlace(j, q) && r == q)
    case AlltoAll => true
    case Scatter => q == j.root && !(r == q && InPlace(j, q))
    case Gather => r == j.root
    case Broadcast => q == j.root
    case SendRecv => r == (q + 1) % j.n
  }

  function PutTo(j: Job, q: nat, r: nat, c: nat): Put
    requires ValidJob(j) && q < j.n && r < j.n
  {
    match j.kind
    case AllGather =>
      Put(q, r, j.send[q], j.base[r] + j.off[q] + Slot(q, j.count), j.count, q % j.numSig, (q + r) % j.nctx)
    case AlltoAll =>
      Put(q, r, j.send[q] + Slot(r, j.count), j.base[r] + j.off[q] + Slot(q, j.count), j.count, q % j.numSig, (q + r) % j.nctx)
    case Scatter =>
      Put(q, r, j.send[q] + Slot(r, j.count), j.base[r] + j.off[q] + (if InPlace(j, q) then Slot(r - q, j.count) else 0),
          j.count, r % j.numSig, (q + r) % j.nctx)
    case Gather =>
      Put(q, r, j.send[q], j.base[r] + j.off[q] + Slot(q, j.count), j.count, q % j.numSig, (q + r) % j.nctx)
    case Broadcast =>
      Put(q, r, j.send[q], j.base[r] + j.off[q], j.count, r % j.numSig, (q + r) % j.nctx)
    case SendRecv =>
      Put(q, r, j.send[q] + ChunkOff(j, c), j.base[r] + j.off[q] + ChunkOff(j, c), Chunk(j, c), c % j.numSig, c)
  }

  predicate IsPut(j: Job, p: Put)
    requires ValidJob(j)
  {
    && p.src < j.n && p.dst < j.n && Sends(j, p.src, p.dst)
    && (j.kind == SendRecv ==> p.ctx < j.nctx && Chunk(j, p.ctx) > 0)
    && p == PutTo(j, p.src, p.dst, p.ctx)
  }

  predicate IsWait(j: Job, r: nat, w: Signal)
    requires ValidJob(j) && r < j.n
  {
    && w.peer < j.n
    && match j.kind
       case AllGather => !(InPlace(j, r) && w.peer == r) && w.sig == w.peer % j.numSig && w.ctx == (w.peer + r) % j.nctx
       case AlltoAll => w.sig == w.peer % j.numSig && w.ctx == (w.peer + r) % j.nctx
       case Scatter =>
         w.peer == j.root && (r != j.root || !InPlace(j, r)) && w.sig == r % j.numSig && w.ctx == (j.root + r) % j.nctx
       case Gather => r == j.root && w.sig == w.peer % j.numSig && w.ctx == (w.peer + j.root) % j.nctx
       case Broadcast => w.peer == j.root && w.sig == r % j.numSig && w.ctx == (j.root + r) % j.nctx
       case SendRecv => w.peer == (r - 1 + j.n) % j.n && w.ctx < j.nctx && Chunk(j, w.ctx) > 0 && w.sig == w.ctx % j.numSig
  }

  function SignalOf(p: Put): Signal
  {
    Signal(p.src, p.sig, p.ctx)
  }

  // ---- the code of one rank

  ghost predicate PutsAre(j: Job, rank: nat, puts: seq<Put>)
    requires ValidJob(j)
  {
    && (forall p :: p in puts <==> IsPut(j, p) && p.src == rank)
    && NoRepeats(puts)
  }

  ghost predicate WaitsAre(j: Job, rank: nat, waits: seq<Signal>)
    requires ValidJob(j) && rank < j.n
  {
    && (forall w :: w in waits <==> IsWait(j, rank, w))
    && NoRepeats(waits)
  }

  /** How many steps the loop over peers, which starts at rank q, takes before it comes to t. */
  function Turn(q: nat, t: nat, n: nat): int
  {
    if t >= q then t - q else t - q + n
  }

  lemma {:induction false} TurnOf(q: nat, d: nat, n: nat)
    requires q < n && d < n
    ensures (q + d) % n < n && Turn(q, (q + d) % n, n) == d
    ensures forall t: nat :: t < n && Turn(q, t, n) == d ==> t == (q + d) % n
  {
    if q + d < n {
      SmallMod(q + d, n);
    } else {
      AddMultiple(q + d - n, n);
    }
  }

  method AllGatherRmaPut(j: Job, rank: nat) returns (puts: seq<Put>, waits: seq<Signal>)
    requires ValidJob(j) && j.kind == AllGather && rank < j.n
    ensures PutsAre(j, rank, puts) && WaitsAre(j, rank, waits)
  {
    hide InPlace, Slot, ChunkOff, Chunk;
    var isInPlace := InPlace(j, rank);
    waits := [];
    for i := 0 to j.n
      invariant forall w :: w in waits <==> IsWait(j, rank, w) && w.peer < i
      invariant NoRepeats(waits)
    {
      if !(isInPlace && i == rank) {
        ghost var before := waits;
        waits := waits + [Signal(i, i % j.numSig, (i + rank) % j.nctx)];
        assert forall w :: w in waits <==> w in before || w == Signal(i, i % j.numSig, (i + rank) % j.nctx);
        NewLast(before, waits[|before|]);
      }
    }
    puts := [];
    for peer := 0 to j.n
      invariant forall p :: p in puts <==> IsPut(j, p) && p.src == rank && Turn(rank, p.dst, j.n) < peer
      invariant NoRepeats(puts)
    {
      var target := (rank + peer) % j.n;
      TurnOf(rank, peer, j.n);
      if !(isInPlace && target == rank) {
        ghost var before := puts;
        var p := Put(rank, target, j.send[rank], j.base[target] + j.off[rank] + Slot(rank, j.count), j.count,
                     rank % j.numSig, (rank + target) % j.nctx);
        puts := puts + [p];
        assert forall x :: x in puts <==> x in before || x == p;
        NewLast(before, p);
      }
    }
  }

  method AlltoAllRmaPut(j: Job, rank: nat) returns (puts: seq<Put>, waits: seq<Signal>)
    requires ValidJob(j) && j.kind == AlltoAll && rank < j.n
    ensures PutsAre(j, rank, puts) && WaitsAre(j, rank, waits)
  {
    hide InPlace, Slot, ChunkOff, Chunk;
    waits := [];
    for i := 0 to j.n
      invariant forall w :: w in waits <==> IsWait(j, rank, w) && w.peer < i
      invariant NoRepeats(waits)
    {
      ghost var before := waits;
      waits := waits + [Signal(i, i % j.numSig, (i + rank) % j.nctx)];
      assert forall w :: w in waits <==> w in before || w == Signal(i, i % j.numSig, (i + rank) % j.nctx);
      NewLast(before, waits[|before|]);
    }
    puts := [];
    for peer := 0 to j.n
      invariant forall p :: p in puts <==> IsPut(j, p) && p.src == rank && Turn(rank, p.dst, j.n) < peer
      invariant NoRepeats(puts)
    {
      var target := (rank + peer) % j.n;
      TurnOf(rank, peer, j.n);
      ghost var before := puts;
      var p := Put(rank, target, j.send[rank] + Slot(target, j.count), j.base[target] + j.off[rank] + Slot(rank, j.count),
                   j.count, rank % j.numSig, (rank + target) % j.nctx);
      puts := puts + [p];
      assert forall x :: x in puts <==> x in before || x == p;
      NewLast(before, p);
    }
  }

  method ScatterRmaPut(j: Job, rank: nat) returns (puts: seq<Put>, waits: seq<Signal>)
    requires ValidJob(j) && j.kind == Scatter && rank < j.n
    ensures PutsAre(j, rank, puts) && WaitsAre(j, rank, waits)
  {
    hide InPlace, Slot, ChunkOff, Chunk;
    var isInPlace := InPlace(j, rank);
    puts := [];
    if rank == j.root {
      for peer := 0 to j.n
        invariant forall p :: p in puts <==> IsPut(j, p) && p.dst < peer
        invariant NoRepeats(puts)
      {
        if !(peer == rank && isInPlace) {
          ghost var before := puts;
          var p := Put(rank, peer, j.send[rank] + Slot(peer, j.count),
                       j.base[peer] + (if isInPlace then j.off[rank] + Slot(peer - rank, j.count) else j.off[rank]),
                       j.count, peer % j.numSig, (rank + peer) % j.nctx);
          puts := puts + [p];
          assert forall x :: x in puts <==> x in before || x == p;
          NewLast(before, p);
        }
      }
    }
    waits := if rank != j.root || !isInPlace then [Signal(j.root, rank % j.numSig, (j.root + rank) % j.nctx)] else [];
  }

  method GatherRmaPut(j: Job, rank: nat) returns (puts: seq<Put>, waits: seq<Signal>)
    requires ValidJob(j) && j.kind == Gather && rank < j.n
    ensures PutsAre(j, rank, puts) && WaitsAre(j, rank, waits)
  {
    hide InPlace, Slot, ChunkOff, Chunk;
    puts := [Put(rank, j.root, j.send[rank], j.base[j.root] + j.off[rank] + Slot(rank, j.count), j.count,
                 rank % j.numSig, (rank + j.root) % j.nctx)];
    waits := [];
    if rank == j.root {
      for i := 0 to j.n
        invariant forall w :: w in waits <==> IsWait(j, rank, w) && w.peer < i
        invariant NoRepeats(waits)
      {
        ghost var before := waits;
        waits := waits + [Signal(i, i % j.numSig, (i + j.root) % j.nctx)];
        assert forall w :: w in waits <==> w in before || w == Signal(i, i % j.numSig, (i + j.root) % j.nctx);
        NewLast(before, waits[|before|]);
      }
    }
  }

  method BroadcastRmaPut(j: Job, rank: nat) returns (puts: seq<Put>, waits: seq<Signal>)
    requires ValidJob(j) && j.kind == Broadcast && rank < j.n
    ensures PutsAre(j, rank, puts) && WaitsAre(j, rank, waits)
  {
    hide InPlace, Slot, ChunkOff, Chunk;
    puts := [];
    if rank == j.root {
      for peer := 0 to j.n
        invariant forall p :: p in puts <==> IsPut(j, p) && p.dst < peer
        invariant NoRepeats(puts)
      {
        ghost var before := puts;
        var p := Put(rank, peer, j.send[rank], j.base[peer] + j.off[rank], j.count, peer % j.numSig, (rank + peer) % j.nctx);
        puts := puts + [p];
        assert forall x :: x in puts <==> x in before || x == p;
        NewLast(before, p);
      }
    }
    waits := [Signal(j.root, rank % j.numSig, (j.root + rank) % j.nctx)];
  }

  method SendRecvRmaPut(j: Job, rank: nat) returns (puts: seq<Put>, waits: seq<Signal>)
    requires ValidJob(j) && j.kind == SendRecv && rank < j.n
    ensures PutsAre(j, rank, puts) && WaitsAre(j, rank, waits)
  {
    hide InPlace, Slot, Chunk, NoRepeats;
    NothingRepeats<Put>();
    NothingRepeats<Signal>();
    var recvPeer := (rank - 1 + j.n) % j.n;
    var sendPeer := (rank + 1) % j.n;
    TurnOf(rank, if j.n == 1 then 0 else 1, j.n);
    var q, rem := j.count / j.nctx, j.count % j.nctx;
    QuotientNonNegative(j.count, j.nctx);
    puts := [];
    var elemOff := 0;
    for c := 0 to j.nctx
      invariant elemOff == ChunkOff(j, c)
      invariant forall p :: p in puts <==> IsPut(j, p) && p.src == rank && p.ctx < c
      invariant NoRepeats(puts)
    {
      var chunk := q + if c < rem then 1 else 0;
      ChunkIs(j, c);
      if chunk != 0 {
        ghost var before := puts;
        var p := Put(rank, sendPeer, j.send[rank] + elemOff, j.base[sendPeer] + j.off[rank] + elemOff, chunk, c % j.numSig, c);
        puts := puts + [p];
        assert forall x :: x in puts <==> x in before || x == p;
        NewLast(before, p);
        elemOff := elemOff + chunk;
      }
    }
    waits := [];
    for c := 0 to j.nctx
      invariant forall w :: w in waits <==> IsWait(j, rank, w) && w.ctx < c
      invariant NoRepeats(waits)
    {
      var chunk := q + if c < rem then 1 else 0;
      ChunkIs(j, c);
      if chunk != 0 {
        ghost var before := waits;
        waits := waits + [Signal(recvPeer, c % j.numSig, c)];
        assert forall w :: w in waits <==> w in before || w == Signal(recvPeer, c % j.numSig, c);
        NewLast(before, waits[|before|]);
      }
    }
  }

  // ---- signals

  /** A rank waits for a signal exactly when some rank raises it by a put to it. */
  lemma {:induction false} WaitsMatchPuts(j: Job, r: nat, w: Signal)
    requires ValidJob(j) && r < j.n
    ensures IsWait(j, r, w) <==> exists p :: IsPut(j, p) && p.dst == r && SignalOf(p) == w
  {
    hide IsPut, IsWait;
    if IsWait(j, r, w) {
      var p := AwaitedPut(j, r, w);
    }
    forall p | IsPut(j, p) && p.dst == r && SignalOf(p) == w
      ensures IsWait(j, r, w)
    {
      PutAwaited(j, p);
    }
  }

  lemma {:induction false} AwaitedPut(j: Job, r: nat, w: Signal) returns (p: Put)
    requires ValidJob(j) && r < j.n && IsWait(j, r, w)
    ensures IsPut(j, p) && p.dst == r && SignalOf(p) == w
  {
    hide Slot, ChunkOff, Chunk, InPlace;
    Neighbours(w.peer, r, j.n);
    p := PutTo(j, w.peer, r, w.ctx);
  }

  lemma {:induction false} PutAwaited(j: Job, p: Put)
    requires ValidJob(j) && IsPut(j, p)
    ensures IsWait(j, p.dst, SignalOf(p))
  {
    hide Slot, ChunkOff, Chunk, InPlace;
    Neighbours(p.src, p.dst, j.n);
  }

  lemma {:induction false} Neighbours(q: nat, r: nat, n: nat)
    requires q < n && r < n
    ensures r == (q + 1) % n <==> q == (r - 1 + n) % n
  {
    if q + 1 < n {
      SmallMod(q + 1, n);
    } else {
      AddMultiple(0, n);
    }
    if r >= 1 {
      AddMultiple(r - 1, n);
    } else {
      SmallMod(n - 1, n);
    }
  }

  /** No two puts to a rank raise the same signal. */
  lemma {:induction false} SignalsDiffer(j: Job, p: Put, x: Put)
    requires ValidJob(j) && IsPut(j, p) && IsPut(j, x) && p.dst == x.dst && SignalOf(p) == SignalOf(x)
    ensures p == x
  {
    hide Slot, ChunkOff, Chunk, InPlace, Sends;
  }

  /** The signals that the puts of a program raise at rank r. */
  function Raised(puts: seq<Put>, r: nat): seq<Signal>
  {
    if puts == [] then []
    else Raised(puts[..|puts| - 1], r) + if puts[|puts| - 1].dst == r then [SignalOf(puts[|puts| - 1])] else []
  }

  /** ... and all programs together. */
  function Arrivals(programs: seq<seq<Put>>, r: nat): seq<Signal>
  {
    if programs == [] then []
    else Arrivals(programs[..|programs| - 1], r) + Raised(programs[|programs| - 1], r)
  }

  lemma {:induction false} RaisedAre(j: Job, puts: seq<Put>, r: nat)
    requires ValidJob(j) && NoRepeats(puts) && forall p :: p in puts ==> IsPut(j, p)
    ensures forall w :: w in Raised(puts, r) <==> exists p :: p in puts && p.dst == r && SignalOf(p) == w
    ensures NoRepeats(Raised(puts, r))
  {
    hide IsPut;
    if puts != [] {
      var front, last := puts[..|puts| - 1], puts[|puts| - 1];
      assert puts == front + [last];
      RaisedAre(j, front, r);
      if last.dst == r {
        forall p | p in front && p.dst == r
          ensures SignalOf(p) != SignalOf(last)
        {
          if SignalOf(p) == SignalOf(last) {
            SignalsDiffer(j, p, last);
          }
        }
        NewLast(Raised(front, r), SignalOf(last));
      }
    }
  }

  lemma {:induction false} ArrivalsAre(j: Job, programs: seq<seq<Put>>, r: nat)
    requires ValidJob(j) && |programs| <= j.n && forall q: nat :: q < |programs| ==> PutsAre(j, q, programs[q])
    ensures forall w :: w in Arrivals(programs, r) <==> w.peer < |programs| && exists p :: IsPut(j, p) && p.dst == r && SignalOf(p) == w
    ensures NoRepeats(Arrivals(programs, r))
  {
    hide IsPut;
    if programs != [] {
      var k := |programs| - 1;
      ArrivalsAre(j, programs[..k], r);
      RaisedAre(j, programs[k], r);
      var a, b := Arrivals(programs[..k], r), Raised(programs[k], r);
      forall x, y | 0 <= x < y < |a + b|
        ensures (a + b)[x] != (a + b)[y]
      {
        if x < k && x < |a| && y >= |a| {
          assert a[x] in a && b[y - |a|] in b;
        } else if x < |a| <= y {
          assert a[x] in a && b[y - |a|] in b;
        }
      }
    }
  }

  /** The multiset of (source, signal, context) that the puts of all ranks raise at a rank is the
      multiset that rank waits for. */
  lemma {:induction false} SignalsBalance(j: Job, programs: seq<seq<Put>>, r: nat, waits: seq<Signal>)
    requires ValidJob(j) && r < j.n && |programs| == j.n
    requires (forall q: nat :: q < j.n ==> PutsAre(j, q, programs[q])) && WaitsAre(j, r, waits)
    ensures multiset(Arrivals(programs, r)) == multiset(waits)
  {
    ArrivalsAre(j, programs, r);
    hide IsPut, IsWait;
    forall w
      ensures w in Arrivals(programs, r) <==> w in waits
    {
      WaitsMatchPuts(j, r, w);
      WaitPeer(j, r, w);
    }
    SameMultiset(Arrivals(programs, r), waits);
  }

  lemma {:induction false} WaitPeer(j: Job, r: nat, w: Signal)
    requires ValidJob(j) && r < j.n
    ensures IsWait(j, r, w) ==> w.peer < j.n
  {
  }

  // ---- data: puts deliver their elements one by one, in any order

  /** mem[r] is the memory of rank r. */
  type Mem<T> = seq<seq<T>>

  datatype Move = Move(p: Put, x: nat)

  predicate InBounds<T>(m: Mem<T>, p: Put)
  {
    && p.src < |m| && p.dst < |m|
    && 0 <= p.from && p.from + p.count <= |m[p.src]| && 0 <= p.to && p.to + p.count <= |m[p.dst]|
  }

  predicate Identity(p: Put)
  {
    p.src == p.dst && p.from == p.to
  }

  predicate Apart(r: nat, a: int, count: nat, r': nat, a': int, count': nat)
  {
    r != r' || a + count <= a' || a' + count' <= a || count == 0 || count' == 0
  }

  /** All puts stay inside memory, no two write the same element, and none writes what another
      reads, except for a put that copies elements to where they are. */
  ghost predicate Safe<T>(j: Job, m: Mem<T>)
    requires ValidJob(j)
  {
    && (forall p :: IsPut(j, p) ==> InBounds(m, p))
    && (forall p, x :: IsPut(j, p) && IsPut(j, x) && p != x ==> Apart(p.dst, p.to, p.count, x.dst, x.to, x.count))
    && (forall p, x :: IsPut(j, p) && IsPut(j, x) ==> Identity(x) || Apart(p.src, p.from, p.count, x.dst, x.to, x.count))
  }

  predicate IsMove(j: Job, v: Move)
    requires ValidJob(j)
  {
    IsPut(j, v.p) && v.x < v.p.count
  }

  /** Memory after some elements have been delivered. */
  function After<T>(m: Mem<T>, moves: seq<Move>): (r: Mem<T>)
    ensures |r| == |m| && forall i :: 0 <= i < |m| ==> |r[i]| == |m[i]|
  {
    if moves == [] then m else
    var before := After(m, moves[..|moves| - 1]);
    var v := moves[|moves| - 1];
    if InBounds(m, v.p) && v.x < v.p.count then
      before[v.p.dst := before[v.p.dst][v.p.to + v.x := before[v.p.src][v.p.from + v.x]]]
    else before
  }

  predicate Hits(v: Move, r: nat, a: nat)
  {
    v.p.dst == r && v.p.to + v.x == a
  }

  ghost predicate AllMoves(j: Job, moves: seq<Move>)
    requires ValidJob(j)
  {
    forall i :: 0 <= i < |moves| ==> IsMove(j, moves[i])
  }

  lemma {:induction false} FrontMoves(j: Job, moves: seq<Move>)
    requires ValidJob(j) && AllMoves(j, moves) && |moves| > 0
    ensures AllMoves(j, moves[..|moves| - 1]) && IsMove(j, moves[|moves| - 1])
  {
    hide IsMove;
  }

  lemma {:induction false} MoveAt(j: Job, moves: seq<Move>, k: nat)
    requires ValidJob(j) && AllMoves(j, moves) && k < |moves|
    ensures IsMove(j, moves[k])
  {
    hide IsMove;
  }

  /** An element that no delivery wrote is what it was. */
  lemma {:induction false} Untouched<T>(m: Mem<T>, moves: seq<Move>, r: nat, a: nat)
    requires r < |m| && a < |m[r]| && forall i :: 0 <= i < |moves| ==> !Hits(moves[i], r, a)
    ensures After(m, moves)[r][a] == m[r][a]
  {
    if moves != [] {
      Untouched(m, moves[..|moves| - 1], r, a);
      assert !Hits(moves[|moves| - 1], r, a);
    }
  }

  /** An element that some delivery wrote holds the sender's original element. */
  lemma {:induction false} Touched<T>(j: Job, m: Mem<T>, moves: seq<Move>, r: nat, a: nat, k: nat)
    requires ValidJob(j) && Safe(j, m) && AllMoves(j, moves) && r < |m| && a < |m[r]|
    requires k < |moves| && Hits(moves[k], r, a)
    ensures InBounds(m, moves[k].p) && moves[k].x < moves[k].p.count
    ensures After(m, moves)[r][a] == m[moves[k].p.src][moves[k].p.from + moves[k].x]
    decreases |moves|, 0
  {
    hide Safe, IsMove, IsPut, AllMoves, After;
    var front, v := moves[..|moves| - 1], moves[|moves| - 1];
    FrontMoves(j, moves);
    MoveInBounds(j, m, v);
    MoveAt(j, moves, k);
    MoveInBounds(j, m, moves[k]);
    hide InBounds;
    LastWrite(m, moves, r, a);
    if Hits(v, r, a) {
      OneWriter(j, m, v, moves[k]);
      SourceIntact(j, m, front, v);
    } else {
      Touched(j, m, front, r, a, k);
    }
  }

  lemma {:induction false} LastWrite<T>(m: Mem<T>, moves: seq<Move>, r: nat, a: nat)
    requires |moves| > 0 && r < |m| && a < |m[r]|
    requires InBounds(m, moves[|moves| - 1].p) && moves[|moves| - 1].x < moves[|moves| - 1].p.count
    ensures var front, v := moves[..|moves| - 1], moves[|moves| - 1];
            After(m, moves)[r][a] == if Hits(v, r, a) then After(m, front)[v.p.src][v.p.from + v.x] else After(m, front)[r][a]
  {
  }

  lemma {:induction false} MoveInBounds<T>(j: Job, m: Mem<T>, v: Move)
    requires ValidJob(j) && Safe(j, m) && IsMove(j, v)
    ensures InBounds(m, v.p) && v.x < v.p.count && IsPut(j, v.p)
  {
    hide IsPut;
  }

  lemma {:induction false} OneWriter<T>(j: Job, m: Mem<T>, v: Move, w: Move)
    requires ValidJob(j) && Safe(j, m) && IsMove(j, v) && IsMove(j, w)
    requires v.p.dst == w.p.dst && v.p.to + v.x == w.p.to + w.x
    ensures v == w
  {
    hide IsPut;
    assert v.p != w.p ==> Apart(v.p.dst, v.p.to, v.p.count, w.p.dst, w.p.to, w.p.count);
  }

  /** A put that writes what another reads copies elements to where they are. */
  lemma {:induction false} WritesOwnSource<T>(j: Job, m: Mem<T>, v: Move, w: Move)
    requires ValidJob(j) && Safe(j, m) && IsPut(j, v.p) && v.x < v.p.count && IsPut(j, w.p) && w.x < w.p.count
    requires Hits(w, v.p.src, v.p.from + v.x)
    ensures Identity(w.p)
  {
    hide IsPut;
    assert Identity(w.p) || Apart(v.p.src, v.p.from, v.p.count, w.p.dst, w.p.to, w.p.count);
  }

  /** The element a delivery reads is still the original one. */
  lemma {:induction false} SourceIntact<T>(j: Job, m: Mem<T>, moves: seq<Move>, v: Move)
    requires ValidJob(j) && Safe(j, m) && AllMoves(j, moves) && IsMove(j, v)
    ensures InBounds(m, v.p) && v.x < v.p.count
    ensures After(m, moves)[v.p.src][v.p.from + v.x] == m[v.p.src][v.p.from + v.x]
    decreases |moves|, 1
  {
    hide IsMove, IsPut, AllMoves, After, Safe;
    MoveInBounds(j, m, v);
    var r, a := v.p.src, v.p.from + v.x;
    if k :| 0 <= k < |moves| && Hits(moves[k], r, a) {
      Touched(j, m, moves, r, a, k);
      MoveAt(j, moves, k);
      MoveInBounds(j, m, moves[k]);
      WritesOwnSource(j, m, v, moves[k]);
    } else {
      Untouched(m, moves, r, a);
    }
  }

  // ---- layouts

  function SendExtent(j: Job): int
  {
    if j.kind == AlltoAll || j.kind == Scatter then Slot(j.n, j.count) else j.count
  }

  function RecvExtent(j: Job): int
  {
    if j.kind == AllGather || j.kind == AlltoAll || j.kind == Gather then Slot(j.n, j.count) else j.count
  }

  /** The ranges of an in-place run: a rank's share of the send data is its share of the receive data. */
  predicate Aliased(j: Job, r: nat)
    requires ValidJob(j) && r < j.n
  {
    match j.kind
    case AllGather => j.send[r] == j.base[r] + j.off[r] + r * j.count
    case Gather => j.send[r] == j.base[r] + j.off[r] + r * j.count
    case Scatter => j.base[r] + j.off[r] == j.send[r] + r * j.count
    case Broadcast => j.send[r] == j.base[r] + j.off[r]
    case AlltoAll => false
    case SendRecv => false
  }

  /** The ranges the caller sets up: inside memory; at one window offset on all ranks, except that
      an in-place scatter receives at the rank's own slot; and out of place the two ranges of a
      rank are apart. */
  ghost predicate Layout<T>(j: Job, m: Mem<T>, inPlace: bool)
    requires ValidJob(j)
  {
    && |m| == j.n
    && (forall r: nat :: r < j.n ==>
          && 0 <= j.send[r] && j.send[r] + SendExtent(j) <= |m[r]|
          && 0 <= RecvAt(j, r) && RecvAt(j, r) + RecvExtent(j) <= |m[r]|)
    && (forall r: nat :: r < j.n ==> j.off[r] == j.off[0] + if inPlace && j.kind == Scatter then r * j.count else 0)
    && (inPlace ==> forall r: nat :: r < j.n ==> Aliased(j, r))
    && (!inPlace ==> forall r: nat :: r < j.n ==>
          j.send[r] + SendExtent(j) <= RecvAt(j, r) || RecvAt(j, r) + RecvExtent(j) <= j.send[r])
  }

  lemma {:induction false} SlotIs(r: int, count: nat)
    ensures Slot(r, count) == r * count && (count == 0 ==> Slot(r, count) == 0)
  {
  }

  /** What each rank finds out from its own addresses is how the caller runs the collective. */
  lemma {:induction false} DetectedInPlace<T>(j: Job, m: Mem<T>, inPlace: bool, r: nat)
    requires ValidJob(j) && Layout(j, m, inPlace) && r < j.n && j.count > 0
    ensures InPlace(j, r) == inPlace
  {
    hide Slot;
    SlotIs(r, j.count);
    SlotFacts(0, r, j.count);
    SlotFacts(r, j.n, j.count);
    assert inPlace ==> Aliased(j, r);
    assert !inPlace ==> j.send[r] + SendExtent(j) <= RecvAt(j, r) || RecvAt(j, r) + RecvExtent(j) <= j.send[r];
  }

  lemma {:induction false} Detected<T>(j: Job, m: Mem<T>, inPlace: bool)
    requires ValidJob(j) && Layout(j, m, inPlace)
    ensures j.count > 0 ==> forall r: nat :: r < j.n ==> InPlace(j, r) == inPlace
    ensures j.count == 0 ==> forall r: int :: Slot(r, j.count) == 0
    ensures forall r: nat :: r < j.n ==> j.off[r] == j.off[0] + if inPlace && j.kind == Scatter then Slot(r, j.count) else 0
  {
    hide Layout, InPlace, Slot;
    if j.count > 0 {
      forall r: nat | r < j.n
        ensures InPlace(j, r) == inPlace
      {
        DetectedInPlace(j, m, inPlace, r);
      }
    }
    forall r: int
      ensures Slot(r, j.count) == r * j.count && (j.count == 0 ==> Slot(r, j.count) == 0)
    {
      SlotIs(r, j.count);
    }
    OffsetsOf(j, m, inPlace);
  }

  lemma {:induction false} OffsetsOf<T>(j: Job, m: Mem<T>, inPlace: bool)
    requires ValidJob(j) && Layout(j, m, inPlace)
    ensures forall r: nat :: r < j.n ==> j.off[r] == j.off[0] + if inPlace && j.kind == Scatter then r * j.count else 0
  {
  }

  /** Where each put lands in its target's receive range, and where it reads. */
  lemma {:induction false} PutRange<T>(j: Job, m: Mem<T>, inPlace: bool, p: Put)
    requires ValidJob(j) && Layout(j, m, inPlace) && IsPut(j, p)
    ensures p.to == RecvAt(j, p.dst) + Landing(j, p) && 0 <= Landing(j, p) && Landing(j, p) + p.count <= RecvExtent(j)
    ensures p.from == j.send[p.src] + Reading(j, p) && 0 <= Reading(j, p) && Reading(j, p) + p.count <= SendExtent(j)
  {
    hide Slot, Chunk, ChunkOff, InPlace, Layout;
    Detected(j, m, inPlace);
    SlotFacts(p.src, j.n, j.count);
    SlotFacts(p.dst, j.n, j.count);
    SlotFacts(0, p.src, j.count);
    SlotFacts(0, p.dst, j.count);
    SlotFacts(p.dst, p.src, j.count);
    if j.kind == SendRecv {
      ChunksTile(j);
      ChunkOffMono(j, p.ctx, j.nctx);
    }
  }

  function Landing(j: Job, p: Put): int
    requires ValidJob(j)
  {
    match j.kind
    case AllGather => Slot(p.src, j.count)
    case AlltoAll => Slot(p.src, j.count)
    case Gather => Slot(p.src, j.count)
    case Scatter => 0
    case Broadcast => 0
    case SendRecv => ChunkOff(j, p.ctx)
  }

  function Reading(j: Job, p: Put): int
    requires ValidJob(j)
  {
    match j.kind
    case AllGather => 0
    case AlltoAll => Slot(p.dst, j.count)
    case Gather => 0
    case Scatter => Slot(p.dst, j.count)
    case Broadcast => 0
    case SendRecv => ChunkOff(j, p.ctx)
  }

  lemma {:induction false} WritesApart(j: Job, p: Put, x: Put)
    requires ValidJob(j) && IsPut(j, p) && IsPut(j, x) && p != x && p.dst == x.dst
    ensures Landing(j, p) + p.count <= Landing(j, x) || Landing(j, x) + x.count <= Landing(j, p)
  {
    SlotFacts(p.src, x.src, j.count);
    SlotFacts(x.src, p.src, j.count);
    hide Slot, Chunk;
    if j.kind == SendRecv {
      Neighbours(p.src, p.dst, j.n);
      Neighbours(x.src, x.dst, j.n);
      if p.ctx < x.ctx {
        ChunkOffMono(j, p.ctx, x.ctx);
      } else {
        ChunkOffMono(j, x.ctx, p.ctx);
      }
    }
    hide ChunkOff, InPlace;
  }

  /** In place, what a put to rank r overwrites is not read by another put. */
  lemma {:induction false} InPlaceReadsApart<T>(j: Job, m: Mem<T>, p: Put, x: Put)
    requires ValidJob(j) && Layout(j, m, true) && IsPut(j, p) && IsPut(j, x) && p.src == x.dst
    ensures Identity(x) || p.from + p.count <= x.to || x.to + x.count <= p.from
  {
    hide Slot, Chunk, ChunkOff, Layout;
    PutRange(j, m, true, p);
    PutRange(j, m, true, x);
    SlotFacts(p.src, x.src, j.count);
    SlotFacts(x.src, p.src, j.count);
    InPlaceAt(j, m, p.src);
  }

  lemma {:induction false} InPlaceAt<T>(j: Job, m: Mem<T>, r: nat)
    requires ValidJob(j) && Layout(j, m, true) && r < j.n
    ensures j.kind != AlltoAll && j.kind != SendRecv
    ensures j.count > 0 ==> InPlace(j, r)
  {
    hide InPlace, Slot;
    assert Aliased(j, r);
    if j.count > 0 {
      DetectedInPlace(j, m, true, r);
    }
  }

  /** Every layout the caller sets up, in place or not, makes the puts safe. */
  lemma {:induction false} LayoutIsSafe<T>(j: Job, m: Mem<T>, inPlace: bool)
    requires ValidJob(j) && Layout(j, m, inPlace)
    ensures Safe(j, m)
  {
    hide IsPut, Landing, Reading, InPlace, Slot;
    forall p | IsPut(j, p)
      ensures InBounds(m, p)
    {
      PutRange(j, m, inPlace, p);
      PutEnds(j, p);
    }
    forall p, x | IsPut(j, p) && IsPut(j, x) && p != x
      ensures Apart(p.dst, p.to, p.count, x.dst, x.to, x.count)
    {
      PutRange(j, m, inPlace, p);
      PutRange(j, m, inPlace, x);
      if p.dst == x.dst {
        WritesApart(j, p, x);
      }
    }
    forall p, x | IsPut(j, p) && IsPut(j, x)
      ensures Identity(x) || Apart(p.src, p.from, p.count, x.dst, x.to, x.count)
    {
      PutRange(j, m, inPlace, p);
      PutRange(j, m, inPlace, x);
      PutEnds(j, p);
      if p.src == x.dst && inPlace {
        InPlaceReadsApart(j, m, p, x);
      }
    }
  }

  lemma {:induction false} PutEnds(j: Job, p: Put)
    requires ValidJob(j) && IsPut(j, p)
    ensures p.src < j.n && p.dst < j.n
  {
  }

  // ---- the result of each collective

  /** Where the element at position i of rank r's receive range comes from, as the collective
      defines it: (rank, position in its send range). None: no element is due there. */
  datatype Origin = From(rank: nat, at: int) | None

  function Due(j: Job, r: nat, slot: nat, x: nat): Origin
    requires ValidJob(j) && r < j.n
  {
    match j.kind
    case AllGather => From(slot, x)
    case AlltoAll => From(slot, Slot(r, j.count) + x)
    case Gather => if r == j.root then From(slot, x) else None
    case Scatter => if slot == 0 then From(j.root, Slot(r, j.count) + x) else None
    case Broadcast => if slot == 0 then From(j.root, x) else None
    case SendRecv => if slot == 0 then From((r - 1 + j.n) % j.n, x) else None
  }

  ghost predicate Complete(j: Job, moves: seq<Move>)
    requires ValidJob(j)
  {
    && AllMoves(j, moves)
    && forall v :: IsMove(j, v) ==> v in moves
  }

  /** The chunk that carries element x of a point-to-point message. */
  lemma {:induction false} ChunkOfElement(j: Job, x: nat, k: nat) returns (c: nat)
    requires ValidJob(j) && x < ChunkOff(j, k)
    ensures c < k && ChunkOff(j, c) <= x < ChunkOff(j, c) + Chunk(j, c)
  {
    hide Chunk;
    if x >= ChunkOff(j, k - 1) {
      c := k - 1;
    } else {
      c := ChunkOfElement(j, x, k - 1);
    }
  }

  lemma {:induction false} ChunkCarrier(j: Job, r: nat, x: nat) returns (p: Put, i: nat)
    requires ValidJob(j) && j.kind == SendRecv && r < j.n && x < j.count
    ensures (r - 1 + j.n) % j.n < j.n
    ensures IsPut(j, p) && i < p.count && p.src == (r - 1 + j.n) % j.n && p.dst == r
    ensures p.to + i == j.base[r] + j.off[p.src] + x && p.from + i == j.send[p.src] + x
  {
    ChunksTile(j);
    var c := ChunkOfElement(j, x, j.nctx);
    hide ChunkOff, Chunk;
    Neighbours((r - 1 + j.n) % j.n, r, j.n);
    p := PutTo(j, (r - 1 + j.n) % j.n, r, c);
    i := x - ChunkOff(j, c);
  }

  /** The put that brings a due element, unless the element is in place already. */
  lemma {:induction false} Carrier<T>(j: Job, m: Mem<T>, inPlace: bool, r: nat, slot: nat, x: nat) returns (p: Put, i: nat)
    requires ValidJob(j) && Layout(j, m, inPlace) && r < j.n && slot < j.n && x < j.count && Due(j, r, slot, x).From?
    ensures Due(j, r, slot, x).rank < j.n
    ensures var o := Due(j, r, slot, x);
            || (IsPut(j, p) && i < p.count && p.src == o.rank && p.dst == r
                && p.to + i == RecvAt(j, r) + Slot(slot, j.count) + x && p.from + i == j.send[o.rank] + o.at)
            || (o.rank == r && j.send[r] + o.at == RecvAt(j, r) + Slot(slot, j.count) + x)
  {
    hide Slot, ChunkOff, Chunk, Layout, InPlace, IsPut, PutTo, Sends;
    var o := Due(j, r, slot, x);
    if j.kind == SendRecv {
      SlotFacts(0, r, j.count);
      p, i := ChunkCarrier(j, r, x);
      SameOffset(j, m, inPlace, p.src, r);
    } else if Sends(j, o.rank, r) {
      p, i := PutTo(j, o.rank, r, 0), x;
      WholePut(j, o.rank, r);
      PutRange(j, m, inPlace, p);
      SlotFacts(0, r, j.count);
    } else {
      p, i := PutTo(j, o.rank, r, 0), x;
      NotSent(j, o.rank, r, slot, x);
    }
  }

  lemma {:induction false} WholePut(j: Job, q: nat, r: nat)
    requires ValidJob(j) && j.kind != SendRecv && q < j.n && r < j.n && Sends(j, q, r)
    ensures var p := PutTo(j, q, r, 0); IsPut(j, p) && p.count == j.count && p.src == q && p.dst == r
  {
    hide InPlace, Slot, Sends, ChunkOff, Chunk;
    var p := PutTo(j, q, r, 0);
    assert p == PutTo(j, q, r, p.ctx);
  }

  lemma {:induction false} SameOffset<T>(j: Job, m: Mem<T>, inPlace: bool, q: nat, r: nat)
    requires ValidJob(j) && Layout(j, m, inPlace) && q < j.n && r < j.n && j.kind != Scatter
    ensures j.off[q] == j.off[r]
  {
  }

  /** A due element that no put brings is in place. */
  lemma {:induction false} NotSent(j: Job, q: nat, r: nat, slot: nat, x: nat)
    requires ValidJob(j) && j.kind != SendRecv && q < j.n && r < j.n && slot < j.n && !Sends(j, q, r)
    requires Due(j, r, slot, x).From? && Due(j, r, slot, x).rank == q
    ensures q == r && j.send[r] + Due(j, r, slot, x).at == RecvAt(j, r) + Slot(slot, j.count) + x
  {
    SlotFacts(0, r, j.count);
    hide Slot;
  }

  /** Everything that is put to rank r has been delivered; puts to other ranks may be pending. */
  ghost predicate ArrivedAt(j: Job, moves: seq<Move>, r: nat)
    requires ValidJob(j)
  {
    && AllMoves(j, moves)
    && forall p, x: nat :: IsPut(j, p) && p.dst == r && x < p.count ==> Move(p, x) in moves
  }

  /** A signal reaches rank r only after all the data of a put that raises it. */
  ghost predicate SignalsFollowData(j: Job, moves: seq<Move>, r: nat, signals: set<Signal>)
    requires ValidJob(j)
  {
    forall w :: w in signals ==>
      exists p :: IsPut(j, p) && p.dst == r && SignalOf(p) == w && forall x: nat :: x < p.count ==> Move(p, x) in moves
  }

  /** Once a rank's waits have returned, every due element of its receive range is the sender's
      original element, whatever else is still under way. */
  lemma {:induction false} WaitsReturned<T>(j: Job, m: Mem<T>, inPlace: bool, moves: seq<Move>, r: nat, waits: seq<Signal>,
                                            signals: set<Signal>, slot: nat, x: nat)
    requires ValidJob(j) && Layout(j, m, inPlace) && AllMoves(j, moves) && r < j.n
    requires SignalsFollowData(j, moves, r, signals)
    requires WaitsAre(j, r, waits) && forall w :: w in waits ==> w in signals
    requires slot < j.n && x < j.count && Due(j, r, slot, x).From?
    ensures var o, a := Due(j, r, slot, x), RecvAt(j, r) + Slot(slot, j.count) + x;
            && o.rank < j.n && 0 <= j.send[o.rank] + o.at < |m[o.rank]| && 0 <= a < |m[r]|
            && After(m, moves)[r][a] == m[o.rank][j.send[o.rank] + o.at]
  {
    hide Layout, Due, Slot, RecvAt, IsPut, IsWait, AllMoves, After;
    forall p, i: nat | IsPut(j, p) && p.dst == r && i < p.count
      ensures Move(p, i) in moves
    {
      PutAwaited(j, p);
      assert SignalOf(p) in waits;
      var y :| IsPut(j, y) && y.dst == r && SignalOf(y) == SignalOf(p) && forall z: nat :: z < y.count ==> Move(y, z) in moves;
      SignalsDiffer(j, p, y);
    }
    ArrivedResult(j, m, inPlace, moves, r, slot, x);
  }

  /** When all puts have been delivered, in whatever order and however interleaved, each due element
      of every receive range is the sender's original element. */
  lemma {:induction false} CollectiveResult<T>(j: Job, m: Mem<T>, inPlace: bool, moves: seq<Move>, r: nat, slot: nat, x: nat)
    requires ValidJob(j) && Layout(j, m, inPlace) && Complete(j, moves)
    requires r < j.n && slot < j.n && x < j.count && Due(j, r, slot, x).From?
    ensures Safe(j, m)
    ensures var o, a := Due(j, r, slot, x), RecvAt(j, r) + Slot(slot, j.count) + x;
            && o.rank < j.n && 0 <= j.send[o.rank] + o.at < |m[o.rank]| && 0 <= a < |m[r]|
            && After(m, moves)[r][a] == m[o.rank][j.send[o.rank] + o.at]
  {
    hide Layout, Safe, Due, Slot, RecvAt, IsPut, AllMoves, After;
    forall p, i: nat | IsPut(j, p) && p.dst == r && i < p.count
      ensures Move(p, i) in moves
    {
      assert IsMove(j, Move(p, i));
    }
    ArrivedResult(j, m, inPlace, moves, r, slot, x);
  }

  /** Element a of rank r's memory w is what element b of rank q's memory m was. */
  predicate Brought<T(==)>(m: Mem<T>, w: Mem<T>, q: nat, b: int, r: nat, a: int)
  {
    q < |m| && r < |w| && 0 <= b < |m[q]| && 0 <= a < |w[r]| && w[r][a] == m[q][b]
  }

  /** The same in plain addresses, collective by collective. */
  lemma {:induction false} ResultByKind<T>(j: Job, m: Mem<T>, inPlace: bool, moves: seq<Move>, r: nat, slot: nat, x: nat)
    requires ValidJob(j) && Layout(j, m, inPlace) && Complete(j, moves) && r < j.n && slot < j.n && x < j.count
    ensures var w, to, before := After(m, moves), j.base[r] + j.off[r], (r - 1 + j.n) % j.n;
      && before < j.n
      && (j.kind == AllGather ==> Brought(m, w, slot, j.send[slot] + x, r, to + slot * j.count + x))
      && (j.kind == AlltoAll ==> Brought(m, w, slot, j.send[slot] + r * j.count + x, r, to + slot * j.count + x))
      && (j.kind == Gather && r == j.root ==> Brought(m, w, slot, j.send[slot] + x, r, to + slot * j.count + x))
      && (j.kind == Scatter ==> Brought(m, w, j.root, j.send[j.root] + r * j.count + x, r, to + x))
      && (j.kind == Broadcast ==> Brought(m, w, j.root, j.send[j.root] + x, r, to + x))
      && (j.kind == SendRecv ==> Brought(m, w, before, j.send[before] + x, r, to + x))
  {
    hide Layout, Safe, Slot, Complete, After;
    var k := if j.kind == Scatter || j.kind == Broadcast || j.kind == SendRecv then 0 else slot;
    SlotIs(k, j.count);
    SlotIs(r, j.count);
    SlotIs(0, j.count);
    assert 0 * j.count == 0;
    if Due(j, r, k, x).From? {
      DueInRange(j, m, inPlace, r, k, x);
      CollectiveResult(j, m, inPlace, moves, r, k, x);
    }
  }

  /** A rank puts to itself unless its own data is where it belongs already. */
  lemma {:induction false} SelfPut(j: Job, q: nat)
    requires ValidJob(j) && q < j.n
    ensures j.kind == AllGather ==>
              ((exists p :: IsPut(j, p) && p.src == q && p.dst == q) <==> j.send[q] != j.base[q] + j.off[q] + q * j.count)
    ensures j.kind == Scatter && q == j.root ==>
              ((exists p :: IsPut(j, p) && p.src == q && p.dst == q) <==> j.send[q] + q * j.count != j.base[q] + j.off[q])
  {
    hide Slot;
    SlotIs(q, j.count);
    var p := PutTo(j, q, q, 0);
    assert j.kind != SendRecv ==> p.src == q && p.dst == q && p == PutTo(j, q, q, p.ctx);
  }

  lemma {:induction false} ArrivedResult<T>(j: Job, m: Mem<T>, inPlace: bool, moves: seq<Move>, r: nat, slot: nat, x: nat)
    requires ValidJob(j) && Layout(j, m, inPlace) && ArrivedAt(j, moves, r)
    requires r < j.n && slot < j.n && x < j.count && Due(j, r, slot, x).From?
    ensures Safe(j, m)
    ensures var o, a := Due(j, r, slot, x), RecvAt(j, r) + Slot(slot, j.count) + x;
            && o.rank < j.n && 0 <= j.send[o.rank] + o.at < |m[o.rank]| && 0 <= a < |m[r]|
            && After(m, moves)[r][a] == m[o.rank][j.send[o.rank] + o.at]
  {
    hide Layout, Safe, Due, RecvAt, Slot, IsPut, InPlace, PutTo, After, AllMoves;
    LayoutIsSafe(j, m, inPlace);
    DueInRange(j, m, inPlace, r, slot, x);
    var p, i := Carrier(j, m, inPlace, r, slot, x);
    var o, a := Due(j, r, slot, x), RecvAt(j, r) + Slot(slot, j.count) + x;
    var v := Move(p, i);
    var carried := IsMove(j, v) && Hits(v, r, a) && p.src == o.rank && p.from + i == j.send[o.rank] + o.at;
    assert carried || (o.rank == r && j.send[r] + o.at == a);
    assert carried ==> v in moves;
    if carried {
      var k :| 0 <= k < |moves| && moves[k] == v;
      Touched(j, m, moves, r, a, k);
    } else {
      StaysInPlace(j, m, inPlace, moves, r, slot, x);
    }
  }

  /** An element that is in place from the start is unchanged at the end. */
  lemma {:induction false} StaysInPlace<T>(j: Job, m: Mem<T>, inPlace: bool, moves: seq<Move>, r: nat, slot: nat, x: nat)
    requires ValidJob(j) && Layout(j, m, inPlace) && Safe(j, m) && AllMoves(j, moves)
    requires r < j.n && slot < j.n && x < j.count && Due(j, r, slot, x).From?
    requires 0 <= RecvAt(j, r) + Slot(slot, j.count) + x < |m[r]|
    requires Due(j, r, slot, x).rank == r && j.send[r] + Due(j, r, slot, x).at == RecvAt(j, r) + Slot(slot, j.count) + x
    ensures var a := RecvAt(j, r) + Slot(slot, j.count) + x; After(m, moves)[r][a] == m[r][a]
  {
    hide Safe, AllMoves, After, IsMove, IsPut, Due, Slot, RecvAt, InPlace;
    var a := RecvAt(j, r) + Slot(slot, j.count) + x;
    if k :| 0 <= k < |moves| && Hits(moves[k], r, a) {
      MoveAt(j, moves, k);
      SameCellIdentity(j, m, inPlace, moves[k], slot, x);
      Touched(j, m, moves, r, a, k);
    } else {
      Untouched(m, moves, r, a);
    }
  }

  lemma {:induction false} DueInRange<T>(j: Job, m: Mem<T>, inPlace: bool, r: nat, slot: nat, x: nat)
    requires ValidJob(j) && Layout(j, m, inPlace)
    requires r < j.n && slot < j.n && x < j.count && Due(j, r, slot, x).From?
    ensures |m| == j.n
    ensures var o, a := Due(j, r, slot, x), RecvAt(j, r) + Slot(slot, j.count) + x;
            && o.rank < j.n && 0 <= j.send[o.rank] + o.at < |m[o.rank]| && 0 <= a < |m[r]|
  {
    SlotFacts(slot, j.n, j.count);
    SlotFacts(0, slot, j.count);
    SlotFacts(r, j.n, j.count);
    SlotFacts(0, r, j.count);
    hide Slot, InPlace;
  }

  /** An element already in place is only ever written by a put of itself. */
  lemma {:induction false} SameCellIdentity<T>(j: Job, m: Mem<T>, inPlace: bool, v: Move, slot: nat, x: nat)
    requires ValidJob(j) && Layout(j, m, inPlace) && IsMove(j, v)
    requires v.p.dst < j.n && slot < j.n && x < j.count && Due(j, v.p.dst, slot, x).From?
    requires v.p.to + v.x == RecvAt(j, v.p.dst) + Slot(slot, j.count) + x
    ensures v.p.src == Due(j, v.p.dst, slot, x).rank && v.p.from + v.x == j.send[v.p.src] + Due(j, v.p.dst, slot, x).at
  {
    var p := v.p;
    Detected(j, m, inPlace);
    PutRange(j, m, inPlace, p);
    SlotFacts(p.src, slot, j.count);
    SlotFacts(slot, p.src, j.count);
    SlotFacts(0, slot, j.count);
    Neighbours(p.src, p.dst, j.n);
    hide Slot, InPlace, ChunkOff, Chunk, Layout;
  }

  /** Outside the receive range nothing changes; nor does a rank that no element is due to. */
  lemma {:induction false} RestUnchanged<T>(j: Job, m: Mem<T>, inPlace: bool, moves: seq<Move>, r: nat, a: nat)
    requires ValidJob(j) && Layout(j, m, inPlace) && AllMoves(j, moves)
    requires r < j.n && a < |m[r]|
    requires a < RecvAt(j, r) || a >= RecvAt(j, r) + RecvExtent(j) || (j.kind == Gather && r != j.root)
    ensures Safe(j, m) && After(m, moves)[r][a] == m[r][a]
  {
    LayoutIsSafe(j, m, inPlace);
    hide Layout, Slot, InPlace, ChunkOff, Chunk, Safe;
    forall i | 0 <= i < |moves|
      ensures !Hits(moves[i], r, a)
    {
      assert IsMove(j, moves[i]);
      PutRange(j, m, inPlace, moves[i].p);
    }
    Untouched(m, moves, r, a);
  }

  // ---- there are such deliveries and layouts

  ghost function MoveSet(j: Job): set<Move>
    requires ValidJob(j)
  {
    set q: nat, r: nat, c: nat, x: nat | q < j.n && r < j.n && c < j.nctx && x < PutTo(j, q, r, c).count && IsPut(j, PutTo(j, q, r, c)) ::
      Move(PutTo(j, q, r, c), x)
  }

  lemma {:induction false} MoveSetIs(j: Job, v: Move)
    requires ValidJob(j)
    ensures v in MoveSet(j) <==> IsMove(j, v)
  {
    hide Sends, Chunk, ChunkOff, Slot, InPlace;
    if IsMove(j, v) {
      assert v.p == PutTo(j, v.p.src, v.p.dst, v.p.ctx) && v.p.ctx < j.nctx;
    }
  }

  lemma {:induction false} Listing(s: set<Move>) returns (xs: seq<Move>)
    ensures forall v :: v in xs <==> v in s
    decreases |s|
  {
    if v :| v in s {
      var rest := Listing(s - {v});
      xs := rest + [v];
    } else {
      xs := [];
    }
  }

  /** All elements of all puts can be delivered. */
  lemma {:induction false} SomeDelivery(j: Job) returns (moves: seq<Move>)
    requires ValidJob(j)
    ensures Complete(j, moves)
  {
    hide IsMove, MoveSet;
    moves := Listing(MoveSet(j));
    forall v
      ensures v in moves <==> IsMove(j, v)
    {
      MoveSetIs(j, v);
    }
    assert forall i :: 0 <= i < |moves| ==> moves[i] in moves;
  }

  /** Every collective has layouts out of place, and in place those that know it. */
  lemma {:induction false} SomeLayout(kind: Kind, n: nat, root: nat, count: nat, inPlace: bool) returns (j: Job, m: Mem<int>)
    requires root < n && (inPlace ==> kind != AlltoAll && kind != SendRecv)
    ensures ValidJob(j) && j.kind == kind && j.n == n && j.root == root && j.count == count && Layout(j, m, inPlace)
  {
    hide Slot, InPlace;
    var all := n * count;
    ProductNonNegative(n, count);
    MulMono(1, n, count);
    forall r: nat | r < n
      ensures 0 <= r * count && r * count + count <= all
    {
      ProductNonNegative(r, count);
      MulMono(r + 1, n, count);
      assert (r + 1) * count == r * count + count;
    }
    SlotIs(n, count);
    assert 0 * count == 0;
    var gathers := kind == AllGather || kind == Gather;
    var send: seq<int> := seq(n, r => if inPlace && gathers then r * count else 0);
    var base: seq<int> := seq(n, r => if inPlace then 0 else all);
    var off: seq<int> := seq(n, r => if inPlace && kind == Scatter then r * count else 0);
    j := Job(kind, n, root, count, 1, 1, send, base, off);
    m := seq(n, _ => seq(2 * all, _ => 0));
  }
}
