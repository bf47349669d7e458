/** The receive windows under the all-to-all kernels of src/alltoall.cu: what the puts of Gin and the
    load/store copies of the hybrid kernel leave in memory, launch after launch. Stores go element
    by element, interleaved with everything else; a delivery writes its whole chunk. */
module GinMemory {
  import opened Arith
  import opened Lists
  import opened Gin

  /** Element `at` of src's send window, as it was in a launch. */
  datatype Elem = Junk | Elem(src: nat, at: int, launch: nat)

  /** An element of a receive window, and how often it has been written. */
  datatype Cell = Cell(elem: Elem, writes: nat)

  /** count: the elements of one chunk. */
  datatype Job = Job(c: Config, count: nat)

  /** The position of element e of chunk q in a window: `q * count + e`. */
  function Place(j: Job, q: nat, e: int): int
  {
    q * j.count + e
  }

  lemma {:induction false} PlaceIs(j: Job, q: nat, e: int)
    ensures Place(j, q, e) == q * j.count + e
  {
  }

  lemma {:induction false} PlaceInRange(j: Job, q: nat, e: nat)
    requires q < j.c.n && e < j.count
    ensures 0 <= Place(j, q, e) < Place(j, j.c.n, 0) && Place(j, q, e) == Place(j, q, 0) + e
    ensures 0 <= Place(j, q, 0) && Place(j, q, 0) + j.count <= Place(j, j.c.n, 0)
  {
    ProductNonNegative(q, j.count);
    MulMono(q + 1, j.c.n, j.count);
    assert (q + 1) * j.count == q * j.count + j.count;
  }

  lemma {:induction false} PlaceUnique(j: Job, q: nat, e: nat, q': nat, e': nat)
    requires e < j.count && e' < j.count && Place(j, q, e) == Place(j, q', e')
    ensures q == q' && e == e'
  {
    QuotientUnique(q, e, q', e', j.count);
  }

  /** Position i belongs to chunk q. */
  predicate InChunk(j: Job, q: nat, i: int)
  {
    Place(j, q, 0) <= i < Place(j, q, 0) + j.count
  }

  lemma {:induction false} InOneChunk(j: Job, q: nat, q': nat, e: nat)
    requires e < j.count
    ensures InChunk(j, q', Place(j, q, e)) <==> q' == q
  {
    if InChunk(j, q', Place(j, q, e)) {
      PlaceUnique(j, q, e, q', Place(j, q, e) - Place(j, q', 0));
    }
  }

  // ---- the store loop of one thread

  /** dst's window receives, at `to`, the own send element at `from`; elt is its number in the chunk. */
  datatype Store = Store(dst: nat, elt: nat, from: int, to: int)

  predicate IsStore(j: Job, q: nat, x: Store)
  {
    && x.dst < j.c.n && !Remote(j.c, q, x.dst) && x.elt < j.count
    && x.from == x.dst * j.count + x.elt && x.to == q * j.count + x.elt
  }

  /** `for (offset = tid; offset < count; offset += nthreads)` over all load/store peers: the thread
      stores exactly the elements of its residue class, to every rank of the team, each once. */
  method StoreLoop(j: Job, q: nat, tid: nat) returns (stores: seq<Store>)
    requires ValidConfig(j.c) && j.c.team > 0 && q < j.c.n && tid < j.c.ctas * j.c.dim
    ensures NoRepeats(stores)
    ensures forall x :: x in stores <==> IsStore(j, q, x) && x.elt % (j.c.ctas * j.c.dim) == tid
  {
    var nthreads := j.c.ctas * j.c.dim;
    TeamEnd(q, j.c.n, j.c.team);
    var startLsa := q - q % j.c.team;
    stores := [];
    FirstOfStride(tid, nthreads);
    var offset := tid;
    while offset < j.count
      invariant offset % nthreads == tid
      invariant NoRepeats(stores)
      invariant forall x :: x in stores <==> IsStore(j, q, x) && x.elt % nthreads == tid && x.elt < offset
    {
      for lp := 0 to j.c.team
        invariant NoRepeats(stores)
        invariant forall x :: x in stores <==>
                    IsStore(j, q, x) && x.elt % nthreads == tid && (x.elt < offset || (x.elt == offset && x.dst < startLsa + lp))
      {
        var wr := startLsa + lp;
        ghost var before := stores;
        var x := Store(wr, offset, wr * j.count + offset, q * j.count + offset);
        NewLast(before, x);
        stores := stores + [x];
        assert forall y :: y in stores <==> y in before || y == x;
      }
      NextOfStride(offset, nthreads);
      offset := offset + nthreads;
    }
  }

  /** The elements that the threads of block b of rank q store, by target and element number. */
  function StoreTargets(j: Job, q: nat, b: nat): set<(nat, nat)>
    requires ValidConfig(j.c)
  {
    set r: nat, e: nat | r < j.c.n && e < j.count && !Remote(j.c, q, r) && ReceivingCta(j.c, e) == b :: (r, e)
  }

  /** Over the store loops of all threads of all blocks of a rank, each element for each rank of the
      team is stored exactly once, at its place, and nothing else is; a block's threads store its
      targets. */
  lemma {:induction false} StoredOnce(j: Job, q: nat, logs: seq<seq<Store>>, x: Store, b: nat)
    requires ValidConfig(j.c) && q < j.c.n && b < j.c.ctas && |logs| == j.c.ctas * j.c.dim
    requires forall tid :: 0 <= tid < |logs| ==>
               NoRepeats(logs[tid]) && forall y :: y in logs[tid] <==> IsStore(j, q, y) && y.elt % (j.c.ctas * j.c.dim) == tid
    ensures Occurrences(logs, x) == if IsStore(j, q, x) then 1 else 0
    ensures IsStore(j, q, x) ==>
              ((x.dst, x.elt) in StoreTargets(j, q, b) <==> exists tid :: 0 <= tid < |logs| && x in logs[tid] && tid / j.c.dim == b)
  {
    hide Remote;
    var owner := x.elt % (j.c.ctas * j.c.dim);
    OccursOnce(logs, x, IsStore(j, q, x), owner);
    if IsStore(j, q, x) && (x.dst, x.elt) in StoreTargets(j, q, b) {
      assert x in logs[owner] && owner / j.c.dim == b;
    }
  }

  /** What a rank of the team stores into a window lies apart from every chunk that is put there, and
      from what every other rank stores there. */
  lemma {:induction false} StoresApart(j: Job, x: Store, q: nat, p: nat, y: Store)
    requires ValidConfig(j.c) && IsStore(j, q, x) && p < j.c.n && p != q
    ensures Remote(j.c, p, x.dst) ==> !InChunk(j, p, x.to)
    ensures IsStore(j, p, y) ==> x.to != y.to
  {
    hide Place, Remote;
    PlaceIs(j, q, x.elt);
    PlaceIs(j, p, y.elt);
    InOneChunk(j, q, p, x.elt);
    if IsStore(j, p, y) && x.to == y.to {
      PlaceUnique(j, q, x.elt, p, y.elt);
    }
  }

  // ---- memory beside the protocol

  /** The protocol state, the receive windows, and what each block has still to store. */
  datatype System = System(ctl: State, window: seq<seq<Cell>>, stores: seq<seq<set<(nat, nat)>>>)

  datatype Move = Control(a: Action) | StoreOne(q: nat, b: nat, r: nat, e: nat)

  predicate Formed(j: Job, x: System)
  {
    && Shaped(j.c, x.ctl) && |x.window| == |x.stores| == j.c.n
    && forall r :: 0 <= r < j.c.n ==> |x.window[r]| == Place(j, j.c.n, 0) && |x.stores[r]| == j.c.ctas
  }

  /** A block stores while it is active, and ends its sending when nothing is left to put or store. */
  predicate CanMove(j: Job, x: System, v: Move)
    requires ValidConfig(j.c) && Formed(j, x)
  {
    match v
    case Control(a) => Enabled(j.c, x.ctl, a) && (a.FinishSend? ==> x.stores[a.q][a.b] == {})
    case StoreOne(q, b, r, e) =>
      && q < j.c.n && b < j.c.ctas && r < j.c.n && e < j.count
      && x.ctl.ranks[q].ctas[b].pc == Active && (r, e) in x.stores[q][b]
  }

  /** A window after the chunk src -> dst of a launch has been delivered. */
  function Fill(j: Job, row: seq<Cell>, src: nat, dst: nat, launch: nat): (r: seq<Cell>)
    ensures |r| == |row|
    ensures forall i :: 0 <= i < |row| ==>
              r[i] == if InChunk(j, src, i) then Cell(Elem(src, Place(j, dst, i - Place(j, src, 0)), launch), row[i].writes + 1) else row[i]
  {
    seq(|row|, i requires 0 <= i < |row| =>
      if InChunk(j, src, i) then Cell(Elem(src, Place(j, dst, i - Place(j, src, 0)), launch), row[i].writes + 1) else row[i])
  }

  function Make(j: Job, x: System, v: Move): System
    requires ValidConfig(j.c) && Formed(j, x) && CanMove(j, x, v)
  {
    match v
    case Control(a) =>
      System(Step(j.c, x.ctl, a),
             if a.Deliver? then x.window[a.m.dst := Fill(j, x.window[a.m.dst], a.m.src, a.m.dst, a.m.launch)] else x.window,
             if a.PassStart? then x.stores[a.q := x.stores[a.q][a.b := StoreTargets(j, a.q, a.b)]] else x.stores)
    case StoreOne(q, b, r, e) =>
      PlaceInRange(j, q, e);
      var cell := Cell(Elem(q, Place(j, r, e), x.ctl.ranks[q].launch), x.window[r][Place(j, q, e)].writes + 1);
      x.(window := x.window[r := x.window[r][Place(j, q, e) := cell]],
         stores := x.stores[q := x.stores[q][b := x.stores[q][b] - {(r, e)}]])
  }

  function Blank(k: nat): (row: seq<Cell>)
    ensures |row| == k && forall i :: 0 <= i < k ==> row[i] == Cell(Junk, 0)
  {
    seq(k, _ => Cell(Junk, 0))
  }

  function NoStores(k: nat): (row: seq<set<(nat, nat)>>)
    ensures |row| == k && forall i :: 0 <= i < k ==> row[i] == {}
  {
    seq(k, _ => {})
  }

  function Start(j: Job): System
  {
    ProductNonNegative(j.c.n, j.count);
    System(Initial(j.c), seq(j.c.n, _ => Blank(Place(j, j.c.n, 0))), seq(j.c.n, _ => NoStores(j.c.ctas)))
  }

  // ---- the invariant

  predicate StoresInv(j: Job, x: System, q: nat, b: nat)
    requires ValidConfig(j.c) && Formed(j, x) && q < j.c.n && b < j.c.ctas
  {
    && x.stores[q][b] <= StoreTargets(j, q, b)
    && (x.ctl.ranks[q].ctas[b].pc != Active ==> x.stores[q][b] == {})
  }

  /** The launches of which element e of chunk q -> r has been written. */
  function Written(j: Job, x: System, q: nat, r: nat, e: nat): nat
    requires ValidConfig(j.c) && Formed(j, x) && q < j.c.n && r < j.c.n && ReceivingCta(j.c, e) < j.c.ctas
  {
    var b := ReceivingCta(j.c, e);
    if Remote(j.c, q, r) then x.ctl.recv[r][q]
    else Stored(x.ctl, q, b) + if Storing(x.ctl, q, b) && (r, e) !in x.stores[q][b] then 1 else 0
  }

  /** An element holds the source element of the last launch that wrote it, and every launch has
      written it once. */
  predicate CellInv(j: Job, x: System, q: nat, r: nat, e: nat)
    requires ValidConfig(j.c) && Formed(j, x) && q < j.c.n && r < j.c.n && e < j.count
  {
    ReceivingInRange(j.c, e);
    PlaceInRange(j, q, e);
    var k := Written(j, x, q, r, e);
    x.window[r][Place(j, q, e)] == Cell(if k == 0 then Junk else Elem(q, Place(j, r, e), k - 1), k)
  }

  ghost predicate MemInv(j: Job, x: System)
  {
    && Inv(j.c, x.ctl) && Formed(j, x)
    && (forall q: nat, b: nat :: q < j.c.n && b < j.c.ctas ==> StoresInv(j, x, q, b))
    && (forall q: nat, r: nat, e: nat :: q < j.c.n && r < j.c.n && e < j.count ==> CellInv(j, x, q, r, e))
  }

  // The clauses of the invariant, one at a time.

  lemma {:induction false} MemOf(j: Job, x: System)
    requires MemInv(j, x)
    ensures Inv(j.c, x.ctl) && ValidConfig(j.c) && Formed(j, x)
  {
  }

  lemma {:induction false} StoresOf(j: Job, x: System, q: nat, b: nat)
    requires MemInv(j, x) && q < j.c.n && b < j.c.ctas
    ensures ValidConfig(j.c) && Formed(j, x) && StoresInv(j, x, q, b)
  {
  }

  lemma {:induction false} CellOf(j: Job, x: System, q: nat, r: nat, e: nat)
    requires MemInv(j, x) && q < j.c.n && r < j.c.n && e < j.count
    ensures ValidConfig(j.c) && Formed(j, x) && CellInv(j, x, q, r, e)
  {
  }

  /** An element for a rank of the team is stored by the block that its number selects. */
  lemma {:induction false} IsStoreTarget(j: Job, q: nat, r: nat, e: nat, b: nat)
    requires ValidConfig(j.c) && r < j.c.n && e < j.count
    ensures (r, e) in StoreTargets(j, q, b) <==> !Remote(j.c, q, r) && ReceivingCta(j.c, e) == b
  {
    hide Remote, ReceivingCta;
  }

  lemma {:induction false} MakeFormed(j: Job, x: System, v: Move)
    requires ValidConfig(j.c) && Formed(j, x) && CanMove(j, x, v)
    ensures Formed(j, Make(j, x, v))
  {
    hide Place, Step, Enabled, Shaped, StoreTargets;
    var x' := Make(j, x, v);
    match v
    case Control(a) =>
      StepShaped(j.c, x.ctl, a);
      DeliverEnds(j.c, x.ctl, a);
      assert |x'.window| == |x'.stores| == j.c.n;
      forall r | 0 <= r < j.c.n
        ensures |x'.window[r]| == Place(j, j.c.n, 0) && |x'.stores[r]| == j.c.ctas
      {
      }
    case StoreOne(q, b, r, e) =>
      PlaceInRange(j, q, e);
      assert |x'.window| == |x'.stores| == j.c.n;
      forall p | 0 <= p < j.c.n
        ensures |x'.window[p]| == Place(j, j.c.n, 0) && |x'.stores[p]| == j.c.ctas
      {
      }
  }

  lemma {:induction false} DeliverEnds(c: Config, s: State, a: Action)
    requires ValidConfig(c) && Shaped(c, s) && Enabled(c, s, a)
    ensures a.Deliver? ==> a.m.src < c.n && a.m.dst < c.n
    ensures a.PassStart? ==> a.q < c.n && a.b < c.ctas
  {
  }

  lemma {:induction false} StoresStep(j: Job, x: System, v: Move, q: nat, b: nat)
    requires MemInv(j, x) && CanMove(j, x, v) && q < j.c.n && b < j.c.ctas
    ensures Formed(j, Make(j, x, v)) && StoresInv(j, Make(j, x, v), q, b)
  {
    hide MemInv, Inv, StoreTargets, Place, AllReached, Targets, Awaited, Fill, ReceivingCta;
    StoresOf(j, x, q, b);
    MakeFormed(j, x, v);
  }

  /** How one step of the protocol changes what a block has stored. */
  lemma {:induction false} StoredStep(c: Config, s: State, a: Action, q: nat, b: nat)
    requires ValidConfig(c) && Shaped(c, s) && Enabled(c, s, a) && q < c.n && b < c.ctas
    ensures Shaped(c, Step(c, s, a))
    ensures a == PassStart(q, b) ==> !Storing(s, q, b) && Storing(Step(c, s, a), q, b) && Stored(Step(c, s, a), q, b) == Stored(s, q, b)
    ensures a == FinishSend(q, b) ==>
              Storing(s, q, b) && !Storing(Step(c, s, a), q, b) && Stored(Step(c, s, a), q, b) == Stored(s, q, b) + 1
    ensures a != PassStart(q, b) && a != FinishSend(q, b) ==>
              Storing(Step(c, s, a), q, b) == Storing(s, q, b) && Stored(Step(c, s, a), q, b) == Stored(s, q, b)
  {
    hide Step, Enabled, Stage;
    StepShaped(c, s, a);
    OtherSteps(c, s, a, q, b);
    if a == PassStart(q, b) || a == FinishSend(q, b) {
      OwnSteps(c, s, a, q, b);
    }
  }

  lemma {:induction false} OwnSteps(c: Config, s: State, a: Action, q: nat, b: nat)
    requires ValidConfig(c) && Shaped(c, s) && Enabled(c, s, a) && q < c.n && b < c.ctas
    requires a == PassStart(q, b) || a == FinishSend(q, b)
    ensures Shaped(c, Step(c, s, a))
    ensures Storing(s, q, b) == a.FinishSend? && Storing(Step(c, s, a), q, b) == a.PassStart?
    ensures Stored(Step(c, s, a), q, b) == Stored(s, q, b) + if a.FinishSend? then 1 else 0
  {
    hide AllReached, ReceivingCta, Targets, Awaited;
    StepShaped(c, s, a);
  }

  lemma {:induction false} OtherSteps(c: Config, s: State, a: Action, q: nat, b: nat)
    requires ValidConfig(c) && Shaped(c, s) && Enabled(c, s, a) && q < c.n && b < c.ctas
    ensures Shaped(c, Step(c, s, a))
    ensures a != PassStart(q, b) && a != FinishSend(q, b) ==>
              Storing(Step(c, s, a), q, b) == Storing(s, q, b) && Stored(Step(c, s, a), q, b) == Stored(s, q, b)
  {
    hide AllReached, ReceivingCta, Targets, Awaited;
    StepShaped(c, s, a);
  }

  /** Only a delivery changes what a rank has received. */
  lemma {:induction false} RecvStep(c: Config, s: State, a: Action, q: nat, r: nat)
    requires Inv(c, s) && Enabled(c, s, a) && q < c.n && r < c.n
    ensures Shaped(c, Step(c, s, a))
    ensures Step(c, s, a).recv[r][q] == s.recv[r][q] + if a.Deliver? && a.m.dst == r && a.m.src == q then 1 else 0
    ensures a.Deliver? ==> a.m.src < c.n && a.m.dst < c.n && Remote(c, a.m.src, a.m.dst) && a.m.launch == s.recv[a.m.dst][a.m.src]
  {
    hide Inv, AllReached, ReceivingCta, Targets, Awaited, Remote;
    Sound(c, s);
    StepShaped(c, s, a);
    if a.Deliver? {
      MsgOf(c, s, a.m);
    }
  }

  lemma {:induction false} ControlCell(j: Job, x: System, a: Action, q: nat, r: nat, e: nat)
    requires MemInv(j, x) && CanMove(j, x, Control(a)) && q < j.c.n && r < j.c.n && e < j.count
    ensures Formed(j, Make(j, x, Control(a))) && CellInv(j, Make(j, x, Control(a)), q, r, e)
  {
    hide MemInv, Inv, Step, Enabled, Stored, Storing, ReceivingCta, Place, Remote, StoreTargets, InChunk, Fill;
    MemOf(j, x);
    MakeFormed(j, x, Control(a));
    ReceivingInRange(j.c, e);
    PlaceInRange(j, q, e);
    var b := ReceivingCta(j.c, e);
    CellOf(j, x, q, r, e);
    StoresOf(j, x, q, b);
    RecvStep(j.c, x.ctl, a, q, r);
    StoredStep(j.c, x.ctl, a, q, b);
    DeliverEnds(j.c, x.ctl, a);
    if a.Deliver? {
      InOneChunk(j, q, a.m.src, e);
    }
    IsStoreTarget(j, q, r, e, b);
  }

  lemma {:induction false} StoreCell(j: Job, x: System, v: Move, q: nat, r: nat, e: nat)
    requires MemInv(j, x) && v.StoreOne? && CanMove(j, x, v) && q < j.c.n && r < j.c.n && e < j.count
    ensures Formed(j, Make(j, x, v)) && CellInv(j, Make(j, x, v), q, r, e)
  {
    hide MemInv, Inv, ReceivingCta, Place, Remote, StoreTargets;
    MemOf(j, x);
    MakeFormed(j, x, v);
    ReceivingInRange(j.c, e);
    ReceivingInRange(j.c, v.e);
    PlaceInRange(j, q, e);
    PlaceInRange(j, v.q, v.e);
    CellOf(j, x, q, r, e);
    StoresOf(j, x, v.q, v.b);
    IsStoreTarget(j, v.q, v.r, v.e, v.b);
    if Place(j, q, e) == Place(j, v.q, v.e) {
      PlaceUnique(j, q, e, v.q, v.e);
    }
  }

  lemma {:induction false} MakeInv(j: Job, x: System, v: Move)
    requires MemInv(j, x) && CanMove(j, x, v)
    ensures MemInv(j, Make(j, x, v))
  {
    hide Make, CanMove, CellInv, StoresInv;
    var x' := Make(j, x, v);
    MakeFormed(j, x, v);
    assert Inv(j.c, x'.ctl) by {
      ControlInv(j, x, v);
    }
    hide Inv, Formed;
    forall q: nat, b: nat | q < j.c.n && b < j.c.ctas
      ensures StoresInv(j, x', q, b)
    {
      StoresStep(j, x, v, q, b);
    }
    forall q: nat, r: nat, e: nat | q < j.c.n && r < j.c.n && e < j.count
      ensures CellInv(j, x', q, r, e)
    {
      if v.Control? {
        ControlCell(j, x, v.a, q, r, e);
      } else {
        StoreCell(j, x, v, q, r, e);
      }
    }
  }

  lemma {:induction false} ControlInv(j: Job, x: System, v: Move)
    requires MemInv(j, x) && CanMove(j, x, v)
    ensures Inv(j.c, Make(j, x, v).ctl)
  {
    hide Inv, Step, Enabled, Place;
    if v.Control? {
      StepInv(j.c, x.ctl, v.a);
    }
  }

  lemma {:induction false} StartInv(j: Job)
    requires ValidConfig(j.c)
    ensures MemInv(j, Start(j))
  {
    hide Inv, ReceivingCta, Remote, StoreTargets;
    InitialInv(j.c);
    ProductNonNegative(j.c.n, j.count);
    forall q: nat, r: nat, e: nat | q < j.c.n && r < j.c.n && e < j.count
      ensures CellInv(j, Start(j), q, r, e)
    {
      ReceivingInRange(j.c, e);
      PlaceInRange(j, q, e);
    }
  }

  // ---- all runs

  ghost predicate IsMemoryRun(j: Job, run: seq<System>, moves: seq<Move>)
  {
    && ValidConfig(j.c) && |run| == |moves| + 1 && run[0] == Start(j)
    && forall i :: 0 <= i < |moves| ==>
         Formed(j, run[i]) && CanMove(j, run[i], moves[i]) && run[i + 1] == Make(j, run[i], moves[i])
  }

  lemma {:induction false} MemoryRunInv(j: Job, run: seq<System>, moves: seq<Move>, i: nat)
    requires IsMemoryRun(j, run, moves) && i < |run|
    ensures MemInv(j, run[i])
  {
    hide MemInv, Make, CanMove, Start;
    if i == 0 {
      StartInv(j);
    } else {
      MemoryRunInv(j, run, moves, i - 1);
      MakeInv(j, run[i - 1], moves[i - 1]);
    }
  }

  /** When all blocks of a rank are done with a launch, its whole window holds that launch's data:
      element e of chunk q is the element that q's send window had for it, for every q, remote or of
      the team; and each launch has written it exactly once, by a put or by a store. */
  lemma {:induction false} LaunchComplete(j: Job, run: seq<System>, moves: seq<Move>, i: nat, r: nat, q: nat, e: nat)
    requires IsMemoryRun(j, run, moves) && i < |run| && r < j.c.n && q < j.c.n && e < j.count
    requires Formed(j, run[i]) && forall b :: 0 <= b < j.c.ctas ==> run[i].ctl.ranks[r].ctas[b].pc == Done
    ensures 0 <= q * j.count + e < |run[i].window[r]|
    ensures var k := run[i].ctl.ranks[r].launch;
            run[i].window[r][q * j.count + e] == Cell(Elem(q, r * j.count + e, k), k + 1)
  {
    hide IsMemoryRun, MemInv, Inv, ReceivingCta, Place, Remote, StoreTargets, Stored, Storing;
    MemoryRunInv(j, run, moves, i);
    var x := run[i];
    MemOf(j, x);
    ReceivingInRange(j.c, e);
    PlaceInRange(j, q, e);
    PlaceIs(j, q, e);
    PlaceIs(j, r, e);
    var b := ReceivingCta(j.c, e);
    CellOf(j, x, q, r, e);
    StoresOf(j, x, q, b);
    LaunchSettled(j.c, x.ctl, r, q, b);
    TeamsHaveBarrier(j.c, q, r);
  }

  lemma {:induction false} TeamsHaveBarrier(c: Config, q: nat, r: nat)
    requires ValidConfig(c)
    ensures Remote(c, q, r) || c.endBarrier
  {
  }

  /** The whole window, index by index: chunk after chunk of count elements, the one of rank i/count at
      index i, which is that rank's chunk for r. */
  lemma {:induction false} WindowAfterLaunch(j: Job, run: seq<System>, moves: seq<Move>, step: nat, r: nat, i: nat)
    requires IsMemoryRun(j, run, moves) && step < |run| && r < j.c.n
    requires Formed(j, run[step]) && forall b :: 0 <= b < j.c.ctas ==> run[step].ctl.ranks[r].ctas[b].pc == Done
    ensures |run[step].window[r]| == j.c.n * j.count
    ensures i < j.c.n * j.count ==>
              && j.count > 0 && 0 <= i / j.count < j.c.n
              && var k := run[step].ctl.ranks[r].launch;
                 run[step].window[r][i] == Cell(Elem(i / j.count, r * j.count + i % j.count, k), k + 1)
  {
    hide IsMemoryRun;
    PlaceIs(j, j.c.n, 0);
    if i < j.c.n * j.count {
      IndexParts(i, j.c.n, j.count);
      LaunchComplete(j, run, moves, step, r, i / j.count, i % j.count);
    }
  }

  lemma {:induction false} IndexParts(i: nat, n: nat, count: nat)
    requires i < n * count
    ensures count > 0 && 0 <= i / count < n && i == (i / count) * count + i % count
  {
    assert count == 0 ==> n * count == 0;
    QuotientBounds(i, count);
    if i / count >= n {
      MulMono(n, i / count, count);
    }
  }

  /** Nothing a block has yet to store or put keeps the system from moving on. */
  lemma {:induction false} MemoryNeverStuck(j: Job, run: seq<System>, moves: seq<Move>, i: nat)
    requires IsMemoryRun(j, run, moves) && i < |run|
    ensures Formed(j, run[i]) && exists v :: CanMove(j, run[i], v)
  {
    MemoryRunInv(j, run, moves, i);
    var x := run[i];
    hide IsMemoryRun, Place;
    SomethingMoves(j.c, x.ctl);
    var a :| Enabled(j.c, x.ctl, a);
    if a.FinishSend? && x.stores[a.q][a.b] != {} {
      var t :| t in x.stores[a.q][a.b];
      assert StoresInv(j, x, a.q, a.b);
      assert t in StoreTargets(j, a.q, a.b);
      hide Inv, MemInv, Remote, ReceivingCta;
      assert CanMove(j, x, StoreOne(a.q, a.b, t.0, t.1));
    } else {
      assert CanMove(j, x, Control(a));
    }
  }

  // ---- runs exist

  lemma {:induction false} MemoryRunStarts(j: Job)
    requires ValidConfig(j.c)
    ensures IsMemoryRun(j, [Start(j)], [])
  {
  }

  /** Every run can go on, by any move that is possible; MemoryNeverStuck says that there is one. */
  lemma {:induction false} MemoryRunGoesOn(j: Job, run: seq<System>, moves: seq<Move>, v: Move)
    requires IsMemoryRun(j, run, moves) && Formed(j, run[|moves|]) && CanMove(j, run[|moves|], v)
    ensures IsMemoryRun(j, run + [Make(j, run[|moves|], v)], moves + [v])
  {
    hide Make, CanMove, Formed, Start;
  }
}
