/** The network all-to-all kernels of src/alltoall.cu (pure GIN, and hybrid with load/store teams)
    as a distributed protocol over any number of successive launches. Puts travel and are
    delivered in any order; a delivery writes the chunk and then raises the signal. */
module Gin {
  import opened Arith
  import opened Lists
  import opened Sums

  /** n ranks of `ctas` blocks of `dim` threads. team is 0 for the pure kernel; otherwise ranks form
      contiguous teams of that size that exchange by load/store. */
  datatype Config = Config(n: nat, ctas: nat, dim: nat, team: nat, endBarrier: bool)

  predicate ValidConfig(c: Config)
  {
    && c.n > 0 && c.ctas > 0 && c.dim > 0 && c.ctas * c.dim > 0
    && (c.team > 0 ==> c.n % c.team == 0 && c.endBarrier)
  }

  /** `r < startLsa || r >= startLsa + lsaSize`, for the rank q itself and a peer r. */
  predicate Remote(c: Config, q: nat, r: nat)
  {
    c.team == 0 || r < q - q % c.team || r >= q - q % c.team + c.team
  }

  /** `(rank % nthreads) / blockDim.x`. */
  function ReceivingCta(c: Config, r: nat): nat
    requires ValidConfig(c)
  {
    var t := r % (c.ctas * c.dim);
    assert t / c.dim >= 0 by { QuotientNonNegative(t, c.dim); }
    t / c.dim
  }

  /** `nRanks`, or `nRanks - lsaSize`. */
  function Awaited(c: Config): int
  {
    if c.team == 0 then c.n else c.n - c.team
  }

  datatype Pc = Starting | Entered | Active | Waiting | Ending | Done

  function Stage(pc: Pc): nat
  {
    match pc
    case Starting => 0
    case Entered => 1
    case Active => 2
    case Waiting => 3
    case Ending => 4
    case Done => 5
  }

  /** One block of one rank: where it is, the signal value it read, and the peers it has still to
      put to. */
  datatype Cta = Cta(pc: Pc, base: nat, todo: set<nat>)

  datatype Rank = Rank(launch: nat, ctas: seq<Cta>)

  datatype Msg = Msg(src: nat, dst: nat, idx: nat, launch: nat)

  /** recv[r][q] counts the launches whose chunk q -> r has been written; the last one is there. */
  datatype State = State(ranks: seq<Rank>, inflight: set<Msg>, signals: seq<seq<nat>>, recv: seq<seq<nat>>)

  datatype Action =
    | ReadBase(q: nat, b: nat)
    | PassStart(q: nat, b: nat)
    | Put(q: nat, b: nat, r: nat)
    | FinishSend(q: nat, b: nat)
    | WaitSignal(q: nat, b: nat)
    | PassEnd(q: nat, b: nat)
    | NextLaunch(q: nat)
    | Deliver(m: Msg)

  predicate Shaped(c: Config, s: State)
  {
    && |s.ranks| == |s.signals| == |s.recv| == c.n
    && forall q :: 0 <= q < c.n ==> |s.ranks[q].ctas| == c.ctas && |s.signals[q]| == c.ctas && |s.recv[q]| == c.n
  }

  /** A block has got at least to `stage` of launch k. */
  predicate Reached(s: State, q: nat, b: nat, k: nat, stage: nat)
    requires q < |s.ranks| && b < |s.ranks[q].ctas|
  {
    s.ranks[q].launch > k || (s.ranks[q].launch == k && Stage(s.ranks[q].ctas[b].pc) >= stage)
  }

  /** An ideal barrier among the blocks numbered b of all ranks. */
  predicate AllReached(c: Config, s: State, b: nat, k: nat, stage: nat)
    requires Shaped(c, s) && b < c.ctas
  {
    forall q :: 0 <= q < c.n ==> Reached(s, q, b, k, stage)
  }

  /** The peers that the threads of block b put to. */
  function Targets(c: Config, q: nat, b: nat): set<nat>
    requires ValidConfig(c)
  {
    set r: nat | r < c.n && Remote(c, q, r) && ReceivingCta(c, r) == b
  }

  predicate Enabled(c: Config, s: State, a: Action)
    requires ValidConfig(c) && Shaped(c, s)
  {
    match a
    case ReadBase(q, b) => q < c.n && b < c.ctas && s.ranks[q].ctas[b].pc == Starting
    case PassStart(q, b) =>
      && q < c.n && b < c.ctas && s.ranks[q].ctas[b].pc == Entered && AllReached(c, s, b, s.ranks[q].launch, 1)
    case Put(q, b, r) => q < c.n && b < c.ctas && s.ranks[q].ctas[b].pc == Active && r in s.ranks[q].ctas[b].todo
    case FinishSend(q, b) => q < c.n && b < c.ctas && s.ranks[q].ctas[b].pc == Active && s.ranks[q].ctas[b].todo == {}
    case WaitSignal(q, b) =>
      && q < c.n && b < c.ctas && s.ranks[q].ctas[b].pc == Waiting
      && (b == ReceivingCta(c, q) ==> s.signals[q][b] >= s.ranks[q].ctas[b].base + Awaited(c))
    case PassEnd(q, b) =>
      && q < c.n && b < c.ctas && s.ranks[q].ctas[b].pc == Ending
      && (c.endBarrier ==> AllReached(c, s, b, s.ranks[q].launch, 4))
    case NextLaunch(q) => q < c.n && forall b :: 0 <= b < c.ctas ==> s.ranks[q].ctas[b].pc == Done
    case Deliver(m) => m in s.inflight && m.src < c.n && m.dst < c.n && m.idx < c.ctas
  }

  function WithCta(s: State, q: nat, b: nat, x: Cta): State
    requires q < |s.ranks| && b < |s.ranks[q].ctas|
  {
    s.(ranks := s.ranks[q := s.ranks[q].(ctas := s.ranks[q].ctas[b := x])])
  }

  function Fresh(k: nat): (xs: seq<Cta>)
    ensures |xs| == k && forall b :: 0 <= b < k ==> xs[b] == Cta(Starting, 0, {})
  {
    if k == 0 then [] else Fresh(k - 1) + [Cta(Starting, 0, {})]
  }

  function Step(c: Config, s: State, a: Action): State
    requires ValidConfig(c) && Shaped(c, s) && Enabled(c, s, a)
  {
    match a
    case ReadBase(q, b) => WithCta(s, q, b, s.ranks[q].ctas[b].(pc := Entered, base := s.signals[q][b]))
    case PassStart(q, b) => WithCta(s, q, b, s.ranks[q].ctas[b].(pc := Active, todo := Targets(c, q, b)))
    case Put(q, b, r) =>
      WithCta(s, q, b, s.ranks[q].ctas[b].(todo := s.ranks[q].ctas[b].todo - {r}))
      .(inflight := s.inflight + {Msg(q, r, b, s.ranks[q].launch)})
    case FinishSend(q, b) => WithCta(s, q, b, s.ranks[q].ctas[b].(pc := Waiting))
    case WaitSignal(q, b) => WithCta(s, q, b, s.ranks[q].ctas[b].(pc := Ending))
    case PassEnd(q, b) => WithCta(s, q, b, s.ranks[q].ctas[b].(pc := Done))
    case NextLaunch(q) => s.(ranks := s.ranks[q := Rank(s.ranks[q].launch + 1, Fresh(c.ctas))])
    case Deliver(m) =>
      var row: seq<nat> := s.recv[m.dst][m.src := m.launch + 1];
      var level: seq<nat> := s.signals[m.dst][m.idx := s.signals[m.dst][m.idx] + 1];
      s.(inflight := s.inflight - {m}, recv := s.recv[m.dst := row], signals := s.signals[m.dst := level])
  }

  function Initial(c: Config): State
  {
    State(seq(c.n, i => Rank(0, Fresh(c.ctas))), {}, seq(c.n, i => Zeros(c.ctas)), seq(c.n, i => Zeros(c.n)))
  }

  // ---- counting

  /** What the chunks from the first k remote peers contribute to r's signal. */
  function RemoteSum(c: Config, r: nat, row: seq<nat>, k: nat): nat
    requires k <= |row|
  {
    if k == 0 then 0 else RemoteSum(c, r, row, k - 1) + if Remote(c, k - 1, r) then row[k - 1] else 0
  }

  function RemotePeers(c: Config, r: nat, k: nat): nat
  {
    if k == 0 then 0 else RemotePeers(c, r, k - 1) + if Remote(c, k - 1, r) then 1 else 0
  }

  /** Two ranks are remote to each other exactly when they lie in different teams. */
  lemma {:induction false} RemoteIsTeams(c: Config, q: nat, r: nat)
    requires c.team > 0
    ensures Remote(c, q, r) <==> q / c.team != r / c.team
  {
    var t := c.team;
    var a, b := q / t, r / t;
    assert q == a * t + q % t && r == b * t + r % t;
    if a < b {
      MulMono(a + 1, b, t);
    } else if b < a {
      MulMono(b + 1, a, t);
    }
    assert (a + 1) * t == a * t + t && (b + 1) * t == b * t + t;
  }

  /** Of the first k ranks, those outside r's team. */
  lemma {:induction false} RemotePeersFormula(c: Config, r: nat, k: nat)
    requires c.team > 0
    ensures RemotePeers(c, r, k) == k - Between(k, r - r % c.team, c.team)
  {
    if k > 0 {
      RemotePeersFormula(c, r, k - 1);
      RemoteSymmetric(c, k - 1, r);
    }
  }

  /** How many of 0..k-1 lie in [start, start + size). */
  function Between(k: nat, start: int, size: nat): int
  {
    if k <= start then 0 else if k <= start + size then k - start else size
  }

  lemma {:induction false} RemoteSymmetric(c: Config, q: nat, r: nat)
    ensures Remote(c, q, r) == Remote(c, r, q)
  {
    if c.team > 0 {
      RemoteIsTeams(c, q, r);
      RemoteIsTeams(c, r, q);
    }
  }

  /** The awaited count is the number of ranks that put to r. */
  lemma {:induction false} AwaitedIsRemotePeers(c: Config, r: nat)
    requires ValidConfig(c) && r < c.n
    ensures RemotePeers(c, r, c.n) == Awaited(c)
  {
    if c.team == 0 {
      AllRemote(c, r, c.n);
    } else {
      RemotePeersFormula(c, r, c.n);
      TeamEnd(r, c.n, c.team);
    }
  }

  lemma {:induction false} AllRemote(c: Config, r: nat, k: nat)
    requires c.team == 0
    ensures RemotePeers(c, r, k) == k
  {
    if k > 0 {
      AllRemote(c, r, k - 1);
    }
  }

  lemma {:induction false} TeamEndProducts(r: nat, n: nat, t: nat, a: nat, m: nat)
    requires 0 <= r - a * t < t && r < n && n == m * t
    ensures 0 <= a * t && a * t + t <= n
  {
    if m <= a {
      MulMono(m, a, t);
    } else {
      MulMono(a + 1, m, t);
    }
    assert (a + 1) * t == a * t + t;
  }

  lemma {:induction false} TeamEnd(r: nat, n: nat, t: nat)
    requires t > 0 && r < n && n % t == 0
    ensures 0 <= r - r % t && r - r % t + t <= n
  {
    var a, m := r / t, n / t;
    assert r == a * t + r % t && n == m * t;
    TeamEndProducts(r, n, t, a, m);
  }

  /** With every remote count between v and v+1, the sum tells whether all are v+1. */
  lemma {:induction false} SumOfLevels(c: Config, r: nat, row: seq<nat>, k: nat, v: nat)
    requires k <= |row| && forall q :: 0 <= q < k && Remote(c, q, r) ==> v <= row[q] <= v + 1
    ensures v * RemotePeers(c, r, k) <= RemoteSum(c, r, row, k) <= (v + 1) * RemotePeers(c, r, k)
    ensures (forall q :: 0 <= q < k && Remote(c, q, r) ==> row[q] == v) ==> RemoteSum(c, r, row, k) == v * RemotePeers(c, r, k)
    ensures RemoteSum(c, r, row, k) >= (v + 1) * RemotePeers(c, r, k) ==>
              forall q :: 0 <= q < k && Remote(c, q, r) ==> row[q] == v + 1
  {
    if k > 0 {
      SumOfLevels(c, r, row, k - 1, v);
      LevelsStep(v, RemotePeers(c, r, k - 1));
    }
  }

  lemma {:induction false} LevelsStep(v: nat, p: nat)
    ensures v * (p + 1) == v * p + v && (v + 1) * (p + 1) == (v + 1) * p + v + 1
    ensures (v + 1) * p == v * p + p
  {
  }

  lemma {:induction false} RemoteSumUpdate(c: Config, r: nat, row: seq<nat>, k: nat, q: nat, v: nat)
    requires k <= |row| && q < |row|
    ensures RemoteSum(c, r, row[q := v], k)
         == RemoteSum(c, r, row, k) + if q < k && Remote(c, q, r) then v - row[q] else 0
  {
    if k > 0 {
      RemoteSumUpdate(c, r, row, k - 1, q, v);
    }
  }

  // ---- the invariant

  /** The puts that q has issued to r, over all launches. */
  function Sent(c: Config, s: State, q: nat, r: nat): nat
    requires ValidConfig(c) && Shaped(c, s) && q < c.n && ReceivingCta(c, r) < c.ctas
  {
    var x := s.ranks[q].ctas[ReceivingCta(c, r)];
    s.ranks[q].launch + if Stage(x.pc) >= 2 && r !in x.todo then 1 else 0
  }

  lemma {:induction false} ReceivingInRange(c: Config, r: nat)
    requires ValidConfig(c)
    ensures ReceivingCta(c, r) < c.ctas
  {
    var t := r % (c.ctas * c.dim);
    var q := t / c.dim;
    assert t == q * c.dim + t % c.dim;
    if q >= c.ctas {
      MulMono(c.ctas, q, c.dim);
    }
  }

  /** Receiver and sender of a chunk never drift apart by more than one launch, a put of the
      receiver's launch is not issued before the receiver has read its base value, and the put is
      in flight exactly while it is issued and not yet delivered. */
  predicate PairInv(c: Config, s: State, q: nat, r: nat)
    requires ValidConfig(c) && Shaped(c, s) && q < c.n && r < c.n
  {
    ReceivingInRange(c, r);
    var b, got, sent := ReceivingCta(c, r), s.recv[r][q], Sent(c, s, q, r);
    && s.ranks[r].launch <= got <= sent <= got + 1
    && sent <= s.ranks[r].launch + 1
    && (sent == s.ranks[r].launch + 1 ==> Stage(s.ranks[r].ctas[b].pc) >= 1)
    && (Msg(q, r, b, got) in s.inflight <==> sent == got + 1)
  }

  predicate MsgInv(c: Config, s: State, m: Msg)
    requires ValidConfig(c) && Shaped(c, s)
  {
    && m.src < c.n && m.dst < c.n && Remote(c, m.src, m.dst)
    && m.idx == ReceivingCta(c, m.dst) && m.launch == s.recv[m.dst][m.src]
  }

  predicate AllReceived(c: Config, s: State, r: nat, v: nat)
    requires Shaped(c, s) && r < c.n
  {
    forall q :: 0 <= q < c.n && Remote(c, q, r) ==> s.recv[r][q] == v
  }

  predicate CtaInv(c: Config, s: State, q: nat, b: nat)
    requires ValidConfig(c) && Shaped(c, s) && q < c.n && b < c.ctas
  {
    var x, k := s.ranks[q].ctas[b], s.ranks[q].launch;
    && x.todo <= Targets(c, q, b)
    && (Stage(x.pc) != 2 ==> x.todo == {})
    && (Stage(x.pc) >= 2 ==> AllReached(c, s, b, k, 1))
    && (Stage(x.pc) >= 5 && c.endBarrier ==> AllReached(c, s, b, k, 4))
    && (b == ReceivingCta(c, q) && Stage(x.pc) >= 1 ==> x.base == k * Awaited(c))
    && (b == ReceivingCta(c, q) && Stage(x.pc) >= 4 ==> AllReceived(c, s, q, k + 1))
  }

  /** A rank starts a launch after all ranks have entered (and left, with an end barrier) the one before. */
  predicate PastInv(c: Config, s: State, q: nat, b: nat)
    requires Shaped(c, s) && q < c.n && b < c.ctas
  {
    var k := s.ranks[q].launch;
    k > 0 ==> AllReached(c, s, b, k - 1, 1) && (c.endBarrier ==> AllReached(c, s, b, k - 1, 4))
  }

  predicate SignalInv(c: Config, s: State, r: nat, b: nat)
    requires ValidConfig(c) && Shaped(c, s) && r < c.n && b < c.ctas
  {
    s.signals[r][b] == if b == ReceivingCta(c, r) then RemoteSum(c, r, s.recv[r], c.n) else 0
  }

  ghost predicate Inv(c: Config, s: State)
  {
    && ValidConfig(c) && Shaped(c, s)
    && (forall q: nat, r: nat :: q < c.n && r < c.n && Remote(c, q, r) ==> PairInv(c, s, q, r))
    && (forall m :: m in s.inflight ==> MsgInv(c, s, m))
    && (forall q: nat, b: nat :: q < c.n && b < c.ctas ==> CtaInv(c, s, q, b) && PastInv(c, s, q, b) && SignalInv(c, s, q, b))
  }

  // The clauses of the invariant, one at a time.

  lemma {:induction false} CtaOf(c: Config, s: State, q: nat, b: nat)
    requires Inv(c, s) && q < c.n && b < c.ctas
    ensures ValidConfig(c) && Shaped(c, s)
    ensures CtaInv(c, s, q, b) && PastInv(c, s, q, b) && SignalInv(c, s, q, b)
  {
  }

  lemma {:induction false} Sound(c: Config, s: State)
    requires Inv(c, s)
    ensures ValidConfig(c) && Shaped(c, s)
  {
  }

  lemma {:induction false} PairOf(c: Config, s: State, q: nat, r: nat)
    requires Inv(c, s) && q < c.n && r < c.n && Remote(c, q, r)
    ensures ValidConfig(c) && Shaped(c, s) && PairInv(c, s, q, r)
  {
  }

  lemma {:induction false} MsgOf(c: Config, s: State, m: Msg)
    requires Inv(c, s) && m in s.inflight
    ensures ValidConfig(c) && Shaped(c, s) && MsgInv(c, s, m)
  {
  }

  // ---- barriers stay passed

  lemma {:induction false} StepShaped(c: Config, s: State, a: Action)
    requires ValidConfig(c) && Shaped(c, s) && Enabled(c, s, a)
    ensures Shaped(c, Step(c, s, a))
  {
    hide AllReached, ReceivingCta, Targets, Awaited;
  }

  lemma {:induction false} ReachedStays(c: Config, s: State, a: Action, q: nat, b: nat, k: nat, stage: nat)
    requires ValidConfig(c) && Shaped(c, s) && Enabled(c, s, a) && q < c.n && b < c.ctas && Reached(s, q, b, k, stage) && stage <= 5
    ensures Shaped(c, Step(c, s, a)) && Reached(Step(c, s, a), q, b, k, stage)
  {
    hide AllReached, ReceivingCta, Targets, Awaited;
    StepShaped(c, s, a);
  }

  lemma {:induction false} AllReachedStays(c: Config, s: State, a: Action, b: nat, k: nat, stage: nat)
    requires ValidConfig(c) && Shaped(c, s) && Enabled(c, s, a) && b < c.ctas && AllReached(c, s, b, k, stage) && stage <= 5
    ensures Shaped(c, Step(c, s, a)) && AllReached(c, Step(c, s, a), b, k, stage)
  {
    hide Step, Enabled, Reached;
    StepShaped(c, s, a);
    forall q | 0 <= q < c.n
      ensures Reached(Step(c, s, a), q, b, k, stage)
    {
      ReachedStays(c, s, a, q, b, k, stage);
    }
  }

  // ---- each step keeps each part of the invariant

  lemma {:induction false} PastStep(c: Config, s: State, a: Action, q: nat, b: nat)
    requires Inv(c, s) && Enabled(c, s, a) && q < c.n && b < c.ctas
    ensures Shaped(c, Step(c, s, a)) && PastInv(c, Step(c, s, a), q, b)
  {
    hide Inv, AllReached, ReceivingCta, Targets, Awaited, AllReceived;
    CtaOf(c, s, q, b);
    StepShaped(c, s, a);
    var k := s.ranks[q].launch;
    if a == NextLaunch(q) {
      AllReachedStays(c, s, a, b, k, 1);
      if c.endBarrier {
        AllReachedStays(c, s, a, b, k, 4);
      }
    } else if k > 0 {
      AllReachedStays(c, s, a, b, k - 1, 1);
      if c.endBarrier {
        AllReachedStays(c, s, a, b, k - 1, 4);
      }
    }
  }

  lemma {:induction false} SignalStep(c: Config, s: State, a: Action, r: nat, b: nat)
    requires Inv(c, s) && Enabled(c, s, a) && r < c.n && b < c.ctas
    ensures Shaped(c, Step(c, s, a)) && SignalInv(c, Step(c, s, a), r, b)
  {
    hide Inv, AllReached, ReceivingCta, Targets, Awaited, AllReceived, RemoteSum, Remote;
    CtaOf(c, s, r, b);
    StepShaped(c, s, a);
    if a.Deliver? {
      MsgOf(c, s, a.m);
      RemoteSumUpdate(c, a.m.dst, s.recv[a.m.dst], c.n, a.m.src, a.m.launch + 1);
    }
  }

  /** A put is issued only when the receiver is in the same launch and has read its base value. */
  lemma {:induction false} PutIsTimely(c: Config, s: State, q: nat, b: nat, r: nat)
    requires Inv(c, s) && q < c.n && b < c.ctas && Enabled(c, s, Put(q, b, r))
    ensures r < c.n && Remote(c, q, r) && ReceivingCta(c, r) == b
    ensures s.ranks[r].launch == s.ranks[q].launch == s.recv[r][q] && Stage(s.ranks[r].ctas[b].pc) >= 1
    ensures Sent(c, s, q, r) == s.ranks[q].launch
  {
    assert CtaInv(c, s, q, b);
    assert r in Targets(c, q, b);
    assert PairInv(c, s, q, r);
    assert Reached(s, r, b, s.ranks[q].launch, 1);
  }

  lemma {:induction false} PairPut(c: Config, s: State, q: nat, b: nat, r: nat, q': nat, r': nat)
    requires Inv(c, s) && q < c.n && b < c.ctas && Enabled(c, s, Put(q, b, r))
    requires q' < c.n && r' < c.n && Remote(c, q', r')
    ensures Shaped(c, Step(c, s, Put(q, b, r))) && PairInv(c, Step(c, s, Put(q, b, r)), q', r')
  {
    hide Inv, AllReached, ReceivingCta, Targets, Awaited, AllReceived, RemoteSum, Remote;
    PairOf(c, s, q', r');
    ReceivingInRange(c, r');
    StepShaped(c, s, Put(q, b, r));
    PutIsTimely(c, s, q, b, r);
  }

  lemma {:induction false} PairDeliver(c: Config, s: State, m: Msg, q: nat, r: nat)
    requires Inv(c, s) && Enabled(c, s, Deliver(m)) && q < c.n && r < c.n && Remote(c, q, r)
    ensures Shaped(c, Step(c, s, Deliver(m))) && PairInv(c, Step(c, s, Deliver(m)), q, r)
  {
    hide Inv, AllReached, ReceivingCta, Targets, Awaited, AllReceived, RemoteSum, Remote;
    PairOf(c, s, q, r);
    StepShaped(c, s, Deliver(m));
    MsgOf(c, s, m);
    var next := Msg(q, r, ReceivingCta(c, r), s.recv[r][q] + 1);
    if next in s.inflight {
      MsgOf(c, s, next);
    }
  }

  lemma {:induction false} PairNext(c: Config, s: State, k: nat, q: nat, r: nat)
    requires Inv(c, s) && k < c.n && Enabled(c, s, NextLaunch(k)) && q < c.n && r < c.n && Remote(c, q, r)
    ensures Shaped(c, Step(c, s, NextLaunch(k))) && PairInv(c, Step(c, s, NextLaunch(k)), q, r)
  {
    hide Inv, AllReached, ReceivingCta, Targets, Awaited, RemoteSum;
    PairOf(c, s, q, r);
    StepShaped(c, s, NextLaunch(k));
    ReceivingInRange(c, r);
    CtaOf(c, s, q, ReceivingCta(c, r));
    CtaOf(c, s, r, ReceivingCta(c, r));
  }

  /** The actions that move one block without touching messages. */
  predicate Local(a: Action) { !a.Put? && !a.Deliver? && !a.NextLaunch? }

  lemma {:induction false} PairLocal(c: Config, s: State, a: Action, q: nat, r: nat)
    requires Inv(c, s) && Enabled(c, s, a) && Local(a) && q < c.n && r < c.n && Remote(c, q, r)
    ensures Shaped(c, Step(c, s, a)) && PairInv(c, Step(c, s, a), q, r)
  {
    hide Inv, AllReached, ReceivingCta, Targets, Awaited, AllReceived, RemoteSum, Remote, CtaInv, Sent;
    PairOf(c, s, q, r);
    StepShaped(c, s, a);
    ReceivingInRange(c, r);
    SentStays(c, s, a, q, r);
  }

  lemma {:induction false} SentStays(c: Config, s: State, a: Action, q: nat, r: nat)
    requires Inv(c, s) && Enabled(c, s, a) && Local(a) && q < c.n && r < c.n && Remote(c, q, r)
    ensures Shaped(c, Step(c, s, a)) && ReceivingCta(c, r) < c.ctas && Sent(c, Step(c, s, a), q, r) == Sent(c, s, q, r)
  {
    hide Inv, AllReached, ReceivingCta, Targets, Awaited, AllReceived, RemoteSum, Remote;
    Sound(c, s);
    ReceivingInRange(c, r);
    CtaOf(c, s, q, ReceivingCta(c, r));
    StepShaped(c, s, a);
    IsTarget(c, q, r);
  }

  lemma {:induction false} IsTarget(c: Config, q: nat, r: nat)
    requires ValidConfig(c) && r < c.n && Remote(c, q, r)
    ensures r in Targets(c, q, ReceivingCta(c, r))
  {
    hide Remote, ReceivingCta;
  }

  lemma {:induction false} PairStep(c: Config, s: State, a: Action, q: nat, r: nat)
    requires Inv(c, s) && Enabled(c, s, a) && q < c.n && r < c.n && Remote(c, q, r)
    ensures Shaped(c, Step(c, s, a)) && PairInv(c, Step(c, s, a), q, r)
  {
    hide Inv, Step, PairInv;
    PairOf(c, s, q, r);
    match a
    case Put(q', b, r') => PairPut(c, s, q', b, r', q, r);
    case Deliver(m) => PairDeliver(c, s, m, q, r);
    case NextLaunch(k) => PairNext(c, s, k, q, r);
    case _ => PairLocal(c, s, a, q, r);
  }

  lemma {:induction false} MsgStep(c: Config, s: State, a: Action, m: Msg)
    requires Inv(c, s) && Enabled(c, s, a) && m in Step(c, s, a).inflight
    ensures Shaped(c, Step(c, s, a)) && MsgInv(c, Step(c, s, a), m)
  {
    hide Inv, AllReached, ReceivingCta, Targets, Awaited, AllReceived, RemoteSum, Remote;
    Sound(c, s);
    StepShaped(c, s, a);
    if m in s.inflight {
      MsgOf(c, s, m);
    }
    if a.Put? {
      PutIsTimely(c, s, a.q, a.b, a.r);
    }
    if a.Deliver? {
      MsgOf(c, s, a.m);
    }
  }

  /** Before it reads its base value, a rank has exactly the chunks of the launches before. */
  lemma {:induction false} BaseValue(c: Config, s: State, q: nat, b: nat)
    requires Inv(c, s) && q < c.n && b < c.ctas && b == ReceivingCta(c, q) && s.ranks[q].ctas[b].pc == Starting
    ensures s.signals[q][b] == s.ranks[q].launch * Awaited(c)
  {
    forall p | 0 <= p < c.n && Remote(c, p, q)
      ensures s.recv[q][p] == s.ranks[q].launch
    {
      assert PairInv(c, s, p, q);
    }
    assert SignalInv(c, s, q, b);
    SumOfLevels(c, q, s.recv[q], c.n, s.ranks[q].launch);
    AwaitedIsRemotePeers(c, q);
  }

  /** When the awaited level is reached, every remote chunk of this launch is there. */
  lemma {:induction false} WaitedFor(c: Config, s: State, q: nat, b: nat)
    requires Inv(c, s) && q < c.n && b < c.ctas && b == ReceivingCta(c, q) && Enabled(c, s, WaitSignal(q, b))
    ensures AllReceived(c, s, q, s.ranks[q].launch + 1)
  {
    forall p | 0 <= p < c.n && Remote(c, p, q)
      ensures s.ranks[q].launch <= s.recv[q][p] <= s.ranks[q].launch + 1
    {
      assert PairInv(c, s, p, q);
    }
    assert SignalInv(c, s, q, b) && CtaInv(c, s, q, b);
    SumOfLevels(c, q, s.recv[q], c.n, s.ranks[q].launch);
    AwaitedIsRemotePeers(c, q);
    LevelUp(s.ranks[q].launch, Awaited(c));
  }

  lemma {:induction false} LevelUp(k: int, a: int)
    ensures k * a + a == (k + 1) * a
  {
  }

  lemma {:induction false} ReceivedStays(c: Config, s: State, a: Action, q: nat)
    requires Inv(c, s) && Enabled(c, s, a) && q < c.n && AllReceived(c, s, q, s.ranks[q].launch + 1)
    ensures Shaped(c, Step(c, s, a)) && AllReceived(c, Step(c, s, a), q, s.ranks[q].launch + 1)
  {
    hide Inv, AllReached, ReceivingCta, Targets, Awaited, RemoteSum, Remote;
    Sound(c, s);
    StepShaped(c, s, a);
    if a.Deliver? {
      MsgOf(c, s, a.m);
      PairOf(c, s, a.m.src, a.m.dst);
    }
  }

  lemma {:induction false} CtaTodo(c: Config, s: State, a: Action, q: nat, b: nat)
    requires Inv(c, s) && Enabled(c, s, a) && q < c.n && b < c.ctas
    ensures Shaped(c, Step(c, s, a))
    ensures var x := Step(c, s, a).ranks[q].ctas[b]; x.todo <= Targets(c, q, b) && (Stage(x.pc) != 2 ==> x.todo == {})
  {
    hide Inv, AllReached, ReceivingCta, Targets, Awaited, AllReceived;
    CtaOf(c, s, q, b);
    StepShaped(c, s, a);
  }

  lemma {:induction false} CtaBarriers(c: Config, s: State, a: Action, q: nat, b: nat)
    requires Inv(c, s) && Enabled(c, s, a) && q < c.n && b < c.ctas
    ensures Shaped(c, Step(c, s, a))
    ensures var s' := Step(c, s, a); var x, k := s'.ranks[q].ctas[b], s'.ranks[q].launch;
      && (Stage(x.pc) >= 2 ==> AllReached(c, s', b, k, 1))
      && (Stage(x.pc) >= 5 && c.endBarrier ==> AllReached(c, s', b, k, 4))
  {
    hide Inv, AllReached, ReceivingCta, Targets, Awaited, AllReceived;
    CtaOf(c, s, q, b);
    StepShaped(c, s, a);
    var k := s.ranks[q].launch;
    if AllReached(c, s, b, k, 1) {
      AllReachedStays(c, s, a, b, k, 1);
    }
    if AllReached(c, s, b, k, 4) {
      AllReachedStays(c, s, a, b, k, 4);
    }
  }

  lemma {:induction false} CtaSignals(c: Config, s: State, a: Action, q: nat, b: nat)
    requires Inv(c, s) && Enabled(c, s, a) && q < c.n && b < c.ctas && b == ReceivingCta(c, q)
    ensures Shaped(c, Step(c, s, a))
    ensures var s' := Step(c, s, a); var x, k := s'.ranks[q].ctas[b], s'.ranks[q].launch;
      && (Stage(x.pc) >= 1 ==> x.base == k * Awaited(c))
      && (Stage(x.pc) >= 4 ==> AllReceived(c, s', q, k + 1))
  {
    hide Inv, AllReached, ReceivingCta, Targets, Awaited, AllReceived;
    CtaOf(c, s, q, b);
    StepShaped(c, s, a);
    if a == ReadBase(q, b) {
      BaseValue(c, s, q, b);
    }
    if a == WaitSignal(q, b) {
      WaitedFor(c, s, q, b);
    }
    if AllReceived(c, s, q, s.ranks[q].launch + 1) {
      ReceivedStays(c, s, a, q);
    }
  }

  lemma {:induction false} StepInv(c: Config, s: State, a: Action)
    requires Inv(c, s) && Enabled(c, s, a)
    ensures Inv(c, Step(c, s, a))
  {
    hide Step, Enabled, PairInv, MsgInv, PastInv, SignalInv, Remote, AllReached, AllReceived, Targets, ReceivingCta, Awaited;
    StepShaped(c, s, a);
    var s' := Step(c, s, a);
    forall q: nat, r: nat | q < c.n && r < c.n && Remote(c, q, r)
      ensures PairInv(c, s', q, r)
    {
      PairStep(c, s, a, q, r);
    }
    forall m | m in s'.inflight
      ensures MsgInv(c, s', m)
    {
      MsgStep(c, s, a, m);
    }
    forall q: nat, b: nat | q < c.n && b < c.ctas
      ensures CtaInv(c, s', q, b) && PastInv(c, s', q, b) && SignalInv(c, s', q, b)
    {
      CtaTodo(c, s, a, q, b);
      CtaBarriers(c, s, a, q, b);
      if b == ReceivingCta(c, q) {
        CtaSignals(c, s, a, q, b);
      }
      PastStep(c, s, a, q, b);
      SignalStep(c, s, a, q, b);
    }
  }

  lemma {:induction false} NoneReceived(c: Config, r: nat, k: nat, row: seq<nat>)
    requires k <= |row| && forall i :: 0 <= i < |row| ==> row[i] == 0
    ensures RemoteSum(c, r, row, k) == 0
  {
    if k > 0 {
      NoneReceived(c, r, k - 1, row);
    }
  }

  lemma {:induction false} InitialInv(c: Config)
    requires ValidConfig(c)
    ensures Inv(c, Initial(c))
  {
    hide ReceivingCta, Remote, Targets, Awaited;
    forall r: nat | r < c.n
      ensures RemoteSum(c, r, Zeros(c.n), c.n) == 0 && ReceivingCta(c, r) < c.ctas
    {
      ReceivingInRange(c, r);
      NoneReceived(c, r, c.n, Zeros(c.n));
    }
    assert 0 * Awaited(c) == 0;
  }

  // ---- all runs

  /** A run of the system from its initial state, under any schedule of blocks and network. */
  ghost predicate IsRun(c: Config, run: seq<State>, moves: seq<Action>)
  {
    && ValidConfig(c) && |run| == |moves| + 1 && run[0] == Initial(c)
    && forall i :: 0 <= i < |moves| ==>
         Shaped(c, run[i]) && Enabled(c, run[i], moves[i]) && run[i + 1] == Step(c, run[i], moves[i])
  }

  lemma {:induction false} RunInv(c: Config, run: seq<State>, moves: seq<Action>, i: nat)
    requires IsRun(c, run, moves) && i < |run|
    ensures Inv(c, run[i])
  {
    hide Inv, Step, Enabled, Initial;
    if i == 0 {
      InitialInv(c);
    } else {
      RunInv(c, run, moves, i - 1);
      StepInv(c, run[i - 1], moves[i - 1]);
    }
  }

  /** When waitSignal returns, every remote peer's chunk of this very launch has been written, and
      it stays the last one written as long as the launch lasts. */
  lemma {:induction false} WaitDelivers(c: Config, run: seq<State>, moves: seq<Action>, i: nat, r: nat, q: nat)
    requires IsRun(c, run, moves) && i < |run| && r < c.n && q < c.n && Remote(c, q, r)
    ensures Shaped(c, run[i]) && ReceivingCta(c, r) < c.ctas
    ensures Stage(run[i].ranks[r].ctas[ReceivingCta(c, r)].pc) >= 4 ==> run[i].recv[r][q] == run[i].ranks[r].launch + 1
  {
    RunInv(c, run, moves, i);
    ReceivingInRange(c, r);
    hide IsRun, Remote, ReceivingCta;
    assert CtaInv(c, run[i], r, ReceivingCta(c, r));
  }

  /** Signals to a rank land only on its receiving block's index, one for each remote chunk
      delivered, never more than one launch's worth ahead; the base value a launch reads is
      what the launches before it brought. */
  lemma {:induction false} SignalsLandOnce(c: Config, run: seq<State>, moves: seq<Action>, i: nat, r: nat, b: nat)
    requires IsRun(c, run, moves) && i < |run| && r < c.n && b < c.ctas
    ensures Shaped(c, run[i])
    ensures b != ReceivingCta(c, r) ==> run[i].signals[r][b] == 0
    ensures b == ReceivingCta(c, r) ==>
              var k := run[i].ranks[r].launch;
              && k * Awaited(c) <= run[i].signals[r][b] <= (k + 1) * Awaited(c)
              && (Stage(run[i].ranks[r].ctas[b].pc) >= 1 ==> run[i].ranks[r].ctas[b].base == k * Awaited(c))
              && (Stage(run[i].ranks[r].ctas[b].pc) == 0 ==> run[i].signals[r][b] == k * Awaited(c))
  {
    RunInv(c, run, moves, i);
    hide IsRun, Remote, ReceivingCta, Awaited, RemoteSum, RemotePeers;
    assert SignalInv(c, run[i], r, b) && CtaInv(c, run[i], r, b);
    if b == ReceivingCta(c, r) {
      SignalLevels(c, run[i], r);
      if run[i].ranks[r].ctas[b].pc == Starting {
        BaseValue(c, run[i], r, b);
      }
    }
  }

  lemma {:induction false} SignalLevels(c: Config, s: State, r: nat)
    requires Inv(c, s) && r < c.n
    ensures s.ranks[r].launch * Awaited(c) <= RemoteSum(c, r, s.recv[r], c.n) <= (s.ranks[r].launch + 1) * Awaited(c)
  {
    hide Remote, ReceivingCta, Awaited;
    forall q | 0 <= q < c.n && Remote(c, q, r)
      ensures s.ranks[r].launch <= s.recv[r][q] <= s.ranks[r].launch + 1
    {
      assert PairInv(c, s, q, r);
    }
    SumOfLevels(c, r, s.recv[r], c.n, s.ranks[r].launch);
    AwaitedIsRemotePeers(c, r);
  }

  /** The launches whose load/store copies block b of rank q has completed. */
  function Stored(s: State, q: nat, b: nat): nat
    requires q < |s.ranks| && b < |s.ranks[q].ctas|
  {
    s.ranks[q].launch + if Stage(s.ranks[q].ctas[b].pc) >= 3 then 1 else 0
  }

  predicate Storing(s: State, q: nat, b: nat)
    requires q < |s.ranks| && b < |s.ranks[q].ctas|
  {
    s.ranks[q].ctas[b].pc == Active
  }

  /** When all blocks of a rank are done with a launch, every remote chunk of that launch has been
      delivered; and (with the end barrier) every block of every rank has finished the stores of
      that launch and not begun the next one's. */
  lemma {:induction false} LaunchSettled(c: Config, s: State, r: nat, q: nat, b: nat)
    requires Inv(c, s) && r < c.n && q < c.n && b < c.ctas
    requires forall x :: 0 <= x < c.ctas ==> s.ranks[r].ctas[x].pc == Done
    ensures Remote(c, q, r) ==> s.recv[r][q] == s.ranks[r].launch + 1
    ensures c.endBarrier ==> Stored(s, q, b) == s.ranks[r].launch + 1 && !Storing(s, q, b)
  {
    ReceivingInRange(c, r);
    hide Remote, ReceivingCta, Awaited, RemoteSum, RemotePeers;
    assert CtaInv(c, s, r, ReceivingCta(c, r));
    assert CtaInv(c, s, r, b) && CtaInv(c, s, q, b) && PastInv(c, s, q, b);
    if c.endBarrier {
      assert Reached(s, q, b, s.ranks[r].launch, 4);
      if Stage(s.ranks[q].ctas[b].pc) >= 2 {
        assert Reached(s, r, b, s.ranks[q].launch, 1);
      }
      if s.ranks[q].launch > 0 {
        assert Reached(s, r, b, s.ranks[q].launch - 1, 1);
      }
    }
  }

  // ---- progress

  predicate Slowest(c: Config, s: State, r: nat)
    requires Shaped(c, s) && r < c.n
  {
    forall q :: 0 <= q < c.n ==> s.ranks[r].launch <= s.ranks[q].launch
  }

  lemma {:induction false} SomeSlowest(c: Config, s: State, k: nat) returns (r: nat)
    requires Shaped(c, s) && 0 < k <= c.n
    ensures r < k && forall q :: 0 <= q < k ==> s.ranks[r].launch <= s.ranks[q].launch
  {
    if k == 1 {
      r := 0;
    } else {
      r := SomeSlowest(c, s, k - 1);
      if s.ranks[k - 1].launch < s.ranks[r].launch {
        r := k - 1;
      }
    }
  }

  /** Blocks that neither wait for others nor are done can move by themselves. */
  predicate Mobile(s: State, q: nat, b: nat)
    requires q < |s.ranks| && b < |s.ranks[q].ctas|
  {
    s.ranks[q].ctas[b].pc == Starting || s.ranks[q].ctas[b].pc == Active
  }

  lemma {:induction false} MobileMoves(c: Config, s: State, q: nat, b: nat)
    requires Inv(c, s) && q < c.n && b < c.ctas && Mobile(s, q, b)
    ensures exists a :: Enabled(c, s, a)
  {
    var x := s.ranks[q].ctas[b];
    if x.pc == Starting {
      assert Enabled(c, s, ReadBase(q, b));
    } else if x.todo == {} {
      assert Enabled(c, s, FinishSend(q, b));
    } else {
      var r :| r in x.todo;
      assert Enabled(c, s, Put(q, b, r));
    }
  }

  /** A receiver of the slowest launch cannot wait for ever: all its senders have put. */
  lemma {:induction false} WaitReturns(c: Config, s: State, r: nat)
    requires Inv(c, s) && r < c.n && Slowest(c, s, r) && s.inflight == {}
    requires forall q: nat, b: nat :: q < c.n && b < c.ctas ==>
               !Mobile(s, q, b) && (Slowest(c, s, q) ==> s.ranks[q].ctas[b].pc != Entered)
    requires ReceivingCta(c, r) < c.ctas && s.ranks[r].ctas[ReceivingCta(c, r)].pc == Waiting
    ensures Enabled(c, s, WaitSignal(r, ReceivingCta(c, r)))
  {
    hide Remote, Targets, Awaited, RemoteSum;
    var b := ReceivingCta(c, r);
    forall q | 0 <= q < c.n && Remote(c, q, r)
      ensures s.recv[r][q] == s.ranks[r].launch + 1
    {
      assert PairInv(c, s, q, r) && CtaInv(c, s, q, b);
      assert !Mobile(s, q, b);
    }
    hide ReceivingCta, Remote;
    SumOfLevels(c, r, s.recv[r], c.n, s.ranks[r].launch + 1);
    AwaitedIsRemotePeers(c, r);
    assert SignalInv(c, s, r, b) && CtaInv(c, s, r, b);
    LevelUp(s.ranks[r].launch, Awaited(c));
  }

  /** The protocol never gets stuck: some block can move or some message can be delivered. */
  lemma {:induction false} NeverStuck(c: Config, run: seq<State>, moves: seq<Action>, i: nat)
    requires IsRun(c, run, moves) && i < |run|
    ensures Shaped(c, run[i]) && exists a :: Enabled(c, run[i], a)
  {
    RunInv(c, run, moves, i);
    hide IsRun;
    SomethingMoves(c, run[i]);
  }

  lemma {:induction false} SlowestEnteredMoves(c: Config, s: State, q: nat, b: nat)
    requires Inv(c, s) && q < c.n && b < c.ctas && Slowest(c, s, q) && s.ranks[q].ctas[b].pc == Entered
    requires forall p: nat :: p < c.n ==> !Mobile(s, p, b)
    ensures Enabled(c, s, PassStart(q, b))
  {
    assert ValidConfig(c) && Shaped(c, s);
    hide Inv, Remote, Targets, Awaited, ReceivingCta;
    forall p | 0 <= p < c.n
      ensures Reached(s, p, b, s.ranks[q].launch, 1)
    {
      assert !Mobile(s, p, b);
    }
  }

  lemma {:induction false} SlowestEndingMoves(c: Config, s: State, r: nat, b: nat)
    requires Inv(c, s) && r < c.n && b < c.ctas && Slowest(c, s, r) && s.ranks[r].ctas[b].pc == Ending
    requires forall q: nat :: q < c.n && Slowest(c, s, q) ==>
               s.ranks[q].ctas[b].pc == Ending || s.ranks[q].ctas[b].pc == Done
    ensures Enabled(c, s, PassEnd(r, b))
  {
    assert ValidConfig(c) && Shaped(c, s);
    hide Inv, Remote, Targets, Awaited, ReceivingCta;
    forall q | 0 <= q < c.n
      ensures Reached(s, q, b, s.ranks[r].launch, 4)
    {
      if s.ranks[q].launch == s.ranks[r].launch {
        assert Slowest(c, s, q);
      }
    }
  }

  lemma {:induction false} SomethingMoves(c: Config, s: State)
    requires Inv(c, s)
    ensures exists a :: Enabled(c, s, a)
  {
    if m :| m in s.inflight {
      assert MsgInv(c, s, m);
      ReceivingInRange(c, m.dst);
      assert Enabled(c, s, Deliver(m));
    } else if exists q: nat, b: nat :: q < c.n && b < c.ctas && Mobile(s, q, b) {
      var q: nat, b: nat :| q < c.n && b < c.ctas && Mobile(s, q, b);
      MobileMoves(c, s, q, b);
    } else if exists q: nat, b: nat :: q < c.n && b < c.ctas && Slowest(c, s, q) && s.ranks[q].ctas[b].pc == Entered {
      var q: nat, b: nat :| q < c.n && b < c.ctas && Slowest(c, s, q) && s.ranks[q].ctas[b].pc == Entered;
      SlowestEnteredMoves(c, s, q, b);
    } else if exists q: nat, b: nat :: q < c.n && b < c.ctas && Slowest(c, s, q) && s.ranks[q].ctas[b].pc == Waiting {
      var q: nat, b: nat :| q < c.n && b < c.ctas && Slowest(c, s, q) && s.ranks[q].ctas[b].pc == Waiting;
      if b == ReceivingCta(c, q) {
        WaitReturns(c, s, q);
      }
      assert Enabled(c, s, WaitSignal(q, b));
    } else {
      forall q: nat, b: nat | q < c.n && b < c.ctas && Slowest(c, s, q)
        ensures s.ranks[q].ctas[b].pc == Ending || s.ranks[q].ctas[b].pc == Done
      {
        assert !Mobile(s, q, b);
        assert s.ranks[q].ctas[b].pc != Entered && s.ranks[q].ctas[b].pc != Waiting;
      }
      SettledMoves(c, s);
    }
  }

  /** All blocks of the slowest ranks are at or past the end barrier. */
  lemma {:induction false} SettledMoves(c: Config, s: State)
    requires Inv(c, s)
    requires forall q: nat, b: nat :: q < c.n && b < c.ctas && Slowest(c, s, q) ==>
               s.ranks[q].ctas[b].pc == Ending || s.ranks[q].ctas[b].pc == Done
    ensures exists a :: Enabled(c, s, a)
  {
    var r := SomeSlowest(c, s, c.n);
    if b: nat :| b < c.ctas && s.ranks[r].ctas[b].pc == Ending {
      SlowestEndingMoves(c, s, r, b);
    } else {
      assert Enabled(c, s, NextLaunch(r));
    }
  }

  // ---- the put loop of one thread

  /** `for (r = tid; r < nRanks; r += nthreads)`: over the threads of a block, the peers put to
      are the targets of that block, each once. */
  method PutLoop(c: Config, q: nat, tid: nat) returns (puts: seq<nat>)
    requires ValidConfig(c) && tid < c.ctas * c.dim
    ensures forall r: nat :: r in puts <==> r < c.n && Remote(c, q, r) && r % (c.ctas * c.dim) == tid
    ensures NoRepeats(puts)
  {
    hide Remote;
    var nthreads := c.ctas * c.dim;
    puts := [];
    var r := tid;
    FirstOfStride(tid, nthreads);
    while r < c.n
      invariant r % nthreads == tid
      invariant forall p: nat :: p in puts <==> p < c.n && p < r && Remote(c, q, p) && p % nthreads == tid
      invariant forall i, j :: 0 <= i < j < |puts| ==> puts[i] != puts[j]
    {
      if Remote(c, q, r) {
        puts := puts + [r];
      }
      NextOfStride(r, nthreads);
      r := r + nthreads;
    }
  }

  /** Over the put loops of all threads of all blocks of rank q, a peer is put to exactly once if it
      is remote and never otherwise, by a thread of the block numbered like its receiving block. */
  lemma {:induction false} PutOnce(c: Config, q: nat, logs: seq<seq<nat>>, r: nat, b: nat)
    requires ValidConfig(c) && r < c.n && b < c.ctas && |logs| == c.ctas * c.dim
    requires forall tid :: 0 <= tid < |logs| ==>
               NoRepeats(logs[tid]) && forall p: nat :: p in logs[tid] <==> p < c.n && Remote(c, q, p) && p % (c.ctas * c.dim) == tid
    ensures Occurrences(logs, r) == if Remote(c, q, r) then 1 else 0
    ensures r in Targets(c, q, b) <==> exists tid :: 0 <= tid < |logs| && r in logs[tid] && tid / c.dim == b
  {
    hide Remote;
    var owner := r % (c.ctas * c.dim);
    OccursOnce(logs, r, Remote(c, q, r), owner);
    if r in Targets(c, q, b) {
      assert r in logs[owner] && owner / c.dim == b;
    }
  }

  /** The thread that puts to r belongs to the block numbered like r's receiving block, so the
      signal it raises is the one r waits for. */
  lemma {:induction false} SenderAndReceiverAgree(c: Config, q: nat, r: nat, block: nat, thread: nat)
    requires ValidConfig(c) && r < c.n && block < c.ctas && thread < c.dim
    requires r % (c.ctas * c.dim) == thread + block * c.dim && Remote(c, q, r)
    ensures ReceivingCta(c, r) == block && r in Targets(c, q, block)
  {
    var t := r % (c.ctas * c.dim);
    DivModOf(block, thread, c.dim);
    hide Remote;
  }

  // ---- runs exist

  lemma {:induction false} RunStarts(c: Config)
    requires ValidConfig(c)
    ensures IsRun(c, [Initial(c)], [])
  {
  }

  /** Every run can go on, by any action that is enabled; NeverStuck says that there is one. */
  lemma {:induction false} RunGoesOn(c: Config, run: seq<State>, moves: seq<Action>, a: Action)
    requires IsRun(c, run, moves) && Shaped(c, run[|moves|]) && Enabled(c, run[|moves|], a)
    ensures IsRun(c, run + [Step(c, run[|moves|], a)], moves + [a])
  {
    hide Step, Enabled, Shaped, Initial;
  }
}
