/** The two-epoch Allreduce of src/common.cu (its Barrier is the same protocol without a value):
    n threads share two counters, two accumulators, two locks and two condition variables, and
    alternate between them from call to call. A state machine over its steps, for any schedule,
    with sleeping, notification, spurious wake-ups and the accumulator read after the unlock. */
module Episodes {
  import opened Arith
  import opened Sums

  /** n threads make `calls` calls each; thread t submits input(t, k) to episode k. An episode is
      a broadcast from thread 0 or a reduction by op, whose total `finish` turns into the result
      (average and reduction over processes). Nothing is assumed of op. */
  datatype Config<!T> = Config(n: nat, calls: nat, input: (nat, nat) -> T, broadcast: nat -> bool,
                               op: (nat, T, T) -> T, finish: (nat, T) -> T)

  datatype Pc = Outside | Locked | Testing | Asleep | Woken | Reading

  /** A thread that has completed `done` calls, with the values they returned. */
  datatype Thread<T> = Thread(pc: Pc, done: nat, results: seq<T>)

  const NOBODY := -1

  /** The last two fields record the order of arrival in this episode and in the finished ones. */
  datatype State<T> = State(counter: seq<nat>, acc: seq<T>, lock: seq<int>, threads: seq<Thread<T>>,
                            arrivals: seq<nat>, orders: seq<seq<nat>>)

  datatype Action = Acquire | Arrive | Sleep | SpuriousWake | Relock | Finish | Leave | Read

  // ---- steps

  /** The value of the accumulator after a thread's contribution. */
  function Absorb<T>(c: Config<T>, k: nat, first: bool, t: nat, acc: T): T
  {
    if c.broadcast(k) then (if t == 0 then c.input(t, k) else acc)
    else if first then c.input(t, k) else c.op(k, acc, c.input(t, k))
  }

  predicate Shaped<T>(c: Config<T>, s: State<T>)
  {
    |s.counter| == |s.acc| == |s.lock| == 2 && |s.threads| == c.n && c.n > 0
  }

  function Epoch<T>(s: State<T>, t: nat): nat
    requires t < |s.threads|
  {
    s.threads[t].done % 2
  }

  predicate IsLast<T>(c: Config<T>, t: nat) { t + 1 == c.n }

  /** The condition a thread waits for. */
  predicate Released<T>(c: Config<T>, s: State<T>, t: nat)
    requires Shaped(c, s) && t < c.n
  {
    if IsLast(c, t) then s.counter[Epoch(s, t)] == c.n else s.counter[Epoch(s, t)] == 0
  }

  predicate Enabled<T>(c: Config<T>, s: State<T>, t: nat, a: Action)
    requires Shaped(c, s) && t < c.n
  {
    match a
    case Acquire => s.threads[t].pc == Outside && s.threads[t].done < c.calls && s.lock[Epoch(s, t)] == NOBODY
    case Arrive => s.threads[t].pc == Locked
    case Sleep => s.threads[t].pc == Testing && !Released(c, s, t)
    case SpuriousWake => s.threads[t].pc == Asleep
    case Relock => s.threads[t].pc == Woken && s.lock[Epoch(s, t)] == NOBODY
    case Finish => s.threads[t].pc == Testing && Released(c, s, t) && IsLast(c, t)
    case Leave => s.threads[t].pc == Testing && Released(c, s, t) && !IsLast(c, t)
    case Read => s.threads[t].pc == Reading
  }

  /** notify_all on the condition variable of one epoch. */
  function Notify<T>(threads: seq<Thread<T>>, e: nat): (threads': seq<Thread<T>>)
    ensures |threads'| == |threads|
    ensures forall i :: 0 <= i < |threads| ==>
              threads'[i] == if threads[i].pc == Asleep && threads[i].done % 2 == e
                             then threads[i].(pc := Woken) else threads[i]
  {
    if |threads| == 0 then []
    else
      var last := threads[|threads| - 1];
      Notify(threads[..|threads| - 1], e)
      + [if last.pc == Asleep && last.done % 2 == e then last.(pc := Woken) else last]
  }

  function Goto<T>(s: State<T>, t: nat, pc: Pc): State<T>
    requires t < |s.threads|
  {
    s.(threads := s.threads[t := s.threads[t].(pc := pc)])
  }

  function Step<T>(c: Config<T>, s: State<T>, t: nat, a: Action): State<T>
    requires Shaped(c, s) && t < c.n && Enabled(c, s, t, a)
  {
    var e := Epoch(s, t);
    match a
    case Acquire => Goto(s, t, Locked).(lock := s.lock[e := t])
    case Arrive =>
      var s' := Goto(s, t, Testing).(
                  acc := s.acc[e := Absorb(c, s.threads[t].done, s.counter[e] == 0, t, s.acc[e])],
                  counter := s.counter[e := s.counter[e] + 1],
                  arrivals := s.arrivals + [t]);
      if s'.counter[e] == c.n then s'.(threads := Notify(s'.threads, e)) else s'
    case Sleep => Goto(s, t, Asleep).(lock := s.lock[e := NOBODY])
    case SpuriousWake => Goto(s, t, Woken)
    case Relock => Goto(s, t, Testing).(lock := s.lock[e := t])
    case Finish =>
      var k := s.threads[t].done;
      var s' := Goto(s, t, Reading).(
                  acc := s.acc[e := if c.broadcast(k) then s.acc[e] else c.finish(k, s.acc[e])],
                  counter := s.counter[e := 0], lock := s.lock[e := NOBODY],
                  arrivals := [], orders := s.orders + [s.arrivals]);
      s'.(threads := Notify(s'.threads, e))
    case Leave => Goto(s, t, Reading).(lock := s.lock[e := NOBODY])
    case Read =>
      var th := s.threads[t];
      s.(threads := s.threads[t := Thread(Outside, th.done + 1, th.results + [s.acc[e]])])
  }

  function Initial<T>(c: Config<T>, junk: T): State<T>
  {
    State([0, 0], [junk, junk], [NOBODY, NOBODY], seq(c.n, i => Thread(Outside, 0, [])), [], [])
  }

  // ---- what an episode computes

  /** The reduction of the inputs of the given threads, in that order. */
  function Fold<T>(c: Config<T>, k: nat, order: seq<nat>): T
    requires |order| > 0
  {
    var t := order[|order| - 1];
    if |order| == 1 then c.input(t, k) else c.op(k, Fold(c, k, order[..|order| - 1]), c.input(t, k))
  }

  function Value<T>(c: Config<T>, k: nat, order: seq<nat>): T
    requires |order| > 0
  {
    if c.broadcast(k) then c.input(0, k) else c.finish(k, Fold(c, k, order))
  }

  /** acc holds the contributions of the threads that have arrived. */
  ghost predicate Accumulated<T>(c: Config<T>, k: nat, order: seq<nat>, acc: T)
  {
    if c.broadcast(k) then 0 in order ==> acc == c.input(0, k)
    else |order| > 0 ==> acc == Fold(c, k, order)
  }

  // ---- the invariant

  /** Past the increment of the counter, in the current call. */
  predicate Arrived<T>(th: Thread<T>) { th.pc != Outside && th.pc != Locked }

  predicate HoldsLock<T>(th: Thread<T>) { th.pc == Locked || th.pc == Testing }

  predicate ThreadInv<T>(c: Config<T>, s: State<T>, t: nat)
    requires Shaped(c, s) && t < c.n
  {
    var th, k := s.threads[t], |s.orders|;
    && th.done <= k <= th.done + 1
    && (th.done == k ==> (Arrived(th) <==> t in s.arrivals) && th.pc != Reading)
    && (th.done == k ==> th.pc == Asleep && IsLast(c, t) ==> |s.arrivals| != c.n)
    && (th.done < k ==> Arrived(th) && th.pc != Asleep && t !in s.arrivals && (IsLast(c, t) ==> th.pc == Reading))
    && th.done <= c.calls && (th.pc != Outside ==> th.done < c.calls)
    && (HoldsLock(th) <==> s.lock[th.done % 2] == t)
    && |th.results| == th.done
  }

  predicate LocksInv<T>(c: Config<T>, s: State<T>)
    requires Shaped(c, s)
  {
    forall e :: 0 <= e < 2 ==>
      s.lock[e] == NOBODY || (0 <= s.lock[e] < c.n && HoldsLock(s.threads[s.lock[e]]) && s.threads[s.lock[e]].done % 2 == e)
  }

  predicate OrdersInv<T>(c: Config<T>, s: State<T>)
  {
    forall k :: 0 <= k < |s.orders| ==> IsPermutation(s.orders[k]) && |s.orders[k]| == c.n
  }

  ghost predicate ResultsInv<T>(c: Config<T>, s: State<T>)
    requires c.n > 0 && OrdersInv(c, s)
  {
    forall t, k :: 0 <= t < |s.threads| && 0 <= k < |s.threads[t].results| && k < |s.orders| ==>
      s.threads[t].results[k] == Value(c, k, s.orders[k])
  }

  ghost predicate SlotsInv<T>(c: Config<T>, s: State<T>)
    requires Shaped(c, s) && OrdersInv(c, s)
  {
    var k := |s.orders|;
    && s.counter[k % 2] == |s.arrivals| && s.counter[(k + 1) % 2] == 0
    && Accumulated(c, k, s.arrivals, s.acc[k % 2])
    && (k > 0 ==> s.acc[(k + 1) % 2] == Value(c, k - 1, s.orders[k - 1]))
  }

  ghost predicate Inv<T>(c: Config<T>, s: State<T>)
  {
    && Shaped(c, s)
    && Distinct(s.arrivals) && Bounded(s.arrivals, c.n)
    && (forall t: nat :: t < c.n ==> ThreadInv(c, s, t))
    && LocksInv(c, s) && OrdersInv(c, s) && ResultsInv(c, s) && SlotsInv(c, s)
  }

  lemma {:induction false} InitialInv<T>(c: Config<T>, junk: T)
    requires c.n > 0
    ensures Inv(c, Initial(c, junk))
  {
    hide Value, Fold;
  }

  /** Every step keeps the invariant of every thread. */
  lemma {:induction false} QuietThread<T>(c: Config<T>, s: State<T>, t: nat, a: Action, u: nat)
    requires Inv(c, s) && t < c.n && u < c.n && Enabled(c, s, t, a) && Quiet(a)
    ensures ThreadInv(c, Step(c, s, t, a), u)
  {
    hide Value, Fold, Distinct, IsPermutation, Bounded, Accumulated, OrdersInv, ResultsInv, LocksInv, SlotsInv;
    assert ThreadInv(c, s, u) && ThreadInv(c, s, t);
    CounterOf(c, s, t);
  }

  lemma {:induction false} CounterOf<T>(c: Config<T>, s: State<T>, t: nat)
    requires Inv(c, s) && t < c.n
    ensures s.counter[Epoch(s, t)] == if s.threads[t].done == |s.orders| then |s.arrivals| else 0
  {
    hide Distinct, Bounded, LocksInv, ResultsInv, Accumulated;
    assert ThreadInv(c, s, t);
  }

  /** The steps that only move one thread and its lock. */
  predicate Quiet(a: Action) { a != Arrive && a != Finish && a != Read }

  lemma {:induction false} QuietStep<T>(c: Config<T>, s: State<T>, t: nat, a: Action)
    requires Inv(c, s) && t < c.n && Enabled(c, s, t, a) && Quiet(a)
    ensures Inv(c, Step(c, s, t, a))
  {
    hide Value, Fold, Distinct, IsPermutation, Bounded, Accumulated, ThreadInv, LocksInv, HoldsLock, Released;
    QuietLocks(c, s, t, a);
    forall u: nat | u < c.n
      ensures ThreadInv(c, Step(c, s, t, a), u)
    {
      QuietThread(c, s, t, a, u);
    }
  }

  lemma {:induction false} QuietLocks<T>(c: Config<T>, s: State<T>, t: nat, a: Action)
    requires Inv(c, s) && t < c.n && Enabled(c, s, t, a) && Quiet(a)
    ensures Shaped(c, Step(c, s, t, a)) && LocksInv(c, Step(c, s, t, a))
  {
    hide Distinct, Bounded, OrdersInv, ResultsInv, SlotsInv, Released;
    assert ThreadInv(c, s, t);
  }

  lemma {:induction false} NewArrival<T>(c: Config<T>, s: State<T>, t: nat)
    requires Inv(c, s) && t < c.n && Enabled(c, s, t, Arrive)
    ensures s.threads[t].done == |s.orders| && t !in s.arrivals && s.counter[|s.orders| % 2] == |s.arrivals|
    ensures Distinct(s.arrivals + [t]) && Bounded(s.arrivals + [t], c.n) && |s.arrivals + [t]| <= c.n
    ensures Accumulated(c, |s.orders|, s.arrivals + [t],
                        Absorb(c, |s.orders|, |s.arrivals| == 0, t, s.acc[|s.orders| % 2]))
  {
    assert ThreadInv(c, s, t);
    Pigeonhole(s.arrivals + [t], c.n);
    assert (s.arrivals + [t])[..|s.arrivals|] == s.arrivals;
  }

  lemma {:induction false} ArriveThread<T>(c: Config<T>, s: State<T>, t: nat, u: nat)
    requires Inv(c, s) && t < c.n && u < c.n && Enabled(c, s, t, Arrive)
    ensures ThreadInv(c, Step(c, s, t, Arrive), u)
  {
    hide Value, Fold, Distinct, IsPermutation, Bounded, Absorb, Accumulated, OrdersInv, ResultsInv, LocksInv, SlotsInv;
    NewArrival(c, s, t);
    assert ThreadInv(c, s, u) && ThreadInv(c, s, t);
    assert u in s.arrivals + [t] <==> u in s.arrivals || u == t;
  }

  lemma {:induction false} ArriveLocks<T>(c: Config<T>, s: State<T>, t: nat)
    requires Shaped(c, s) && LocksInv(c, s) && t < c.n && Enabled(c, s, t, Arrive)
    ensures Shaped(c, Step(c, s, t, Arrive)) && LocksInv(c, Step(c, s, t, Arrive))
  {
    hide Absorb;
  }

  lemma {:induction false} ArriveShared<T>(c: Config<T>, s: State<T>, t: nat)
    requires Inv(c, s) && t < c.n && Enabled(c, s, t, Arrive)
    ensures var s' := Step(c, s, t, Arrive);
      && Shaped(c, s') && s'.arrivals == s.arrivals + [t]
      && OrdersInv(c, s') && ResultsInv(c, s') && SlotsInv(c, s')
  {
    hide Value, Fold, Distinct, IsPermutation, Bounded, Absorb, Accumulated, ThreadInv, LocksInv, ResultsInv, Released, HoldsLock;
    NewArrival(c, s, t);
    ArriveResults(c, s, t);
  }

  lemma {:induction false} ArriveResults<T>(c: Config<T>, s: State<T>, t: nat)
    requires Shaped(c, s) && OrdersInv(c, s) && ResultsInv(c, s) && t < c.n && Enabled(c, s, t, Arrive)
    ensures OrdersInv(c, Step(c, s, t, Arrive)) && ResultsInv(c, Step(c, s, t, Arrive))
  {
    hide Value, IsPermutation, Absorb;
  }

  lemma {:induction false} ArriveStep<T>(c: Config<T>, s: State<T>, t: nat)
    requires Inv(c, s) && t < c.n && Enabled(c, s, t, Arrive)
    ensures Inv(c, Step(c, s, t, Arrive))
  {
    hide Step, Distinct, Bounded, ThreadInv, LocksInv, OrdersInv, ResultsInv, SlotsInv, Absorb, Accumulated;
    NewArrival(c, s, t);
    ArriveShared(c, s, t);
    ArriveLocks(c, s, t);
    forall u: nat | u < c.n
      ensures ThreadInv(c, Step(c, s, t, Arrive), u)
    {
      ArriveThread(c, s, t, u);
    }
  }

  /** When the last thread sees a full counter, everybody is in and nobody is a call behind. */
  lemma {:induction false} FullHouse<T>(c: Config<T>, s: State<T>, t: nat)
    requires Inv(c, s) && t < c.n && Enabled(c, s, t, Finish)
    ensures s.threads[t].done == |s.orders| && |s.arrivals| == c.n && IsPermutation(s.arrivals)
    ensures forall u: nat :: u < c.n ==>
              u in s.arrivals && s.threads[u].done == |s.threads[u].results| == |s.orders|
    ensures var k := |s.orders|;
      Value(c, k, s.arrivals) == if c.broadcast(k) then s.acc[k % 2] else c.finish(k, s.acc[k % 2])
  {
    hide Fold, LocksInv, ResultsInv, OrdersInv;
    assert ThreadInv(c, s, t);
    forall u: nat | u < c.n
      ensures u in s.arrivals && s.threads[u].done == |s.threads[u].results| == |s.orders|
    {
      assert ThreadInv(c, s, u);
      PermutationHits(s.arrivals, u);
    }
  }

  lemma {:induction false} FinishThread<T>(c: Config<T>, s: State<T>, t: nat, u: nat)
    requires Inv(c, s) && t < c.n && u < c.n && Enabled(c, s, t, Finish)
    ensures ThreadInv(c, Step(c, s, t, Finish), u)
  {
    hide Value, Fold, Distinct, IsPermutation, Bounded, Accumulated, OrdersInv, ResultsInv, SlotsInv, LocksInv;
    FullHouse(c, s, t);
    assert ThreadInv(c, s, u) && ThreadInv(c, s, t);
  }

  lemma {:induction false} FinishShared<T>(c: Config<T>, s: State<T>, t: nat)
    requires Inv(c, s) && t < c.n && Enabled(c, s, t, Finish)
    ensures var s' := Step(c, s, t, Finish);
      && Shaped(c, s') && s'.arrivals == [] && LocksInv(c, s')
      && OrdersInv(c, s') && ResultsInv(c, s') && SlotsInv(c, s')
  {
    hide Value, Fold, Accumulated, Distinct, IsPermutation, Bounded, ThreadInv;
    FullHouse(c, s, t);
    EmptyAccumulated(c, |s.orders| + 1, s.acc[(|s.orders| + 1) % 2]);
    var s' := Step(c, s, t, Finish);
    assert s'.orders[|s.orders|] == s.arrivals;
    assert forall k :: 0 <= k < |s.orders| ==> s'.orders[k] == s.orders[k];
  }

  lemma {:induction false} FinishStep<T>(c: Config<T>, s: State<T>, t: nat)
    requires Inv(c, s) && t < c.n && Enabled(c, s, t, Finish)
    ensures Inv(c, Step(c, s, t, Finish))
  {
    hide Step, Distinct, Bounded, ThreadInv, LocksInv, OrdersInv, ResultsInv, SlotsInv;
    FinishShared(c, s, t);
    forall u: nat | u < c.n
      ensures ThreadInv(c, Step(c, s, t, Finish), u)
    {
      FinishThread(c, s, t, u);
    }
    NothingArrived(c.n);
  }

  lemma {:induction false} EmptyAccumulated<T>(c: Config<T>, k: nat, acc: T)
    ensures Accumulated(c, k, [], acc)
  {
  }

  lemma {:induction false} NothingArrived(n: nat)
    ensures Distinct([]) && Bounded([], n)
  {
  }

  lemma {:induction false} ReadThread<T>(c: Config<T>, s: State<T>, t: nat, u: nat)
    requires Inv(c, s) && t < c.n && u < c.n && Enabled(c, s, t, Read)
    ensures ThreadInv(c, Step(c, s, t, Read), u)
  {
    hide Value, Fold, Distinct, IsPermutation, Bounded, Accumulated, OrdersInv, ResultsInv, SlotsInv;
    assert ThreadInv(c, s, u) && ThreadInv(c, s, t);
  }

  lemma {:induction false} ReadStep<T>(c: Config<T>, s: State<T>, t: nat)
    requires Inv(c, s) && t < c.n && Enabled(c, s, t, Read)
    ensures Inv(c, Step(c, s, t, Read))
  {
    hide Value, Fold, Distinct, IsPermutation, Bounded, Accumulated, ThreadInv, ResultsInv, Released;
    ReadResults(c, s, t);
    forall u: nat | u < c.n
      ensures ThreadInv(c, Step(c, s, t, Read), u)
    {
      ReadThread(c, s, t, u);
    }
  }

  lemma {:induction false} ReadResults<T>(c: Config<T>, s: State<T>, t: nat)
    requires Inv(c, s) && t < c.n && Enabled(c, s, t, Read)
    ensures Shaped(c, Step(c, s, t, Read)) && OrdersInv(c, Step(c, s, t, Read)) && ResultsInv(c, Step(c, s, t, Read))
    ensures LocksInv(c, Step(c, s, t, Read))
  {
    hide Value, Fold, Distinct, IsPermutation, Bounded, Accumulated;
    assert ThreadInv(c, s, t);
  }

  lemma {:induction false} StepInv<T>(c: Config<T>, s: State<T>, t: nat, a: Action)
    requires Inv(c, s) && t < c.n && Enabled(c, s, t, a)
    ensures Inv(c, Step(c, s, t, a))
  {
    hide Step, Enabled;
    match a
    case Arrive => ArriveStep(c, s, t);
    case Finish => FinishStep(c, s, t);
    case Read => ReadStep(c, s, t);
    case _ => QuietStep(c, s, t, a);
  }

  // ---- runs

  datatype Move = Move(thread: nat, action: Action)

  /** A run of the system: any schedule whose steps are enabled when they are taken. */
  ghost predicate IsRun<T>(c: Config<T>, junk: T, run: seq<State<T>>, moves: seq<Move>)
  {
    && c.n > 0 && |run| == |moves| + 1 && run[0] == Initial(c, junk)
    && forall i :: 0 <= i < |moves| ==>
         && Shaped(c, run[i]) && moves[i].thread < c.n && Enabled(c, run[i], moves[i].thread, moves[i].action)
         && run[i + 1] == Step(c, run[i], moves[i].thread, moves[i].action)
  }

  lemma {:induction false} RunInv<T>(c: Config<T>, junk: T, run: seq<State<T>>, moves: seq<Move>, i: nat)
    requires IsRun(c, junk, run, moves) && i < |run|
    ensures Inv(c, run[i])
  {
    hide Inv, Step, Enabled, Initial;
    if i == 0 {
      InitialInv(c, junk);
    } else {
      RunInv(c, junk, run, moves, i - 1);
      StepInv(c, run[i - 1], moves[i - 1].thread, moves[i - 1].action);
    }
  }

  /** How many calls a thread has entered, counting from its increment of the counter. */
  function Entered<T>(th: Thread<T>): nat { th.done + if Arrived(th) then 1 else 0 }

  /** How many calls a thread has left, counting from its unlock. */
  function Left<T>(th: Thread<T>): nat { th.done + if th.pc == Reading then 1 else 0 }

  /** Nobody leaves a call before everybody has entered it. */
  lemma {:induction false} Rendezvous<T>(c: Config<T>, junk: T, run: seq<State<T>>, moves: seq<Move>, i: nat, t: nat, u: nat)
    requires IsRun(c, junk, run, moves) && i < |run| && t < c.n && u < c.n
    ensures |run[i].threads| == c.n && Left(run[i].threads[t]) <= Entered(run[i].threads[u])
  {
    RunInv(c, junk, run, moves, i);
    hide IsRun;
    assert ThreadInv(c, run[i], t) && ThreadInv(c, run[i], u);
  }

  /** What thread t's k-th call returns, or will read once it has left the lock. */
  function ReturnOf<T>(s: State<T>, t: nat, k: nat): T
    requires t < |s.threads| && |s.acc| == 2 && (k < |s.threads[t].results| || k >= s.threads[t].done)
  {
    if k < s.threads[t].done && k < |s.threads[t].results| then s.threads[t].results[k] else s.acc[k % 2]
  }

  /** Every thread's k-th call returns one and the same value: the reduction of exactly the n
      inputs of episode k, in the order of arrival (or thread 0's input, for a broadcast). The
      accumulator still holds it when it is read after the unlock. */
  lemma {:induction false} Agreement<T>(c: Config<T>, junk: T, run: seq<State<T>>, moves: seq<Move>, i: nat, t: nat, k: nat)
    requires IsRun(c, junk, run, moves) && i < |run| && t < c.n
    ensures |run[i].threads| == c.n && |run[i].acc| == 2 && |run[i].threads[t].results| == run[i].threads[t].done
    ensures k < Left(run[i].threads[t]) ==>
              && k < |run[i].orders| && |run[i].orders[k]| == c.n && IsPermutation(run[i].orders[k])
              && ReturnOf(run[i], t, k) == Value(c, k, run[i].orders[k])
  {
    RunInv(c, junk, run, moves, i);
    hide IsRun;
    ReturnsAgree(c, run[i], t, k);
  }

  lemma {:induction false} ReturnsAgree<T>(c: Config<T>, s: State<T>, t: nat, k: nat)
    requires Inv(c, s) && t < c.n
    ensures |s.threads[t].results| == s.threads[t].done
    ensures k < Left(s.threads[t]) ==>
              && k < |s.orders| && |s.orders[k]| == c.n && IsPermutation(s.orders[k])
              && ReturnOf(s, t, k) == Value(c, k, s.orders[k])
  {
    hide Value, IsPermutation, Accumulated, LocksInv, Distinct, Bounded;
    assert ThreadInv(c, s, t);
  }

  /** The counter of the current epoch counts the threads in this episode; the other one is 0. */
  lemma {:induction false} CountersSeparate<T>(c: Config<T>, junk: T, run: seq<State<T>>, moves: seq<Move>, i: nat, t: nat)
    requires IsRun(c, junk, run, moves) && i < |run| && t < c.n
    ensures |run[i].threads| == c.n && |run[i].counter| == 2 && Distinct(run[i].arrivals)
    ensures run[i].counter[|run[i].orders| % 2] == |run[i].arrivals| && run[i].counter[(|run[i].orders| + 1) % 2] == 0
    ensures t in run[i].arrivals <==> run[i].threads[t].done == |run[i].orders| && Arrived(run[i].threads[t])
  {
    RunInv(c, junk, run, moves, i);
    hide IsRun, Distinct, Value, Accumulated, LocksInv, ResultsInv;
    assert ThreadInv(c, run[i], t);
  }

  // ---- reductions that do not depend on the order

  ghost predicate Commutes<T(!new)>(c: Config<T>, k: nat)
  {
    && (forall x: T, y: T :: c.op(k, x, y) == c.op(k, y, x))
    && (forall x: T, y: T, z: T :: c.op(k, c.op(k, x, y), z) == c.op(k, x, c.op(k, y, z)))
  }

  /** Any contribution can be taken last. */
  lemma {:induction false} TakeLast<T(!new)>(c: Config<T>, k: nat, order: seq<nat>, i: nat)
    requires Commutes(c, k) && i < |order| && |order| > 1
    ensures Fold(c, k, order) == c.op(k, Fold(c, k, Without(order, i)), c.input(order[i], k))
  {
    hide Fold, Commutes, Without;
    var n := |order| - 1;
    WithoutFromEnd(order, i);
    FoldLast(c, k, order);
    FoldLast(c, k, Without(order, i));
    if i < n {
      var y, z := c.input(order[i], k), c.input(order[n], k);
      if n == 1 {
        FoldLast(c, k, order[..1]);
        SwapOperands(c, k, y, z);
      } else {
        TakeLast(c, k, order[..n], i);
        SwapLast(c, k, Fold(c, k, Without(order[..n], i)), y, z);
      }
    }
  }

  lemma {:induction false} FoldLast<T>(c: Config<T>, k: nat, order: seq<nat>)
    requires |order| > 0
    ensures |order| == 1 ==> Fold(c, k, order) == c.input(order[0], k)
    ensures |order| > 1 ==>
              Fold(c, k, order) == c.op(k, Fold(c, k, order[..|order| - 1]), c.input(order[|order| - 1], k))
  {
  }

  lemma {:induction false} WithoutFromEnd(order: seq<nat>, i: nat)
    requires i < |order|
    ensures |Without(order, i)| == |order| - 1
    ensures i == |order| - 1 ==> Without(order, i) == order[..i]
    ensures i < |order| - 1 ==> var w := Without(order, i);
              w[|w| - 1] == order[|order| - 1] && w[..|w| - 1] == Without(order[..|order| - 1], i)
  {
  }

  lemma {:induction false} SwapOperands<T(!new)>(c: Config<T>, k: nat, y: T, z: T)
    requires Commutes(c, k)
    ensures c.op(k, y, z) == c.op(k, z, y)
  {
  }

  lemma {:induction false} SwapLast<T(!new)>(c: Config<T>, k: nat, x: T, y: T, z: T)
    requires Commutes(c, k)
    ensures c.op(k, c.op(k, x, y), z) == c.op(k, c.op(k, x, z), y)
  {
    assert c.op(k, c.op(k, x, y), z) == c.op(k, x, c.op(k, y, z));
    assert c.op(k, c.op(k, x, z), y) == c.op(k, x, c.op(k, z, y));
    assert c.op(k, y, z) == c.op(k, z, y);
  }

  /** For a commutative and associative operation (minimum, maximum, integer sum) the result of
      an episode does not depend on who arrived when. */
  lemma {:induction false} OrderIrrelevant<T(!new)>(c: Config<T>, k: nat, p: seq<nat>, q: seq<nat>)
    requires Commutes(c, k) && |p| > 0 && multiset(p) == multiset(q)
    ensures |q| > 0 && Fold(c, k, p) == Fold(c, k, q)
    decreases |p|
  {
    hide Fold, Commutes;
    SameLength(p, q);
    var n := |q| - 1;
    assert q[n] in multiset(q);
    var i :| 0 <= i < |p| && p[i] == q[n];
    if n == 0 {
      assert p == q;
    } else {
      RemoveFromBoth(p, i, q);
      TakeLast(c, k, p, i);
      TakeLast(c, k, q, n);
      assert Without(q, n) == q[..n];
      OrderIrrelevant(c, k, Without(p, i), q[..n]);
    }
  }

  lemma {:induction false} SameLength(p: seq<nat>, q: seq<nat>)
    requires multiset(p) == multiset(q)
    ensures |p| == |q|
  {
    assert |multiset(p)| == |p| && |multiset(q)| == |q|;
  }

  lemma {:induction false} RemoveFromBoth(p: seq<nat>, i: nat, q: seq<nat>)
    requires i < |p| && |q| > 0 && p[i] == q[|q| - 1] && multiset(p) == multiset(q)
    ensures multiset(Without(p, i)) == multiset(q[..|q| - 1])
  {
    hide Without;
    RemoveOne(p, i);
    RemoveOne(q, |q| - 1);
    WithoutFromEnd(q, |q| - 1);
  }

  lemma {:induction false} RemoveOne(p: seq<nat>, i: nat)
    requires i < |p|
    ensures multiset(Without(p, i)) == multiset(p) - multiset{p[i]}
  {
    assert p == (p[..i] + [p[i]]) + p[i + 1..];
    assert multiset(p) == multiset(p[..i] + [p[i]]) + multiset(p[i + 1..]);
  }

  // ---- progress

  predicate Finished<T>(c: Config<T>, s: State<T>)
  {
    forall t :: 0 <= t < |s.threads| ==> s.threads[t].pc == Outside && s.threads[t].done == c.calls
  }

  /** What a thread can do by itself: nothing if it sleeps, is finished, or waits for a lock. */
  ghost predicate CanMove<T>(c: Config<T>, s: State<T>, t: nat)
    requires Shaped(c, s) && t < c.n
  {
    exists a :: a != SpuriousWake && Enabled(c, s, t, a)
  }

  lemma {:induction false} LockedCanMove<T>(c: Config<T>, s: State<T>, t: nat)
    requires Shaped(c, s) && t < c.n && HoldsLock(s.threads[t])
    ensures CanMove(c, s, t)
  {
    if s.threads[t].pc == Locked {
      assert Enabled(c, s, t, Arrive);
    } else if !Released(c, s, t) {
      assert Enabled(c, s, t, Sleep);
    } else if IsLast(c, t) {
      assert Enabled(c, s, t, Finish);
    } else {
      assert Enabled(c, s, t, Leave);
    }
  }

  lemma {:induction false} FreeCanMove<T>(c: Config<T>, s: State<T>, t: nat)
    requires Shaped(c, s) && t < c.n && s.lock[Epoch(s, t)] == NOBODY && s.threads[t].pc != Asleep
    requires s.threads[t].pc == Outside ==> s.threads[t].done < c.calls
    ensures CanMove(c, s, t)
  {
    match s.threads[t].pc
    case Outside => assert Enabled(c, s, t, Acquire);
    case Woken => assert Enabled(c, s, t, Relock);
    case Reading => assert Enabled(c, s, t, Read);
    case Locked => LockedCanMove(c, s, t);
    case Testing => LockedCanMove(c, s, t);
  }

  /** Not all threads can be asleep: the last one is notified when the counter is full. */
  lemma {:induction false} NotAllAsleep<T>(c: Config<T>, s: State<T>, t: nat)
    requires Inv(c, s) && t < c.n && s.threads[t].pc == Asleep
    ensures exists u: nat :: u < c.n && s.threads[u].pc != Asleep && (s.threads[u].pc == Outside ==> s.threads[u].done < c.calls)
  {
    hide SlotsInv, ResultsInv, OrdersInv, LocksInv, Distinct;
    assert ThreadInv(c, s, t) && ThreadInv(c, s, c.n - 1);
    if forall u: nat :: u < c.n ==> s.threads[u].pc == Asleep {
      forall u: nat | u < c.n
        ensures u in s.arrivals
      {
        assert ThreadInv(c, s, u);
      }
      AllPresent(s.arrivals, c.n);
      Pigeonhole(s.arrivals, c.n);
    } else {
      var u: nat :| u < c.n && s.threads[u].pc != Asleep;
      assert ThreadInv(c, s, u);
    }
  }

  /** No deadlock: unless all calls are done, some thread can move without a spurious wake-up. */
  lemma {:induction false} NoDeadlock<T>(c: Config<T>, junk: T, run: seq<State<T>>, moves: seq<Move>, i: nat)
    requires IsRun(c, junk, run, moves) && i < |run|
    ensures Shaped(c, run[i])
    ensures Finished(c, run[i]) || exists t: nat :: t < c.n && CanMove(c, run[i], t)
  {
    RunInv(c, junk, run, moves, i);
    hide IsRun;
    if !Finished(c, run[i]) {
      SomeoneMoves(c, run[i]);
    }
  }

  lemma {:induction false} SomeoneMoves<T>(c: Config<T>, s: State<T>)
    requires Inv(c, s) && !Finished(c, s)
    ensures exists t: nat :: t < c.n && CanMove(c, s, t)
  {
    hide CanMove, SlotsInv, ResultsInv, OrdersInv, Distinct;
    var t: nat :| t < c.n && !(s.threads[t].pc == Outside && s.threads[t].done == c.calls);
    assert ThreadInv(c, s, t);
    if s.threads[t].pc == Asleep {
      NotAllAsleep(c, s, t);
      t :| t < c.n && s.threads[t].pc != Asleep && (s.threads[t].pc == Outside ==> s.threads[t].done < c.calls);
    }
    var e := Epoch(s, t);
    if s.lock[e] == NOBODY {
      FreeCanMove(c, s, t);
    } else {
      LockedCanMove(c, s, s.lock[e]);
    }
  }

  // ---- every schedule completes

  /** Entries, exits and reads a thread has still to make. */
  function Major<T>(c: Config<T>, th: Thread<T>): int
  {
    3 * (c.calls - th.done) - (if th.pc == Reading then 2 else if Arrived(th) then 1 else 0)
  }

  /** Lock and sleep steps it can make before the next of these. */
  function Minor<T>(th: Thread<T>): int
  {
    match th.pc
    case Outside => 1
    case Testing => 1
    case Woken => 2
    case _ => 0
  }

  function Majors<T>(c: Config<T>, ths: seq<Thread<T>>): (xs: seq<int>)
    ensures |xs| == |ths| && forall i :: 0 <= i < |ths| ==> xs[i] == Major(c, ths[i])
  {
    if |ths| == 0 then [] else Majors(c, ths[..|ths| - 1]) + [Major(c, ths[|ths| - 1])]
  }

  function Minors<T>(ths: seq<Thread<T>>): (xs: seq<int>)
    ensures |xs| == |ths| && forall i :: 0 <= i < |ths| ==> xs[i] == Minor(ths[i])
  {
    if |ths| == 0 then [] else Minors(ths[..|ths| - 1]) + [Minor(ths[|ths| - 1])]
  }

  lemma {:induction false} MinorRange<T>(ths: seq<Thread<T>>)
    ensures 0 <= Sum(Minors(ths)) <= 2 * |ths|
  {
    if |ths| > 0 {
      MinorRange(ths[..|ths| - 1]);
      SumSnoc(Minors(ths[..|ths| - 1]), Minor(ths[|ths| - 1]));
    }
  }

  /** A bound on the steps left, spurious wake-ups aside. */
  function Rank<T>(c: Config<T>, s: State<T>): int
  {
    Sum(Majors(c, s.threads)) * (2 * c.n + 1) + Sum(Minors(s.threads))
  }

  predicate IsMajor(a: Action) { a == Arrive || a == Finish || a == Leave || a == Read }

  lemma {:induction false} MajorsMove<T>(c: Config<T>, s: State<T>, t: nat, a: Action)
    requires Shaped(c, s) && t < c.n && Enabled(c, s, t, a)
    ensures var ths := Step(c, s, t, a).threads;
      && |ths| == c.n && Major(c, ths[t]) == Major(c, s.threads[t]) - (if IsMajor(a) then 1 else 0)
      && forall i :: 0 <= i < c.n && i != t ==> Major(c, ths[i]) == Major(c, s.threads[i])
  {
    hide Absorb, Released;
  }

  lemma {:induction false} MajorChange<T>(c: Config<T>, s: State<T>, t: nat, a: Action)
    requires Shaped(c, s) && t < c.n && Enabled(c, s, t, a)
    ensures |Step(c, s, t, a).threads| == c.n
    ensures Sum(Majors(c, Step(c, s, t, a).threads)) == Sum(Majors(c, s.threads)) - if IsMajor(a) then 1 else 0
  {
    hide Sum, Majors, Step, Enabled, Major;
    var s' := Step(c, s, t, a);
    MajorsMove(c, s, t, a);
    SumBump(Majors(c, s.threads), Majors(c, s'.threads), t, if IsMajor(a) then -1 else 0);
  }

  lemma {:induction false} MinorChange<T>(c: Config<T>, s: State<T>, t: nat, a: Action)
    requires Shaped(c, s) && t < c.n && Enabled(c, s, t, a) && !IsMajor(a)
    ensures Sum(Minors(Step(c, s, t, a).threads)) == Sum(Minors(s.threads)) + if a == SpuriousWake then 2 else -1
  {
    hide Sum, Minors, Released;
    var s' := Step(c, s, t, a);
    SumBump(Minors(s.threads), Minors(s'.threads), t, if a == SpuriousWake then 2 else -1);
  }

  /** Every step but a spurious wake-up lowers the rank, and that raises it by 2. */
  lemma {:induction false} RankFalls<T>(c: Config<T>, s: State<T>, t: nat, a: Action)
    requires Shaped(c, s) && t < c.n && Enabled(c, s, t, a)
    ensures Rank(c, Step(c, s, t, a)) <= Rank(c, s) + if a == SpuriousWake then 2 else -1
  {
    hide Step, Enabled, Sum, Majors, Minors;
    MajorChange(c, s, t, a);
    MinorRange(s.threads);
    MinorRange(Step(c, s, t, a).threads);
    if !IsMajor(a) {
      MinorChange(c, s, t, a);
    }
    OneLess(Sum(Majors(c, s.threads)), 2 * c.n + 1);
  }

  lemma {:induction false} OneLess(m: int, w: int)
    ensures (m - 1) * w == m * w - w
  {
  }

  function Wakes(moves: seq<Move>): nat
  {
    if |moves| == 0 then 0
    else Wakes(moves[..|moves| - 1]) + if moves[|moves| - 1].action == SpuriousWake then 1 else 0
  }

  lemma {:induction false} RankNonNegative<T>(c: Config<T>, s: State<T>)
    requires Inv(c, s)
    ensures Rank(c, s) >= 0
  {
    hide Sum, Inv, Majors, Minors;
    MajorsNonNegative(c, s);
    SumNonNegative(Majors(c, s.threads));
    MinorRange(s.threads);
    ProductNonNegative(Sum(Majors(c, s.threads)), 2 * c.n + 1);
  }

  lemma {:induction false} MajorsNonNegative<T>(c: Config<T>, s: State<T>)
    requires Inv(c, s)
    ensures forall t :: 0 <= t < |s.threads| ==> Majors(c, s.threads)[t] >= 0
  {
    hide SlotsInv, LocksInv, ResultsInv, OrdersInv, Distinct;
    forall t | 0 <= t < |s.threads|
      ensures Majors(c, s.threads)[t] >= 0
    {
      assert ThreadInv(c, s, t);
    }
  }

  lemma {:induction false} RankAlong<T>(c: Config<T>, junk: T, run: seq<State<T>>, moves: seq<Move>, i: nat)
    requires IsRun(c, junk, run, moves) && i < |run|
    ensures Rank(c, run[i]) <= Rank(c, run[0]) + 3 * Wakes(moves[..i]) - i
  {
    hide Rank, Step, Enabled, Initial, Inv;
    if i > 0 {
      RankAlong(c, junk, run, moves, i - 1);
      RunInv(c, junk, run, moves, i - 1);
      RankFalls(c, run[i - 1], moves[i - 1].thread, moves[i - 1].action);
      assert moves[..i][..i - 1] == moves[..i - 1];
    }
  }

  lemma {:induction false} InitialRank<T>(c: Config<T>, ths: seq<Thread<T>>)
    requires forall i :: 0 <= i < |ths| ==> ths[i].pc == Outside && ths[i].done == 0
    ensures Sum(Majors(c, ths)) == (3 * c.calls) * |ths| && Sum(Minors(ths)) == |ths|
  {
    hide Sum, Majors, Minors;
    SumConstant(Majors(c, ths), 3 * c.calls);
    SumConstant(Minors(ths), 1);
  }

  /** All schedules complete: a run with w spurious wake-ups has no more than
      3*calls*n*(2n+1) + n + 3w steps, and by NoDeadlock it can only end with all calls done. */
  lemma {:induction false} RunsAreBounded<T>(c: Config<T>, junk: T, run: seq<State<T>>, moves: seq<Move>)
    requires IsRun(c, junk, run, moves)
    ensures |moves| <= 3 * c.calls * c.n * (2 * c.n + 1) + c.n + 3 * Wakes(moves)
  {
    hide Step, Enabled, Inv, Major, Minor, Majors, Minors, Sum;
    var last := |moves|;
    RankAlong(c, junk, run, moves, last);
    RunInv(c, junk, run, moves, last);
    RankNonNegative(c, run[last]);
    InitialRank(c, run[0].threads);
    assert moves[..last] == moves;
  }

  // ---- runs exist, and can be completed

  lemma {:induction false} RunStarts<T>(c: Config<T>, junk: T)
    requires c.n > 0
    ensures IsRun(c, junk, [Initial(c, junk)], [])
  {
  }

  lemma {:induction false} RunGoesOn<T>(c: Config<T>, junk: T, run: seq<State<T>>, moves: seq<Move>, t: nat, a: Action)
    requires IsRun(c, junk, run, moves) && t < c.n && Shaped(c, run[|moves|]) && Enabled(c, run[|moves|], t, a)
    ensures IsRun(c, junk, run + [Step(c, run[|moves|], t, a)], moves + [Move(t, a)])
  {
    hide Step, Enabled, Shaped, Initial;
  }

  /** From wherever a run has come to, it can go on without spurious wake-ups until all calls are done. */
  lemma {:induction false} RunCompletes<T>(c: Config<T>, junk: T, run: seq<State<T>>, moves: seq<Move>)
    returns (run': seq<State<T>>, moves': seq<Move>)
    requires IsRun(c, junk, run, moves)
    ensures IsRun(c, junk, run', moves') && run <= run' && moves <= moves' && Wakes(moves') == Wakes(moves)
    ensures Finished(c, run'[|moves'|])
    decreases Rank(c, run[|moves|])
  {
    hide Step, Enabled, Initial, Rank, Finished, Inv, IsRun;
    RunLength(c, junk, run, moves);
    var s := run[|moves|];
    if Finished(c, s) {
      run', moves' := run, moves;
    } else {
      RunInv(c, junk, run, moves, |moves|);
      NoDeadlock(c, junk, run, moves, |moves|);
      var t: nat :| t < c.n && CanMove(c, s, t);
      var a :| a != SpuriousWake && Enabled(c, s, t, a);
      RunGoesOn(c, junk, run, moves, t, a);
      RankFalls(c, s, t, a);
      RankNonNegative(c, s);
      assert (moves + [Move(t, a)])[..|moves|] == moves;
      run', moves' := RunCompletes(c, junk, run + [Step(c, s, t, a)], moves + [Move(t, a)]);
    }
  }

  lemma {:induction false} RunLength<T>(c: Config<T>, junk: T, run: seq<State<T>>, moves: seq<Move>)
    requires IsRun(c, junk, run, moves)
    ensures |run| == |moves| + 1
  {
  }
}
