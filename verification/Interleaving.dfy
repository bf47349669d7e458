/** Threads of all ranks reading and writing peer windows element by element, in any interleaving.
    Memory is listed per element: what each peer's send and receive window holds at that index,
    and the register in which each thread accumulates it. */
module Interleaving {
  import opened Sums

  datatype Kind = Load | Store

  /** A thread adds a peer's element to its register, or stores the register to a peer. */
  datatype Event = Event(thread: nat, kind: Kind, peer: nat, elt: nat)

  datatype Cell<T> = Cell(send: seq<T>, recv: seq<T>, regs: map<nat, T>)

  /** The reduction: a starting value and an addition, which need not be associative. */
  datatype Algebra<!T> = Algebra(zero: T, add: (T, T) -> T, inPlace: bool)

  function Register<T>(a: Algebra<T>, c: Cell<T>, thread: nat): T
  {
    if thread in c.regs then c.regs[thread] else a.zero
  }

  /** One access; an index outside the windows leaves the cell alone. */
  function StepCell<T>(a: Algebra<T>, c: Cell<T>, ev: Event): Cell<T>
  {
    if ev.peer >= |c.send| || ev.peer >= |c.recv| then c
    else match ev.kind
      case Load =>
        var v := if a.inPlace then c.recv[ev.peer] else c.send[ev.peer];
        c.(regs := c.regs[ev.thread := a.add(Register(a, c, ev.thread), v)])
      case Store => c.(recv := c.recv[ev.peer := Register(a, c, ev.thread)])
  }

  function RunCell<T>(a: Algebra<T>, c: Cell<T>, evs: seq<Event>): Cell<T>
  {
    if |evs| == 0 then c else StepCell(a, RunCell(a, c, evs[..|evs| - 1]), evs[|evs| - 1])
  }

  function Run<T>(a: Algebra<T>, mem: seq<Cell<T>>, evs: seq<Event>): (mem': seq<Cell<T>>)
    ensures |mem'| == |mem|
  {
    if |evs| == 0 then mem
    else
      var m, ev := Run(a, mem, evs[..|evs| - 1]), evs[|evs| - 1];
      if ev.elt < |m| then m[ev.elt := StepCell(a, m[ev.elt], ev)] else m
  }

  // ---- projections

  function OnElement(evs: seq<Event>, e: nat): seq<Event>
  {
    if |evs| == 0 then []
    else OnElement(evs[..|evs| - 1], e) + if evs[|evs| - 1].elt == e then [evs[|evs| - 1]] else []
  }

  function OfThread(evs: seq<Event>, g: nat): seq<Event>
  {
    if |evs| == 0 then []
    else OfThread(evs[..|evs| - 1], g) + if evs[|evs| - 1].thread == g then [evs[|evs| - 1]] else []
  }

  /** sched is an interleaving of the threads' programs. */
  ghost predicate Interleaves(sched: seq<Event>, progs: seq<seq<Event>>)
  {
    && (forall i :: 0 <= i < |sched| ==> sched[i].thread < |progs|)
    && (forall g :: 0 <= g < |progs| ==> OfThread(sched, g) == progs[g])
  }

  /** What happens to an element depends only on the accesses to it. */
  lemma {:induction false} RunOnElement<T>(a: Algebra<T>, mem: seq<Cell<T>>, evs: seq<Event>, e: nat)
    requires e < |mem|
    ensures Run(a, mem, evs)[e] == RunCell(a, mem[e], OnElement(evs, e))
  {
    if |evs| > 0 {
      hide StepCell;
      var init, last := evs[..|evs| - 1], evs[|evs| - 1];
      RunOnElement(a, mem, init, e);
      var p := OnElement(init, e);
      if last.elt == e {
        assert OnElement(evs, e) == p + [last];
        assert (p + [last])[..|p|] == p;
        assert RunCell(a, mem[e], p + [last]) == StepCell(a, RunCell(a, mem[e], p), last);
      } else {
        assert OnElement(evs, e) == p;
      }
    }
  }

  lemma {:induction false} ProjectionsCommute(evs: seq<Event>, g: nat, e: nat)
    ensures OnElement(OfThread(evs, g), e) == OfThread(OnElement(evs, e), g)
  {
    if |evs| > 0 {
      var init, last := evs[..|evs| - 1], evs[|evs| - 1];
      ProjectionsCommute(init, g, e);
      OnElementSnoc(OfThread(init, g), last, e);
      OfThreadSnoc(OnElement(init, e), last, g);
      assert OfThread(init, g) + [] == OfThread(init, g) && OnElement(init, e) + [] == OnElement(init, e);
    }
  }

  lemma {:induction false} OnElementSnoc(evs: seq<Event>, ev: Event, e: nat)
    ensures OnElement(evs + [ev], e) == OnElement(evs, e) + if ev.elt == e then [ev] else []
  {
    assert (evs + [ev])[..|evs|] == evs;
  }

  lemma {:induction false} OfThreadSnoc(evs: seq<Event>, ev: Event, g: nat)
    ensures OfThread(evs + [ev], g) == OfThread(evs, g) + if ev.thread == g then [ev] else []
  {
    assert (evs + [ev])[..|evs|] == evs;
  }

  lemma {:induction false} OnElementConcat(xs: seq<Event>, ys: seq<Event>, e: nat)
    ensures OnElement(xs + ys, e) == OnElement(xs, e) + OnElement(ys, e)
  {
    if |ys| == 0 {
      assert xs + ys == xs;
    } else {
      var n := |ys| - 1;
      OnElementConcat(xs, ys[..n], e);
      assert xs + ys == (xs + ys[..n]) + [ys[n]];
      OnElementSnoc(xs + ys[..n], ys[n], e);
    }
  }

  /** If no other thread appears, the thread's view is everything. */
  lemma {:induction false} SoleThread(evs: seq<Event>, g: nat)
    requires forall i :: 0 <= i < |evs| ==> evs[i].thread == g
    ensures OfThread(evs, g) == evs
  {
    if |evs| > 0 {
      SoleThread(evs[..|evs| - 1], g);
    }
  }

  lemma {:induction false} ThreadAppears(evs: seq<Event>, i: nat)
    requires i < |evs|
    ensures OfThread(evs, evs[i].thread) != []
  {
    if i < |evs| - 1 {
      ThreadAppears(evs[..|evs| - 1], i);
    }
  }

  lemma {:induction false} OnElementThreads(evs: seq<Event>, e: nat, n: nat)
    requires forall i :: 0 <= i < |evs| ==> evs[i].thread < n
    ensures forall i :: 0 <= i < |OnElement(evs, e)| ==> OnElement(evs, e)[i].thread < n
  {
    if |evs| > 0 {
      OnElementThreads(evs[..|evs| - 1], e, n);
    }
  }

  /** An element that only one thread touches sees that thread's accesses, in program order,
      whatever the interleaving. */
  lemma {:induction false} OwnerDecides(sched: seq<Event>, progs: seq<seq<Event>>, e: nat, owner: nat)
    requires Interleaves(sched, progs) && owner < |progs|
    requires forall g :: 0 <= g < |progs| && g != owner ==> OnElement(progs[g], e) == []
    ensures OnElement(sched, e) == OnElement(progs[owner], e)
  {
    var evs := OnElement(sched, e);
    OnElementThreads(sched, e, |progs|);
    forall i | 0 <= i < |evs|
      ensures evs[i].thread == owner
    {
      ThreadAppears(evs, i);
      ProjectionsCommute(sched, evs[i].thread, e);
    }
    SoleThread(evs, owner);
    ProjectionsCommute(sched, owner, e);
  }

  // ---- one task: load some elements from every peer, then store them to every peer

  function Row(g: nat, kind: Kind, peer: nat, es: seq<nat>): (evs: seq<Event>)
    ensures |evs| == |es|
  {
    if |es| == 0 then [] else Row(g, kind, peer, es[..|es| - 1]) + [Event(g, kind, peer, es[|es| - 1])]
  }

  function Grid(g: nat, kind: Kind, peers: nat, es: seq<nat>): seq<Event>
  {
    if peers == 0 then [] else Grid(g, kind, peers - 1, es) + Row(g, kind, peers - 1, es)
  }

  function Column(g: nat, kind: Kind, peers: nat, e: nat): (evs: seq<Event>)
    ensures |evs| == peers
  {
    if peers == 0 then [] else Column(g, kind, peers - 1, e) + [Event(g, kind, peers - 1, e)]
  }

  /** All loads of an element in peer order, then all stores. */
  function Canon(g: nat, peers: nat, e: nat): seq<Event>
  {
    Column(g, Load, peers, e) + Column(g, Store, peers, e)
  }

  function Task(g: nat, peers: nat, es: seq<nat>): seq<Event>
  {
    Grid(g, Load, peers, es) + Grid(g, Store, peers, es)
  }

  lemma {:induction false} ProjectRow(g: nat, kind: Kind, peer: nat, es: seq<nat>, e: nat)
    requires Distinct(es)
    ensures OnElement(Row(g, kind, peer, es), e) == if e in es then [Event(g, kind, peer, e)] else []
  {
    if |es| > 0 {
      var n := |es| - 1;
      assert Distinct(es[..n]);
      ProjectRow(g, kind, peer, es[..n], e);
      OnElementSnoc(Row(g, kind, peer, es[..n]), Event(g, kind, peer, es[n]), e);
      assert es == es[..n] + [es[n]];
      assert e in es <==> e in es[..n] || e == es[n];
    }
  }

  lemma {:induction false} NoEvents(e: nat)
    ensures OnElement([], e) == []
  {
  }

  lemma {:induction false} ProjectGrid(g: nat, kind: Kind, peers: nat, es: seq<nat>, e: nat)
    requires Distinct(es)
    ensures OnElement(Grid(g, kind, peers, es), e) == if e in es then Column(g, kind, peers, e) else []
  {
    hide OnElement, Row, Distinct;
    if peers == 0 {
      NoEvents(e);
    } else {
      ProjectGrid(g, kind, peers - 1, es, e);
      ProjectRow(g, kind, peers - 1, es, e);
      OnElementConcat(Grid(g, kind, peers - 1, es), Row(g, kind, peers - 1, es), e);
    }
  }

  lemma {:induction false} ProjectTask(g: nat, peers: nat, es: seq<nat>, e: nat)
    requires Distinct(es)
    ensures OnElement(Task(g, peers, es), e) == if e in es then Canon(g, peers, e) else []
  {
    ProjectGrid(g, Load, peers, es, e);
    ProjectGrid(g, Store, peers, es, e);
    OnElementConcat(Grid(g, Load, peers, es), Grid(g, Store, peers, es), e);
  }

  // ---- what a task leaves in memory

  /** The ordered sum of an element over the first n peers. */
  function Fold<T>(a: Algebra<T>, column: seq<T>, n: nat): T
    requires n <= |column|
  {
    if n == 0 then a.zero else a.add(Fold(a, column, n - 1), column[n - 1])
  }

  function Operands<T>(a: Algebra<T>, c: Cell<T>): seq<T>
  {
    if a.inPlace then c.recv else c.send
  }

  lemma {:induction false} RunColumnLoads<T>(a: Algebra<T>, c: Cell<T>, g: nat, k: nat, e: nat)
    requires k <= |c.send| == |c.recv| && g !in c.regs
    ensures RunCell(a, c, Column(g, Load, k, e)).send == c.send && RunCell(a, c, Column(g, Load, k, e)).recv == c.recv
    ensures Register(a, RunCell(a, c, Column(g, Load, k, e)), g) == Fold(a, Operands(a, c), k)
  {
    if k > 0 {
      RunColumnLoads(a, c, g, k - 1, e);
      assert Column(g, Load, k, e)[..k - 1] == Column(g, Load, k - 1, e);
    }
  }

  lemma {:induction false} RunColumnStores<T>(a: Algebra<T>, c: Cell<T>, g: nat, k: nat, e: nat)
    requires k <= |c.send| == |c.recv|
    ensures RunCell(a, c, Column(g, Store, k, e)).regs == c.regs && RunCell(a, c, Column(g, Store, k, e)).send == c.send
    ensures |RunCell(a, c, Column(g, Store, k, e)).recv| == |c.recv|
    ensures forall p :: 0 <= p < |c.recv| ==>
              RunCell(a, c, Column(g, Store, k, e)).recv[p] == if p < k then Register(a, c, g) else c.recv[p]
  {
    if k > 0 {
      RunColumnStores(a, c, g, k - 1, e);
      assert Column(g, Store, k, e)[..k - 1] == Column(g, Store, k - 1, e);
    }
  }

  lemma {:induction false} RunConcat<T>(a: Algebra<T>, c: Cell<T>, xs: seq<Event>, ys: seq<Event>)
    ensures RunCell(a, c, xs + ys) == RunCell(a, RunCell(a, c, xs), ys)
  {
    if |ys| == 0 {
      assert xs + ys == xs;
    } else {
      var n := |ys| - 1;
      hide StepCell;
      RunConcat(a, c, xs, ys[..n]);
      assert (xs + ys)[..|xs + ys| - 1] == xs + ys[..n] && (xs + ys)[|xs + ys| - 1] == ys[n];
      assert RunCell(a, c, xs + ys) == StepCell(a, RunCell(a, c, xs + ys[..n]), ys[n]);
    }
  }

  /** After its task an element is the ordered sum on every peer, in place or not. */
  lemma {:induction false} RunCanon<T>(a: Algebra<T>, c: Cell<T>, g: nat, e: nat)
    requires |c.send| == |c.recv| && g !in c.regs
    ensures RunCell(a, c, Canon(g, |c.send|, e)).send == c.send
    ensures |RunCell(a, c, Canon(g, |c.send|, e)).recv| == |c.recv|
    ensures forall p :: 0 <= p < |c.recv| ==>
              RunCell(a, c, Canon(g, |c.send|, e)).recv[p] == Fold(a, Operands(a, c), |c.send|)
  {
    var n := |c.send|;
    RunConcat(a, c, Column(g, Load, n, e), Column(g, Store, n, e));
    RunColumnLoads(a, c, g, n, e);
    RunColumnStores(a, RunCell(a, c, Column(g, Load, n, e)), g, n, e);
  }

  function Elements(es: seq<nat>): set<nat> { set e | e in es }

  /** So far the thread has performed one full task on each element of `done`, and nothing else. */
  ghost predicate Tracks(log: seq<Event>, g: nat, peers: nat, done: set<nat>)
  {
    forall e: nat :: OnElement(log, e) == if e in done then Canon(g, peers, e) else []
  }

  lemma {:induction false} TrackTask(log: seq<Event>, g: nat, peers: nat, done: set<nat>, es: seq<nat>)
    requires Tracks(log, g, peers, done) && Distinct(es) && forall e :: e in es ==> e !in done
    ensures Tracks(log + Task(g, peers, es), g, peers, done + Elements(es))
  {
    hide Task, Distinct, Canon;
    forall e: nat
      ensures OnElement(log + Task(g, peers, es), e) == if e in done || e in es then Canon(g, peers, e) else []
    {
      OnElementConcat(log, Task(g, peers, es), e);
      ProjectTask(g, peers, es, e);
    }
  }

  lemma {:induction false} RowConcat(g: nat, kind: Kind, peer: nat, xs: seq<nat>, ys: seq<nat>)
    ensures Row(g, kind, peer, xs + ys) == Row(g, kind, peer, xs) + Row(g, kind, peer, ys)
  {
    if |ys| == 0 {
      assert xs + ys == xs;
    } else {
      var n := |ys| - 1;
      RowConcat(g, kind, peer, xs, ys[..n]);
      assert (xs + ys)[..|xs + ys| - 1] == xs + ys[..n];
    }
  }

  // ---- programs that divide the elements among the threads

  /** Thread g handles exactly the elements below `count` that `owner` assigns to it, each by one
      full task. */
  ghost predicate HandlesOwn(prog: seq<Event>, g: nat, peers: nat, count: nat, owner: nat -> nat)
  {
    forall e: nat :: OnElement(prog, e) == if e < count && owner(e) == g then Canon(g, peers, e) else []
  }

  /** Any interleaving of such programs all-reduces the elements and touches nothing else. */
  lemma {:induction false} AllReduced<T>(a: Algebra<T>, mem: seq<Cell<T>>, sched: seq<Event>, progs: seq<seq<Event>>,
                                         peers: nat, count: nat, owner: nat -> nat, e: nat)
    requires Interleaves(sched, progs) && |progs| > 0
    requires forall i :: 0 <= i < |mem| ==> |mem[i].send| == |mem[i].recv| == peers && mem[i].regs == map[]
    requires forall g :: 0 <= g < |progs| ==> HandlesOwn(progs[g], g, peers, count, owner)
    requires forall i: nat :: i < count ==> owner(i) < |progs|
    requires e < |mem|
    ensures |Run(a, mem, sched)[e].recv| == peers
    ensures e < count ==> forall p :: 0 <= p < peers ==> Run(a, mem, sched)[e].recv[p] == Fold(a, Operands(a, mem[e]), peers)
    ensures e >= count ==> Run(a, mem, sched)[e] == mem[e]
  {
    RunOnElement(a, mem, sched, e);
    var g := if e < count then owner(e) else 0;
    OwnerDecides(sched, progs, e, g);
    if e < count {
      RunCanon(a, mem[e], g, e);
    }
  }

  // ---- there are interleavings

  /** The threads one after the other. */
  function OneByOne(progs: seq<seq<Event>>, k: nat): seq<Event>
    requires k <= |progs|
  {
    if k == 0 then [] else OneByOne(progs, k - 1) + progs[k - 1]
  }

  lemma {:induction false} OfThreadConcat(xs: seq<Event>, ys: seq<Event>, g: nat)
    ensures OfThread(xs + ys, g) == OfThread(xs, g) + OfThread(ys, g)
  {
    if |ys| == 0 {
      assert xs + ys == xs;
    } else {
      var n := |ys| - 1;
      OfThreadConcat(xs, ys[..n], g);
      assert xs + ys == (xs + ys[..n]) + [ys[n]];
      OfThreadSnoc(xs + ys[..n], ys[n], g);
    }
  }

  lemma {:induction false} OtherThread(evs: seq<Event>, h: nat, g: nat)
    requires h != g && forall i :: 0 <= i < |evs| ==> evs[i].thread == h
    ensures OfThread(evs, g) == []
  {
    if |evs| > 0 {
      OtherThread(evs[..|evs| - 1], h, g);
    }
  }

  ghost predicate OwnEvents(progs: seq<seq<Event>>)
  {
    forall g, i :: 0 <= g < |progs| && 0 <= i < |progs[g]| ==> progs[g][i].thread == g
  }

  lemma {:induction false} OneByOneIs(progs: seq<seq<Event>>, k: nat, g: nat)
    requires k <= |progs| && OwnEvents(progs) && g < |progs|
    ensures OfThread(OneByOne(progs, k), g) == if g < k then progs[g] else []
  {
    hide OfThread;
    if k == 0 {
      NoEventsOf(g);
    } else {
      OneByOneIs(progs, k - 1, g);
      OfThreadConcat(OneByOne(progs, k - 1), progs[k - 1], g);
      if g == k - 1 {
        SoleThread(progs[g], g);
      } else {
        OtherThread(progs[k - 1], k - 1, g);
      }
    }
  }

  lemma {:induction false} NoEventsOf(g: nat)
    ensures OfThread([], g) == []
  {
  }

  lemma {:induction false} OneByOneThreads(progs: seq<seq<Event>>, k: nat)
    requires k <= |progs| && OwnEvents(progs)
    ensures forall i :: 0 <= i < |OneByOne(progs, k)| ==> OneByOne(progs, k)[i].thread < k
  {
    if k > 0 {
      OneByOneThreads(progs, k - 1);
    }
  }

  lemma {:induction false} EventKept(evs: seq<Event>, i: nat)
    requires i < |evs|
    ensures evs[i] in OnElement(evs, evs[i].elt)
  {
    if i < |evs| - 1 {
      EventKept(evs[..|evs| - 1], i);
    }
  }

  lemma {:induction false} CanonThread(g: nat, kind: Kind, peers: nat, e: nat)
    ensures forall ev :: ev in Column(g, kind, peers, e) ==> ev.thread == g
  {
    if peers > 0 {
      CanonThread(g, kind, peers - 1, e);
    }
  }

  /** Programs of threads that handle their own elements can be interleaved: one after the other, for
      one. */
  lemma {:induction false} SomeInterleaving(progs: seq<seq<Event>>, peers: nat, count: nat, owner: nat -> nat)
    requires forall g :: 0 <= g < |progs| ==> HandlesOwn(progs[g], g, peers, count, owner)
    ensures Interleaves(OneByOne(progs, |progs|), progs)
  {
    hide OnElement, OfThread, OneByOne, Column;
    forall g, i | 0 <= g < |progs| && 0 <= i < |progs[g]|
      ensures progs[g][i].thread == g
    {
      var e := progs[g][i].elt;
      EventKept(progs[g], i);
      CanonThread(g, Load, peers, e);
      CanonThread(g, Store, peers, e);
      assert OnElement(progs[g], e) == if e < count && owner(e) == g then Canon(g, peers, e) else [];
    }
    forall g | 0 <= g < |progs|
      ensures OfThread(OneByOne(progs, |progs|), g) == progs[g]
    {
      OneByOneIs(progs, |progs|, g);
    }
    OneByOneThreads(progs, |progs|);
  }
}
