/** The lockstep timers of src/comm_ops.cu: every rank must record the same sequence of timer types,
    whatever its colour, because flushes are collective; and the root must count every event once. */
module Timers {
  import opened Arith
  import opened Sums

  datatype TimerId =
    | MpiInit | MpiBarrier | MpiAllgatherv | WorkPrepare | NcclInit | NcclSplit | NcclGrow | NcclAllreduce
    | NcclFinalize | NcclDestroy | NcclAbort | NcclShrink | CudaInit | StreamSync

  /** What a rank records: the type, the time, and whether it took part. */
  datatype Event = Event(id: TimerId, elapsed: nat, took: bool)

  datatype Mark = Mark(id: TimerId, took: bool)

  datatype TestKind = Split | Shrink | Grow | Other

  datatype Resize = Factor | Step

  datatype Args = Args(kind: TestKind, resize: Resize, resizeNum: real, iterations: nat, warmup: nat,
                       workIterations: nat, aborts: bool)

  // ---- colours

  /** `rank >= count/resize_num` or `rank >= count - resize_num`; dividing by 0 yields infinity. */
  function PickColor(a: Args, rank: nat, count: nat): nat
  {
    if a.resize == Factor then
      if a.resizeNum == 0.0 then 0 else if rank as real >= count as real / a.resizeNum then 1 else 0
    else
      if rank as real >= count as real - a.resizeNum then 1 else 0
  }

  /** How many of the first k ranks have colour 0. */
  function Initial(a: Args, count: nat, k: nat): nat
  {
    if k == 0 then 0 else Initial(a, count, k - 1) + if PickColor(a, k - 1, count) == 0 then 1 else 0
  }

  /** The ranks of colour 0 come first: they are numbered without gaps, and when there is one it is
      rank 0 that is. */
  lemma {:induction false} ColorZeroIsPrefix(a: Args, count: nat, k: nat)
    ensures Initial(a, count, k) <= k
    ensures forall r: nat :: r < k ==> (PickColor(a, r, count) == 0 <==> r < Initial(a, count, k))
  {
    if k > 0 {
      ColorZeroIsPrefix(a, count, k - 1);
      if k > 1 {
        ColorMono(a, k - 2, k - 1, count);
      }
    }
  }

  /** How many ranks have colour 0: count/f of them, rounded up, when the size is to be divided by f,
      and count - d of them, rounded up, when it is to be reduced by d; never more than count. */
  lemma {:induction false} InitialIs(a: Args, count: nat)
    ensures var k, size, x := Initial(a, count, count), count as real, a.resizeNum;
      && k <= count
      && (a.resize == Factor && x > 0.0 ==>
            (k == count || k as real * x >= size) && (k > 0 ==> (k - 1) as real * x < size))
      && (a.resize == Factor && x == 0.0 ==> k == count)
      && (a.resize == Factor && x < 0.0 ==> k == 0)
      && (a.resize == Step ==> (k == count || k as real >= size - x) && (k > 0 ==> (k - 1) as real < size - x))
  {
    ColorZeroIsPrefix(a, count, count);
    var k, x := Initial(a, count, count), a.resizeNum;
    hide Initial;
    assert k < count ==> PickColor(a, k, count) != 0;
    assert k > 0 ==> PickColor(a, k - 1, count) == 0;
    if a.resize == Factor && x != 0.0 {
      QuotientBelow(k as real, count as real, x);
      QuotientBelow((k - 1) as real, count as real, x);
      NegativeQuotient(count as real, x);
    }
    if a.resize == Factor && x == 0.0 && k < count {
      assert false;
    }
  }

  lemma {:induction false} QuotientBelow(r: real, n: real, x: real)
    requires x != 0.0
    ensures x > 0.0 ==> (r >= n / x <==> r * x >= n)
  {
    assert (n / x) * x == n;
    assert r * x - n == (r - n / x) * x;
  }

  lemma {:induction false} NegativeQuotient(n: real, x: real)
    requires n >= 0.0 && x != 0.0
    ensures x < 0.0 ==> n / x <= 0.0
  {
  }

  lemma {:induction false} ColorMono(a: Args, r: nat, q: nat, count: nat)
    requires r <= q
    ensures PickColor(a, r, count) <= PickColor(a, q, count)
  {
  }

  /** The ranks of the other colour. */
  method ExcludeRanks(a: Args, rank: nat, count: nat) returns (excluded: seq<nat>)
    ensures forall r: nat :: r in excluded <==> r < count && PickColor(a, r, count) != PickColor(a, rank, count)
    ensures forall i, j :: 0 <= i < j < |excluded| ==> excluded[i] < excluded[j]
  {
    hide PickColor;
    excluded := [];
    for other := 0 to count
      invariant forall r: nat :: r in excluded <==> r < other && PickColor(a, r, count) != PickColor(a, rank, count)
      invariant forall i, j :: 0 <= i < j < |excluded| ==> excluded[i] < excluded[j]
    {
      assert forall i :: 0 <= i < |excluded| ==> excluded[i] in excluded;
      if PickColor(a, rank, count) != PickColor(a, other, count) {
        excluded := excluded + [other];
      }
    }
  }

  // ---- what each program records

  function WorkMarks(has: bool, k: nat): seq<Mark>
  {
    if k == 0 then [] else WorkMarks(has, k - 1) + [Mark(NcclAllreduce, has), Mark(StreamSync, has)]
  }

  function TeardownMarks(a: Args, has: bool): seq<Mark>
  {
    if a.aborts then [Mark(NcclAbort, has)] else [Mark(NcclFinalize, has), Mark(NcclDestroy, has)]
  }

  /** A rank gets a child communicator from every split, and from a shrink unless it is excluded. */
  predicate HasChild(a: Args, color: nat)
  {
    a.kind == Split || (a.kind == Shrink && color == 0)
  }

  function ChildMarks(a: Args, child: bool): seq<Mark>
  {
    if a.kind == Split then [Mark(NcclSplit, true)] else if a.kind == Shrink then [Mark(NcclShrink, child)] else []
  }

  function SplitIteration(a: Args, child: bool): seq<Mark>
  {
    ChildMarks(a, child) + WorkMarks(child, a.workIterations) + TeardownMarks(a, child)
  }

  function SplitLoop(a: Args, child: bool, j: nat): seq<Mark>
  {
    if j == 0 then [] else SplitLoop(a, child, j - 1) + if j - 1 >= a.warmup then SplitIteration(a, child) else []
  }

  /** The timers are on before the loop if there is no warm-up, and after it if its last iteration
      was not one. */
  predicate OnAtEnd(a: Args)
  {
    a.iterations > 0 || a.warmup == 0
  }

  function SetupMarks(a: Args, has: bool): seq<Mark>
  {
    if a.warmup == 0 then [Mark(MpiBarrier, true), Mark(MpiAllgatherv, has), Mark(NcclInit, has)] else []
  }

  function SplitMarks(a: Args, n: nat, child: bool): seq<Mark>
  {
    if n == 1 then [] else
    SetupMarks(a, true) + SplitLoop(a, child, a.iterations + a.warmup)
    + if OnAtEnd(a) then TeardownMarks(a, true) else []
  }

  function GrowIteration(a: Args): seq<Mark>
  {
    [Mark(NcclGrow, true)] + WorkMarks(true, a.workIterations) + TeardownMarks(a, true)
  }

  function GrowLoop(a: Args, j: nat): seq<Mark>
  {
    if j == 0 then [] else GrowLoop(a, j - 1) + if j - 1 >= a.warmup then GrowIteration(a) else []
  }

  function GrowMarks(a: Args, n: nat, small: bool): seq<Mark>
  {
    if Initial(a, n, n) == 0 || Initial(a, n, n) == n then [] else
    SetupMarks(a, small)
    + (if a.warmup == 0 then WorkMarks(small, a.workIterations) else [])
    + GrowLoop(a, a.iterations + a.warmup)
    + if OnAtEnd(a) then TeardownMarks(a, small) else []
  }

  function Ids(ms: seq<Mark>): seq<TimerId>
  {
    if ms == [] then [] else Ids(ms[..|ms| - 1]) + [ms[|ms| - 1].id]
  }

  lemma {:induction false} IdsConcat(a: seq<Mark>, b: seq<Mark>)
    ensures Ids(a + b) == Ids(a) + Ids(b)
  {
    if b == [] {
      assert a + b == a;
    } else {
      var n := |b| - 1;
      assert (a + b)[..|a + b| - 1] == a + b[..n];
      IdsConcat(a, b[..n]);
    }
  }

  lemma {:induction false} SameParts(a: seq<Mark>, b: seq<Mark>, a': seq<Mark>, b': seq<Mark>)
    requires Ids(a) == Ids(a') && Ids(b) == Ids(b')
    ensures Ids(a + b) == Ids(a' + b')
  {
    IdsConcat(a, b);
    IdsConcat(a', b');
  }

  lemma {:induction false} OneLockstep(id: TimerId, b: bool, b': bool)
    ensures Ids([Mark(id, b)]) == Ids([Mark(id, b')])
  {
    assert [Mark(id, b)][..0] == [] == [Mark(id, b')][..0];
  }

  lemma {:induction false} TwoLockstep(id: TimerId, next: TimerId, b: bool, b': bool)
    ensures Ids([Mark(id, b), Mark(next, b)]) == Ids([Mark(id, b'), Mark(next, b')])
  {
    OneLockstep(id, b, b');
    OneLockstep(next, b, b');
    SameParts([Mark(id, b)], [Mark(next, b)], [Mark(id, b')], [Mark(next, b')]);
    assert [Mark(id, b)] + [Mark(next, b)] == [Mark(id, b), Mark(next, b)];
    assert [Mark(id, b')] + [Mark(next, b')] == [Mark(id, b'), Mark(next, b')];
  }

  lemma {:induction false} WorkLockstep(k: nat, b: bool, b': bool)
    ensures Ids(WorkMarks(b, k)) == Ids(WorkMarks(b', k))
  {
    hide Ids;
    if k > 0 {
      WorkLockstep(k - 1, b, b');
      TwoLockstep(NcclAllreduce, StreamSync, b, b');
      SameParts(WorkMarks(b, k - 1), [Mark(NcclAllreduce, b), Mark(StreamSync, b)],
                WorkMarks(b', k - 1), [Mark(NcclAllreduce, b'), Mark(StreamSync, b')]);
    }
  }

  lemma {:induction false} TeardownLockstep(a: Args, b: bool, b': bool)
    ensures Ids(TeardownMarks(a, b)) == Ids(TeardownMarks(a, b'))
  {
    hide Ids;
    OneLockstep(NcclAbort, b, b');
    TwoLockstep(NcclFinalize, NcclDestroy, b, b');
  }

  lemma {:induction false} SetupLockstep(a: Args, b: bool, b': bool)
    ensures Ids(SetupMarks(a, b)) == Ids(SetupMarks(a, b'))
  {
    hide Ids;
    TwoLockstep(MpiAllgatherv, NcclInit, b, b');
    SameParts([Mark(MpiBarrier, true)], [Mark(MpiAllgatherv, b), Mark(NcclInit, b)],
              [Mark(MpiBarrier, true)], [Mark(MpiAllgatherv, b'), Mark(NcclInit, b')]);
    assert a.warmup == 0 ==> SetupMarks(a, b) == [Mark(MpiBarrier, true)] + [Mark(MpiAllgatherv, b), Mark(NcclInit, b)];
    assert a.warmup == 0 ==> SetupMarks(a, b') == [Mark(MpiBarrier, true)] + [Mark(MpiAllgatherv, b'), Mark(NcclInit, b')];
  }

  lemma {:induction false} IterationLockstep(a: Args, b: bool, b': bool)
    ensures Ids(SplitIteration(a, b)) == Ids(SplitIteration(a, b'))
  {
    hide Ids, WorkMarks, TeardownMarks;
    WorkLockstep(a.workIterations, b, b');
    TeardownLockstep(a, b, b');
    OneLockstep(NcclShrink, b, b');
    SameParts(ChildMarks(a, b), WorkMarks(b, a.workIterations), ChildMarks(a, b'), WorkMarks(b', a.workIterations));
    SameParts(ChildMarks(a, b) + WorkMarks(b, a.workIterations), TeardownMarks(a, b),
              ChildMarks(a, b') + WorkMarks(b', a.workIterations), TeardownMarks(a, b'));
  }

  lemma {:induction false} SplitLoopLockstep(a: Args, j: nat, b: bool, b': bool)
    ensures Ids(SplitLoop(a, b, j)) == Ids(SplitLoop(a, b', j))
  {
    hide Ids, SplitIteration;
    if j > 0 {
      SplitLoopLockstep(a, j - 1, b, b');
      IterationLockstep(a, b, b');
      var x := if j - 1 >= a.warmup then SplitIteration(a, b) else [];
      var x' := if j - 1 >= a.warmup then SplitIteration(a, b') else [];
      SameParts(SplitLoop(a, b, j - 1), x, SplitLoop(a, b', j - 1), x');
    }
  }

  /** Ranks of either colour record the same types in the same order: split and shrink. */
  lemma {:induction false} SplitLockstep(a: Args, n: nat, child: bool, child': bool)
    ensures Ids(SplitMarks(a, n, child)) == Ids(SplitMarks(a, n, child'))
  {
    hide Ids, SplitLoop, SetupMarks, TeardownMarks;
    var k := a.iterations + a.warmup;
    SplitLoopLockstep(a, k, child, child');
    SameParts(SetupMarks(a, true), SplitLoop(a, child, k), SetupMarks(a, true), SplitLoop(a, child', k));
    var end := if OnAtEnd(a) then TeardownMarks(a, true) else [];
    SameParts(SetupMarks(a, true) + SplitLoop(a, child, k), end, SetupMarks(a, true) + SplitLoop(a, child', k), end);
  }

  /** ... and grow. */
  lemma {:induction false} GrowLockstep(a: Args, n: nat, small: bool, small': bool)
    ensures Ids(GrowMarks(a, n, small)) == Ids(GrowMarks(a, n, small'))
  {
    hide Ids, WorkMarks, TeardownMarks, SetupMarks, GrowLoop, Initial;
    WorkLockstep(a.workIterations, small, small');
    SetupLockstep(a, small, small');
    TeardownLockstep(a, small, small');
    var w := if a.warmup == 0 then WorkMarks(small, a.workIterations) else [];
    var w' := if a.warmup == 0 then WorkMarks(small', a.workIterations) else [];
    var e := if OnAtEnd(a) then TeardownMarks(a, small) else [];
    var e' := if OnAtEnd(a) then TeardownMarks(a, small') else [];
    var loop := GrowLoop(a, a.iterations + a.warmup);
    SameParts(SetupMarks(a, small), w, SetupMarks(a, small'), w');
    SameParts(SetupMarks(a, small) + w, loop, SetupMarks(a, small') + w', loop);
    SameParts(SetupMarks(a, small) + w + loop, e, SetupMarks(a, small') + w' + loop, e');
  }

  // ---- the timing record

  function Flatten(bs: seq<seq<Event>>): seq<Event>
  {
    if bs == [] then [] else Flatten(bs[..|bs| - 1]) + bs[|bs| - 1]
  }

  lemma {:induction false} FlattenSnoc(bs: seq<seq<Event>>, b: seq<Event>)
    ensures Flatten(bs + [b]) == Flatten(bs) + b
  {
    assert (bs + [b])[..|bs|] == bs;
  }

  function MarksOf(es: seq<Event>): seq<Mark>
  {
    if es == [] then [] else MarksOf(es[..|es| - 1]) + [Mark(es[|es| - 1].id, es[|es| - 1].took)]
  }

  lemma {:induction false} MarksSnoc(es: seq<Event>, e: Event)
    ensures MarksOf(es + [e]) == MarksOf(es) + [Mark(e.id, e.took)] && es + [] == es
  {
    assert (es + [e])[..|es|] == es;
  }

  lemma {:induction false} Assoc<T>(a: seq<T>, b: seq<T>, c: seq<T>, d: seq<T>)
    ensures a + b + c + d == a + (b + c + d) && a + b + c == a + (b + c)
  {
  }

  class Timing {
    const interval: nat
    const slots: array<Event>
    var enabled: bool
    var count: nat
    /** What each flush has handed to the collective reduction. */
    var flushed: seq<seq<Event>>
    /** All events recorded so far. */
    ghost var log: seq<Event>

    ghost predicate Valid()
      reads this, slots
    {
      && slots.Length == interval > 0 && count < interval
      && (forall k :: 0 <= k < |flushed| ==> |flushed[k]| == interval)
      && log == Flatten(flushed) + slots[..count]
      && (forall k :: 0 <= k < |log| ==> !log[k].took ==> log[k].elapsed == 0)
    }

    /** The record is what EverythingCountedOnce assumes of each rank. */
    lemma RecordIs()
      requires Valid()
      ensures IsRecord(interval, flushed, slots[..count]) && log == Flatten(flushed) + slots[..count] && Idle(log)
    {
    }

    constructor (flush: nat)
      requires flush > 0
      ensures Valid() && fresh(slots) && enabled && log == [] && interval == flush
    {
      interval, slots, enabled, count, flushed, log := flush, new Event[flush](_ => Event(MpiInit, 0, false)), true, 0, [], [];
    }

    method FlushTiming()
      requires slots.Length >= count
      modifies this`count, this`flushed
      ensures flushed == old(flushed) + [slots[..old(count)]] && count == 0
    {
      flushed := flushed + [slots[..count]];
      count := 0;
    }

    method RecordTimer(elapsed: nat, id: TimerId, record: bool)
      requires Valid() && (!record ==> elapsed == 0)
      modifies this, slots
      ensures Valid() && enabled == old(enabled)
      ensures log == old(log) + if enabled then [Event(id, elapsed, record)] else []
    {
      hide Flatten;
      if !enabled {
        return;
      }
      if count < interval {
        slots[count] := Event(id, elapsed, record);
      }
      count := count + 1;
      log := log + [Event(id, elapsed, record)];
      assert slots[..count] == old(slots[..count]) + [Event(id, elapsed, record)];
      if count == interval {
        FlattenSnoc(flushed, slots[..count]);
        FlushTiming();
      }
      assert log == Flatten(flushed) + slots[..count];
    }

    method SetTimerEnabled(on: bool)
      requires Valid()
      modifies this`enabled
      ensures Valid() && enabled == on
    {
      enabled := on;
    }

    method StopTimer(id: TimerId)
      requires Valid()
      modifies this, slots
      ensures Valid() && enabled == old(enabled)
      ensures MarksOf(log) == old(MarksOf(log)) + if enabled then [Mark(id, true)] else []
    {
      var elapsed: nat := *;
      MarksSnoc(log, Event(id, elapsed, true));
      hide Valid, MarksOf;
      RecordTimer(elapsed, id, true);
    }

    method SkipTimer(id: TimerId)
      requires Valid()
      modifies this, slots
      ensures Valid() && enabled == old(enabled)
      ensures MarksOf(log) == old(MarksOf(log)) + if enabled then [Mark(id, false)] else []
    {
      MarksSnoc(log, Event(id, 0, false));
      hide Valid, MarksOf;
      RecordTimer(0, id, false);
    }

    /** The timer either stops or, for a rank that sits out, is skipped. */
    method StopOrSkip(id: TimerId, has: bool)
      requires Valid()
      modifies this, slots
      ensures Valid() && enabled == old(enabled)
      ensures MarksOf(log) == old(MarksOf(log)) + if enabled then [Mark(id, has)] else []
    {
      if has {
        StopTimer(id);
      } else {
        SkipTimer(id);
      }
    }

    /** The barrier and the creation of the first communicator. */
    method Setup(has: bool)
      requires Valid()
      modifies this, slots
      ensures Valid() && enabled == old(enabled)
      ensures MarksOf(log) == old(MarksOf(log))
                              + if enabled then [Mark(MpiBarrier, true), Mark(MpiAllgatherv, has), Mark(NcclInit, has)] else []
    {
      hide Valid, MarksOf;
      StopTimer(MpiBarrier);
      StopOrSkip(MpiAllgatherv, has);
      StopOrSkip(NcclInit, has);
    }

    /** All work rounds on a communicator, which may be null. */
    method DoWork(rounds: nat, has: bool)
      requires Valid()
      modifies this, slots
      ensures Valid() && enabled == old(enabled)
      ensures MarksOf(log) == old(MarksOf(log)) + if enabled then WorkMarks(has, rounds) else []
    {
      hide Valid;
      for i := 0 to rounds
        invariant Valid() && enabled == old(enabled)
        invariant MarksOf(log) == old(MarksOf(log)) + if enabled then WorkMarks(has, i) else []
      {
        StopOrSkip(NcclAllreduce, has);
        StopOrSkip(StreamSync, has);
      }
    }

    method Teardown(a: Args, has: bool)
      requires Valid()
      modifies this, slots
      ensures Valid() && enabled == old(enabled)
      ensures MarksOf(log) == old(MarksOf(log)) + if enabled then TeardownMarks(a, has) else []
    {
      hide Valid;
      if a.aborts {
        StopOrSkip(NcclAbort, has);
      } else {
        StopOrSkip(NcclFinalize, has);
        StopOrSkip(NcclDestroy, has);
      }
    }

    /** One round of split or shrink; got says whether this rank has a child communicator. */
    method SplitRound(a: Args, color: nat) returns (got: bool)
      requires Valid()
      modifies this, slots
      ensures Valid() && enabled == old(enabled) && got == HasChild(a, color)
      ensures MarksOf(log) == old(MarksOf(log)) + if enabled then SplitIteration(a, got) else []
    {
      hide Valid, MarksOf;
      got := false;
      if a.kind == Split {
        got := true;
        StopTimer(NcclSplit);
      } else if a.kind == Shrink {
        got := color == 0;
        StopOrSkip(NcclShrink, got);
      }
      assert MarksOf(log) == old(MarksOf(log)) + if enabled then ChildMarks(a, got) else [];
      hide ChildMarks, WorkMarks, TeardownMarks;
      DoWork(a.workIterations, got);
      Teardown(a, got);
      Assoc(old(MarksOf(log)), ChildMarks(a, got), WorkMarks(got, a.workIterations), TeardownMarks(a, got));
    }

    method GrowRound(a: Args)
      requires Valid()
      modifies this, slots
      ensures Valid() && enabled == old(enabled)
      ensures MarksOf(log) == old(MarksOf(log)) + if enabled then GrowIteration(a) else []
    {
      hide Valid, MarksOf, WorkMarks, TeardownMarks;
      StopTimer(NcclGrow);
      DoWork(a.workIterations, true);
      Teardown(a, true);
      Assoc(old(MarksOf(log)), [Mark(NcclGrow, true)], WorkMarks(true, a.workIterations), TeardownMarks(a, true));
    }

    /** Split and shrink: what a rank records depends on its colour only through taking part. */
    method MainSplit(a: Args, rank: nat, n: nat)
      requires Valid()
      modifies this, slots
      ensures Valid()
      ensures MarksOf(log) == old(MarksOf(log)) + SplitMarks(a, n, HasChild(a, PickColor(a, rank, n)))
    {
      hide Valid, PickColor, MarksOf, SplitIteration, TeardownMarks;
      SetTimerEnabled(0 >= a.warmup);
      if n == 1 {
        return;
      }
      Setup(true);
      var color := PickColor(a, rank, n);
      ghost var start, child := old(MarksOf(log)), HasChild(a, color);
      hide HasChild;
      assert MarksOf(log) == start + SetupMarks(a, true);
      var j := 0;
      while j < a.iterations + a.warmup
        invariant j <= a.iterations + a.warmup && Valid()
        invariant enabled == if j == 0 then a.warmup == 0 else j - 1 >= a.warmup
        invariant MarksOf(log) == start + SetupMarks(a, true) + SplitLoop(a, child, j)
      {
        SetTimerEnabled(j >= a.warmup);
        var got := SplitRound(a, color);
        ghost var more := if j >= a.warmup then SplitIteration(a, child) else [];
        Assoc(start, SetupMarks(a, true), SplitLoop(a, child, j), more);
        Assoc(start + SetupMarks(a, true), SplitLoop(a, child, j), more, []);
        j := j + 1;
      }
      Teardown(a, true);
      Assoc(start, SetupMarks(a, true), SplitLoop(a, child, j), if OnAtEnd(a) then TeardownMarks(a, true) else []);
    }

    /** Grow: the ranks of colour 0 build the first communicator, the others skip its timers. */
    method MainGrow(a: Args, rank: nat, n: nat)
      requires Valid()
      modifies this, slots
      ensures Valid()
      ensures MarksOf(log) == old(MarksOf(log)) + GrowMarks(a, n, PickColor(a, rank, n) == 0)
    {
      hide Valid, PickColor, MarksOf, GrowIteration, TeardownMarks, WorkMarks;
      SetTimerEnabled(0 >= a.warmup);
      var small := PickColor(a, rank, n) == 0;
      var initialCount := 0;
      for other := 0 to n
        invariant initialCount == Initial(a, n, other)
      {
        initialCount := initialCount + if PickColor(a, other, n) == 0 then 1 else 0;
      }
      if initialCount == 0 || initialCount == n {
        return;
      }
      hide Initial;
      ghost var start := old(MarksOf(log));
      Setup(small);
      assert MarksOf(log) == start + SetupMarks(a, small);
      hide SetupMarks;
      DoWork(a.workIterations, small);
      ghost var work := if a.warmup == 0 then WorkMarks(small, a.workIterations) else [];
      ghost var head := SetupMarks(a, small) + work;
      Assoc(start, SetupMarks(a, small), work, []);
      assert MarksOf(log) == start + head;
      var j := 0;
      while j < a.iterations + a.warmup
        invariant j <= a.iterations + a.warmup && Valid()
        invariant enabled == if j == 0 then a.warmup == 0 else j - 1 >= a.warmup
        invariant MarksOf(log) == start + head + GrowLoop(a, j)
      {
        SetTimerEnabled(j >= a.warmup);
        GrowRound(a);
        Assoc(start + head, GrowLoop(a, j), if j >= a.warmup then GrowIteration(a) else [], []);
        j := j + 1;
      }
      Teardown(a, small);
      Assoc(start, head, GrowLoop(a, j), if OnAtEnd(a) then TeardownMarks(a, small) else []);
    }
  }

  // ---- flushes meet

  function Types(es: seq<Event>): (ids: seq<TimerId>)
    ensures |ids| == |es|
  {
    if es == [] then [] else Types(es[..|es| - 1]) + [es[|es| - 1].id]
  }

  lemma {:induction false} TypesAreIds(es: seq<Event>)
    ensures Types(es) == Ids(MarksOf(es))
  {
    if es != [] {
      var n := |es| - 1;
      TypesAreIds(es[..n]);
      assert MarksOf(es)[..|MarksOf(es)| - 1] == MarksOf(es[..n]);
    }
  }

  lemma {:induction false} TypesConcat(a: seq<Event>, b: seq<Event>)
    ensures Types(a + b) == Types(a) + Types(b)
  {
    if b == [] {
      assert a + b == a;
    } else {
      var n := |b| - 1;
      assert (a + b)[..|a + b| - 1] == a + b[..n];
      TypesConcat(a, b[..n]);
    }
  }

  lemma {:induction false} TypeAt(es: seq<Event>, i: nat)
    requires i < |es|
    ensures Types(es)[i] == es[i].id
  {
    if i < |es| - 1 {
      TypeAt(es[..|es| - 1], i);
    }
  }

  /** A rank's record: the batches flushed, of the flush interval each, and what is pending. */
  ghost predicate IsRecord(interval: nat, bs: seq<seq<Event>>, p: seq<Event>)
  {
    (forall k :: 0 <= k < |bs| ==> |bs[k]| == interval) && |p| < interval
  }

  lemma {:induction false} SizesAgree(interval: nat, bs: seq<seq<Event>>, p: seq<Event>, bs': seq<seq<Event>>, p': seq<Event>)
    requires IsRecord(interval, bs, p) && IsRecord(interval, bs', p')
    requires |Flatten(bs)| + |p| == |Flatten(bs')| + |p'|
    ensures |bs| == |bs'| && |p| == |p'|
  {
    if bs != [] && bs' != [] {
      SizesAgree(interval, bs[..|bs| - 1], p, bs'[..|bs'| - 1], p');
    }
  }

  lemma {:induction false} SplitTypes(a: seq<Event>, b: seq<Event>, a': seq<Event>, b': seq<Event>)
    requires Types(a + b) == Types(a' + b') && |b| == |b'|
    ensures Types(a) == Types(a') && Types(b) == Types(b')
  {
    TypesConcat(a, b);
    TypesConcat(a', b');
    assert |a| == |a'|;
    assert Types(a) == Types(a + b)[..|a|] && Types(b) == Types(a + b)[|a|..];
    assert Types(a') == Types(a' + b')[..|a|] && Types(b') == Types(a' + b')[|a|..];
  }

  lemma {:induction false} BatchesAgree(interval: nat, bs: seq<seq<Event>>, bs': seq<seq<Event>>)
    requires IsRecord(interval, bs, []) && IsRecord(interval, bs', []) && |bs| == |bs'|
    requires Types(Flatten(bs)) == Types(Flatten(bs'))
    ensures forall k :: 0 <= k < |bs| ==> Types(bs[k]) == Types(bs'[k])
  {
    if bs != [] {
      var n := |bs| - 1;
      SplitTypes(Flatten(bs[..n]), bs[n], Flatten(bs'[..n]), bs'[n]);
      hide Types, Flatten;
      BatchesAgree(interval, bs[..n], bs'[..n]);
      forall k | 0 <= k < |bs|
        ensures Types(bs[k]) == Types(bs'[k])
      {
        if k < n {
          assert Types(bs[..n][k]) == Types(bs'[..n][k]);
        }
      }
    }
  }

  /** Two ranks that record the same types flush equally often, with the same count and the same
      types each time: every collective reduction meets, and slot by slot it adds like to like. */
  lemma {:induction false} FlushesMeet(interval: nat, bs: seq<seq<Event>>, p: seq<Event>, bs': seq<seq<Event>>, p': seq<Event>)
    requires IsRecord(interval, bs, p) && IsRecord(interval, bs', p')
    requires Types(Flatten(bs) + p) == Types(Flatten(bs') + p')
    ensures |bs| == |bs'| && |p| == |p'| && Types(p) == Types(p')
    ensures forall k :: 0 <= k < |bs| ==> Types(bs[k]) == Types(bs'[k])
  {
    assert |Flatten(bs) + p| == |Types(Flatten(bs) + p)| == |Flatten(bs') + p'|;
    SizesAgree(interval, bs, p, bs', p');
    SplitTypes(Flatten(bs), p, Flatten(bs'), p');
    BatchesAgree(interval, bs, bs');
  }

  /** What one test records. */
  function TestMarks(a: Args, n: nat, grow: bool, color: nat): seq<Mark>
  {
    if grow then GrowMarks(a, n, color == 0) else SplitMarks(a, n, HasChild(a, color))
  }

  lemma {:induction false} TestLockstep(a: Args, n: nat, grow: bool, color: nat, color': nat)
    ensures Ids(TestMarks(a, n, grow, color)) == Ids(TestMarks(a, n, grow, color'))
  {
    hide Ids, SplitMarks, GrowMarks;
    SplitLockstep(a, n, HasChild(a, color), HasChild(a, color'));
    GrowLockstep(a, n, color == 0, color' == 0);
  }

  /** Ranks of any two colours, having run a split or shrink test (a grow test) after the same earlier
      types, if any, have flushed together throughout. A sub-communicator's timers start empty. */
  lemma {:induction false} ColoursFlushTogether(a: Args, n: nat, grow: bool, color: nat, color': nat, interval: nat,
                                                earlier: seq<Mark>, bs: seq<seq<Event>>, p: seq<Event>,
                                                earlier': seq<Mark>, bs': seq<seq<Event>>, p': seq<Event>)
    requires IsRecord(interval, bs, p) && IsRecord(interval, bs', p') && Ids(earlier) == Ids(earlier')
    requires MarksOf(Flatten(bs) + p) == earlier + TestMarks(a, n, grow, color)
    requires MarksOf(Flatten(bs') + p') == earlier' + TestMarks(a, n, grow, color')
    ensures |bs| == |bs'| && |p| == |p'| && Types(p) == Types(p')
    ensures forall k :: 0 <= k < |bs| ==> Types(bs[k]) == Types(bs'[k])
  {
    hide Types, Flatten, MarksOf, Ids, TestMarks;
    TypesAreIds(Flatten(bs) + p);
    TypesAreIds(Flatten(bs') + p');
    TestLockstep(a, n, grow, color, color');
    SameParts(earlier, TestMarks(a, n, grow, color), earlier', TestMarks(a, n, grow, color'));
    FlushesMeet(interval, bs, p, bs', p');
  }

  // ---- the totals at the root

  /** What is accumulated: times, their squares, the longest time, participations. */
  datatype Measure = Elapsed | Squares | Longest | Took

  function Weight(e: Event, m: Measure): nat
  {
    match m
    case Elapsed => e.elapsed
    case Squares => Square(e.elapsed)
    case Longest => e.elapsed
    case Took => if e.took then 1 else 0
  }

  function Square(x: nat): (y: nat)
    ensures x == 0 ==> y == 0
  {
    MulCommutes(x, x);
    ProductNonNegative(x, x);
    x * x
  }

  /** The maximum for the longest time, the sum for the rest. */
  function Combine(m: Measure, a: nat, b: nat): (c: nat)
    ensures b == 0 ==> c == a
    ensures a == 0 ==> c == b
  {
    if m == Longest then (if a >= b then a else b) else a + b
  }

  lemma {:induction false} CombineLaws(m: Measure, a: nat, b: nat, c: nat, d: nat)
    ensures Combine(m, Combine(m, a, b), c) == Combine(m, a, Combine(m, b, c))
    ensures Combine(m, Combine(m, a, b), Combine(m, c, d)) == Combine(m, Combine(m, a, c), Combine(m, b, d))
  {
  }

  /** The reduction over ranks of slot j. */
  function Column(cols: seq<seq<Event>>, j: nat, m: Measure): nat
  {
    if cols == [] then 0 else
    var last := cols[|cols| - 1];
    Combine(m, Column(cols[..|cols| - 1], j, m), if j < |last| then Weight(last[j], m) else 0)
  }

  /** Slot j counts for type t: the root recorded that type, and some rank took part. */
  predicate Counts(cols: seq<seq<Event>>, t: TimerId, j: nat)
  {
    cols != [] && j < |cols[0]| && cols[0][j].id == t && Column(cols, j, Took) > 0
  }

  /** What the root adds for type t from the first k slots. */
  function RootSum(cols: seq<seq<Event>>, t: TimerId, m: Measure, k: nat): nat
  {
    if k == 0 then 0 else
    Combine(m, RootSum(cols, t, m, k - 1), if Counts(cols, t, k - 1) then Column(cols, k - 1, m) else 0)
  }

  function Rounds(cols: seq<seq<Event>>, t: TimerId, k: nat): nat
  {
    if k == 0 then 0 else Rounds(cols, t, k - 1) + if Counts(cols, t, k - 1) then 1 else 0
  }

  /** after holds, for every type, what before held and the root's sum of the first k slots. */
  ghost predicate SumsTo(before: map<TimerId, nat>, after: map<TimerId, nat>, cols: seq<seq<Event>>, m: Measure, k: nat)
  {
    forall t: TimerId :: t in before && t in after && after[t] == Combine(m, before[t], RootSum(cols, t, m, k))
  }

  ghost predicate RoundsTo(before: map<TimerId, nat>, after: map<TimerId, nat>, cols: seq<seq<Event>>, k: nat)
  {
    forall t: TimerId :: t in before && t in after && after[t] == before[t] + Rounds(cols, t, k)
  }

  lemma {:induction false} NothingSummed(before: map<TimerId, nat>, cols: seq<seq<Event>>, m: Measure)
    requires HasAll(before)
    ensures SumsTo(before, before, cols, m, 0) && RoundsTo(before, before, cols, 0)
  {
  }

  lemma {:induction false} SumsStep(before: map<TimerId, nat>, after: map<TimerId, nat>, cols: seq<seq<Event>>, m: Measure, j: nat)
    requires SumsTo(before, after, cols, m, j) && cols != [] && j < |cols[0]|
    ensures SumsTo(before, if Column(cols, j, Took) > 0 then after[cols[0][j].id := Combine(m, after[cols[0][j].id], Column(cols, j, m))] else after,
                   cols, m, j + 1)
  {
    hide Column, Combine;
    var u := cols[0][j].id;
    CombineLaws(m, before[u], RootSum(cols, u, m, j), Column(cols, j, m), 0);
  }

  lemma {:induction false} RoundsStep(before: map<TimerId, nat>, after: map<TimerId, nat>, cols: seq<seq<Event>>, j: nat)
    requires RoundsTo(before, after, cols, j) && cols != [] && j < |cols[0]|
    ensures RoundsTo(before, if Column(cols, j, Took) > 0 then after[cols[0][j].id := after[cols[0][j].id] + 1] else after, cols, j + 1)
  {
    hide Column;
  }

  ghost predicate HasAll(m: map<TimerId, nat>)
  {
    forall t: TimerId :: t in m
  }

  lemma {:induction false} StillAll(m: map<TimerId, nat>, t: TimerId, x: nat)
    requires HasAll(m)
    ensures HasAll(m[t := x])
  {
  }

  class Summary {
    var sum: map<TimerId, nat>
    var sumsq: map<TimerId, nat>
    var max: map<TimerId, nat>
    var participants: map<TimerId, nat>
    var rounds: map<TimerId, nat>

    ghost predicate Valid()
      reads this
    {
      HasAll(sum) && HasAll(sumsq) && HasAll(max) && HasAll(participants) && HasAll(rounds)
    }

    method ReduceSlot(cols: seq<seq<Event>>, j: nat, m: Measure) returns (s: nat)
      requires forall r :: 0 <= r < |cols| ==> j < |cols[r]|
      ensures s == Column(cols, j, m)
    {
      s := 0;
      for r := 0 to |cols|
        invariant s == Column(cols[..r], j, m)
      {
        assert cols[..r + 1][..r] == cols[..r];
        s := Combine(m, s, Weight(cols[r][j], m));
      }
      assert cols[..|cols|] == cols;
    }

    method CountsMatch(counts: seq<nat>) returns (allMatch: bool)
      requires |counts| > 0
      ensures allMatch <==> forall r :: 0 <= r < |counts| ==> counts[r] == counts[0]
    {
      allMatch := true;
      for i := 0 to |counts|
        invariant allMatch <==> forall r :: 0 <= r < i ==> counts[r] == counts[0]
      {
        if counts[i] != counts[0] {
          allMatch := false;
        }
      }
    }

    /** Reduces the slots of all ranks and adds them up by type; reports whether all counts match. */
    method GatherTiming(cols: seq<seq<Event>>, counts: seq<nat>) returns (allMatch: bool)
      requires Valid() && |cols| == |counts| > 0 && forall r :: 0 <= r < |cols| ==> counts[0] <= |cols[r]|
      modifies this
      ensures Valid() && (allMatch <==> forall r :: 0 <= r < |counts| ==> counts[r] == counts[0])
      ensures SumsTo(old(sum), sum, cols, Elapsed, counts[0])
      ensures SumsTo(old(sumsq), sumsq, cols, Squares, counts[0])
      ensures SumsTo(old(max), max, cols, Longest, counts[0])
      ensures SumsTo(old(participants), participants, cols, Took, counts[0])
      ensures RoundsTo(old(rounds), rounds, cols, counts[0])
    {
      hide Column, SumsTo, RoundsTo, Rounds, RootSum, Combine;
      allMatch := CountsMatch(counts);
      NothingSummed(sum, cols, Elapsed);
      NothingSummed(sumsq, cols, Squares);
      NothingSummed(max, cols, Longest);
      NothingSummed(participants, cols, Took);
      NothingSummed(rounds, cols, Took);
      var jj := 0;
      while jj < counts[0]
        invariant jj <= counts[0] && Valid()
        invariant SumsTo(old(sum), sum, cols, Elapsed, jj)
        invariant SumsTo(old(sumsq), sumsq, cols, Squares, jj)
        invariant SumsTo(old(max), max, cols, Longest, jj)
        invariant SumsTo(old(participants), participants, cols, Took, jj)
        invariant RoundsTo(old(rounds), rounds, cols, jj)
      {
        var took := ReduceSlot(cols, jj, Took);
        var elapsed := ReduceSlot(cols, jj, Elapsed);
        var squares := ReduceSlot(cols, jj, Squares);
        var longest := ReduceSlot(cols, jj, Longest);
        SumsStep(old(sum), sum, cols, Elapsed, jj);
        SumsStep(old(sumsq), sumsq, cols, Squares, jj);
        SumsStep(old(max), max, cols, Longest, jj);
        SumsStep(old(participants), participants, cols, Took, jj);
        RoundsStep(old(rounds), rounds, cols, jj);
        if took > 0 {
          Add(cols[0][jj].id, elapsed, squares, longest, took);
        }
        jj := jj + 1;
      }
    }

    lemma HasType(id: TimerId)
      requires Valid()
      ensures id in sum && id in sumsq && id in max && id in participants && id in rounds
    {
    }

    method Add(id: TimerId, elapsed: nat, squares: nat, longest: nat, took: nat)
      requires Valid()
      modifies this
      ensures Valid()
      ensures sum == old(sum)[id := Combine(Elapsed, old(sum)[id], elapsed)]
      ensures sumsq == old(sumsq)[id := Combine(Squares, old(sumsq)[id], squares)]
      ensures max == old(max)[id := Combine(Longest, old(max)[id], longest)]
      ensures participants == old(participants)[id := Combine(Took, old(participants)[id], took)]
      ensures rounds == old(rounds)[id := old(rounds)[id] + 1]
    {
      hide HasAll;
      HasType(id);
      StillAll(sum, id, sum[id] + elapsed);
      StillAll(sumsq, id, sumsq[id] + squares);
      StillAll(max, id, if max[id] >= longest then max[id] else longest);
      StillAll(participants, id, participants[id] + took);
      StillAll(rounds, id, rounds[id] + 1);
      sum := sum[id := sum[id] + elapsed];
      sumsq := sumsq[id := sumsq[id] + squares];
      max := max[id := if max[id] >= longest then max[id] else longest];
      participants := participants[id := participants[id] + took];
      rounds := rounds[id := rounds[id] + 1];
    }
  }

  /** What one rank recorded for type t. */
  function TypeTotal(es: seq<Event>, t: TimerId, m: Measure): nat
  {
    if es == [] then 0 else
    Combine(m, TypeTotal(es[..|es| - 1], t, m), if es[|es| - 1].id == t then Weight(es[|es| - 1], m) else 0)
  }

  /** ... and all ranks together. */
  function RankTotal(logs: seq<seq<Event>>, t: TimerId, m: Measure): nat
  {
    if logs == [] then 0 else Combine(m, RankTotal(logs[..|logs| - 1], t, m), TypeTotal(logs[|logs| - 1], t, m))
  }

  lemma {:induction false} TypeTotalConcat(a: seq<Event>, b: seq<Event>, t: TimerId, m: Measure)
    ensures TypeTotal(a + b, t, m) == Combine(m, TypeTotal(a, t, m), TypeTotal(b, t, m))
  {
    if b == [] {
      assert a + b == a;
    } else {
      var n := |b| - 1;
      assert (a + b)[..|a + b| - 1] == a + b[..n];
      TypeTotalConcat(a, b[..n], t, m);
      CombineLaws(m, TypeTotal(a, t, m), TypeTotal(b[..n], t, m), if b[n].id == t then Weight(b[n], m) else 0, 0);
      hide Combine, Weight;
    }
  }

  lemma {:induction false} RankTotalConcat(a: seq<seq<Event>>, b: seq<seq<Event>>, c: seq<seq<Event>>, t: TimerId, m: Measure)
    requires |a| == |b| == |c| && forall r :: 0 <= r < |a| ==> c[r] == a[r] + b[r]
    ensures RankTotal(c, t, m) == Combine(m, RankTotal(a, t, m), RankTotal(b, t, m))
  {
    if a != [] {
      var n := |a| - 1;
      RankTotalConcat(a[..n], b[..n], c[..n], t, m);
      TypeTotalConcat(a[n], b[n], t, m);
      CombineLaws(m, RankTotal(a[..n], t, m), RankTotal(b[..n], t, m), TypeTotal(a[n], t, m), TypeTotal(b[n], t, m));
      hide Combine, TypeTotal;
    }
  }

  lemma {:induction false} NobodyTook(cols: seq<seq<Event>>, j: nat, m: Measure)
    requires forall r :: 0 <= r < |cols| ==> j < |cols[r]| && Idle(cols[r])
    ensures Column(cols, j, Took) == 0 ==> Column(cols, j, m) == 0
  {
    if cols != [] {
      NobodyTook(cols[..|cols| - 1], j, m);
    }
  }

  lemma {:induction false} LastEvent(es: seq<Event>, front: seq<Event>, j: nat, t: TimerId, m: Measure, u: TimerId)
    requires |es| == j + 1 && es[j].id == u && front == es[..j]
    ensures TypeTotal(es, t, m) == Combine(m, TypeTotal(front, t, m), if u == t then Weight(es[j], m) else 0)
  {
    hide Combine, Weight;
  }

  /** Slots in which all ranks recorded type u add to the total of u alone. */
  lemma {:induction false} SlotTotal(cols: seq<seq<Event>>, fronts: seq<seq<Event>>, j: nat, t: TimerId, m: Measure, u: TimerId)
    requires |cols| == |fronts|
    requires forall r :: 0 <= r < |cols| ==> |cols[r]| == j + 1 && cols[r][j].id == u && fronts[r] == cols[r][..j]
    ensures RankTotal(cols, t, m) == Combine(m, RankTotal(fronts, t, m), if u == t then Column(cols, j, m) else 0)
  {
    hide Combine, Weight, TypeTotal;
    if cols != [] {
      var n := |cols| - 1;
      SlotTotal(cols[..n], fronts[..n], j, t, m, u);
      LastEvent(cols[n], fronts[n], j, t, m, u);
      var w := Weight(cols[n][j], m);
      assert Column(cols, j, m) == Combine(m, Column(cols[..n], j, m), w);
      hide Column;
      CombineLaws(m, RankTotal(fronts[..n], t, m), if u == t then Column(cols[..n], j, m) else 0,
                  TypeTotal(fronts[n], t, m), if u == t then w else 0);
    }
  }

  function Prefix(es: seq<Event>, j: nat): seq<Event>
  {
    if j <= |es| then es[..j] else es
  }

  function Fronts(cols: seq<seq<Event>>, j: nat): (fs: seq<seq<Event>>)
    ensures |fs| == |cols| && forall r :: 0 <= r < |cols| ==> fs[r] == Prefix(cols[r], j)
  {
    seq(|cols|, r requires 0 <= r < |cols| => Prefix(cols[r], j))
  }

  lemma {:induction false} ColumnOfFronts(cols: seq<seq<Event>>, k: nat, j: nat, m: Measure)
    requires j < k
    ensures Column(Fronts(cols, k), j, m) == Column(cols, j, m)
  {
    if cols != [] {
      var n := |cols| - 1;
      ColumnOfFronts(cols[..n], k, j, m);
      assert Fronts(cols, k)[..n] == Fronts(cols[..n], k);
    }
  }

  /** Skipped events carry no time. */
  ghost predicate Idle(es: seq<Event>)
  {
    forall i :: 0 <= i < |es| ==> (!es[i].took ==> es[i].elapsed == 0)
  }

  /** The ranks' slots agree: at least k, like types, and no time where a rank sat out. */
  ghost predicate Alike(cols: seq<seq<Event>>, k: nat)
  {
    cols != [] && forall r :: 0 <= r < |cols| ==> |cols[r]| >= k && Types(cols[r]) == Types(cols[0]) && Idle(cols[r])
  }

  lemma {:induction false} LastSlot(cols: seq<seq<Event>>, j: nat, t: TimerId, m: Measure)
    requires Alike(cols, j + 1)
    ensures j < |cols[0]|
    ensures RankTotal(Fronts(cols, j + 1), t, m)
         == Combine(m, RankTotal(Fronts(cols, j), t, m), if cols[0][j].id == t then Column(cols, j, m) else 0)
  {
    hide RankTotal, Column, Fronts, Idle;
    var a: seq<seq<Event>> := Fronts(cols, j + 1);
    var b: seq<seq<Event>> := Fronts(cols, j);
    forall r | 0 <= r < |cols|
      ensures |a[r]| == j + 1 && a[r][j].id == cols[0][j].id && b[r] == a[r][..j]
    {
      SlotOf(cols[r], cols[0], j);
    }
    ColumnOfFronts(cols, j + 1, j, m);
    hide Alike, Prefix, Types;
    SlotTotal(a, b, j, t, m, cols[0][j].id);
  }

  lemma {:induction false} SlotOf(es: seq<Event>, root: seq<Event>, j: nat)
    requires j < |es| && Types(es) == Types(root)
    ensures j < |root| && |Prefix(es, j + 1)| == j + 1 && Prefix(es, j + 1)[j].id == root[j].id
    ensures Prefix(es, j) == Prefix(es, j + 1)[..j]
  {
    TypeAt(es, j);
    TypeAt(root, j);
  }

  lemma {:induction false} AlikeFewer(cols: seq<seq<Event>>, j: nat, m: Measure)
    requires Alike(cols, j + 1)
    ensures cols != [] && Alike(cols, j) && j < |cols[0]|
    ensures Column(cols, j, Took) == 0 ==> Column(cols, j, m) == 0
  {
    hide Types, Column;
    NobodyTook(cols, j, m);
  }

  /** One flush adds every event of every rank exactly once, under its own type. */
  lemma {:induction false} FlushTotal(cols: seq<seq<Event>>, k: nat, t: TimerId, m: Measure)
    requires Alike(cols, k)
    ensures RootSum(cols, t, m, k) == RankTotal(Fronts(cols, k), t, m)
  {
    hide Alike, RankTotal, Column, Types, Idle, Fronts;
    if k == 0 {
      NothingYet(Fronts(cols, 0), t, m);
    } else {
      var j := k - 1;
      AlikeFewer(cols, j, m);
      FlushTotal(cols, j, t, m);
      LastSlot(cols, j, t, m);
    }
  }

  lemma {:induction false} NothingYet(logs: seq<seq<Event>>, t: TimerId, m: Measure)
    requires forall r :: 0 <= r < |logs| ==> logs[r] == []
    ensures RankTotal(logs, t, m) == 0
  {
    if logs != [] {
      NothingYet(logs[..|logs| - 1], t, m);
    }
  }

  function KthBatch(bs: seq<seq<Event>>, k: nat): seq<Event>
  {
    if k < |bs| then bs[k] else []
  }

  /** The k-th batch of every rank. */
  function Batch(all: seq<seq<seq<Event>>>, k: nat): (cols: seq<seq<Event>>)
    ensures |cols| == |all| && forall r :: 0 <= r < |all| ==> cols[r] == KthBatch(all[r], k)
  {
    seq(|all|, r requires 0 <= r < |all| => KthBatch(all[r], k))
  }

  /** What the root has added after k flushes of `interval` slots. */
  function GatheredSum(all: seq<seq<seq<Event>>>, interval: nat, t: TimerId, m: Measure, k: nat): nat
  {
    if k == 0 then 0 else Combine(m, GatheredSum(all, interval, t, m, k - 1), RootSum(Batch(all, k - 1), t, m, interval))
  }

  /** What a rank has handed over in its first k flushes. */
  function Handed(bs: seq<seq<Event>>, k: nat): seq<Event>
  {
    if k == 0 then [] else Handed(bs, k - 1) + KthBatch(bs, k - 1)
  }

  function AllHanded(all: seq<seq<seq<Event>>>, k: nat): (fs: seq<seq<Event>>)
    ensures |fs| == |all| && forall r :: 0 <= r < |all| ==> fs[r] == Handed(all[r], k)
  {
    seq(|all|, r requires 0 <= r < |all| => Handed(all[r], k))
  }

  lemma {:induction false} HandedIsFlattened(bs: seq<seq<Event>>, k: nat)
    requires k <= |bs|
    ensures Handed(bs, k) == Flatten(bs[..k])
  {
    if k > 0 {
      HandedIsFlattened(bs, k - 1);
      assert bs[..k][..k - 1] == bs[..k - 1];
    }
  }

  /** Each of the first k flushes finds the ranks alike, with full batches. */
  ghost predicate FlushesAlike(all: seq<seq<seq<Event>>>, interval: nat, k: nat)
  {
    forall i :: 0 <= i < k ==> Alike(Batch(all, i), interval) && Fronts(Batch(all, i), interval) == Batch(all, i)
  }

  lemma {:induction false} GatheredIsTotal(all: seq<seq<seq<Event>>>, interval: nat, t: TimerId, m: Measure, k: nat)
    requires FlushesAlike(all, interval, k)
    ensures GatheredSum(all, interval, t, m, k) == RankTotal(AllHanded(all, k), t, m)
  {
    hide Alike, RootSum, RankTotal, AllHanded, Fronts, Batch, KthBatch;
    if k == 0 {
      NothingYet(AllHanded(all, 0), t, m);
    } else {
      var cols := Batch(all, k - 1);
      assert Alike(cols, interval) && Fronts(cols, interval) == cols;
      assert FlushesAlike(all, interval, k - 1);
      hide FlushesAlike;
      GatheredIsTotal(all, interval, t, m, k - 1);
      FlushTotal(cols, interval, t, m);
      forall r | 0 <= r < |all|
        ensures AllHanded(all, k)[r] == AllHanded(all, k - 1)[r] + cols[r]
      {
        assert Handed(all[r], k) == Handed(all[r], k - 1) + KthBatch(all[r], k - 1);
      }
      RankTotalConcat(AllHanded(all, k - 1), cols, AllHanded(all, k), t, m);
    }
  }

  /** Each rank's record is what it logged, cut into batches. */
  ghost predicate Records(interval: nat, all: seq<seq<seq<Event>>>, pending: seq<seq<Event>>, logs: seq<seq<Event>>)
  {
    && |all| == |pending| == |logs|
    && forall r :: 0 <= r < |all| ==> IsRecord(interval, all[r], pending[r]) && logs[r] == Flatten(all[r]) + pending[r]
  }

  lemma {:induction false} RecordsAlike(interval: nat, all: seq<seq<seq<Event>>>, pending: seq<seq<Event>>, logs: seq<seq<Event>>)
    requires Records(interval, all, pending, logs) && Alike(logs, 0)
    ensures forall r :: 0 <= r < |all| ==> |all[r]| == |all[0]| && |pending[r]| == |pending[0]|
    ensures Alike(pending, |pending[0]|) && FlushesAlike(all, interval, |all[0]|)
  {
    hide Types, Idle, Flatten, IsRecord, KthBatch, Batch, Fronts, Prefix;
    forall r | 0 <= r < |all|
      ensures |all[r]| == |all[0]| && |pending[r]| == |pending[0]| && Types(pending[r]) == Types(pending[0]) && Idle(pending[r])
      ensures SameBatches(interval, all[r], all[0])
    {
      RecordsPair(interval, all[r], pending[r], logs[r], all[0], pending[0], logs[0]);
    }
    hide Records;
    forall i | 0 <= i < |all[0]|
      ensures Alike(Batch(all, i), interval) && Fronts(Batch(all, i), interval) == Batch(all, i)
    {
      BatchAlike(interval, all, i);
    }
  }

  ghost predicate SameBatches(interval: nat, bs: seq<seq<Event>>, root: seq<seq<Event>>)
  {
    forall i: nat :: i < |root| ==>
      Types(KthBatch(bs, i)) == Types(KthBatch(root, i)) && Idle(KthBatch(bs, i)) && |KthBatch(bs, i)| == interval
  }

  lemma {:induction false} RecordsPair(interval: nat, bs: seq<seq<Event>>, p: seq<Event>, log: seq<Event>,
                                       bs': seq<seq<Event>>, p': seq<Event>, log': seq<Event>)
    requires IsRecord(interval, bs, p) && log == Flatten(bs) + p && IsRecord(interval, bs', p') && log' == Flatten(bs') + p'
    requires Types(log) == Types(log') && Idle(log)
    ensures |bs| == |bs'| && |p| == |p'| && Types(p) == Types(p') && Idle(p) && SameBatches(interval, bs, bs')
  {
    hide Types, Flatten, Idle;
    FlushesMeet(interval, bs, p, bs', p');
    IdleParts(bs, p);
  }

  lemma {:induction false} BatchAlike(interval: nat, all: seq<seq<seq<Event>>>, i: nat)
    requires all != [] && i < |all[0]| && forall r :: 0 <= r < |all| ==> SameBatches(interval, all[r], all[0])
    ensures Alike(Batch(all, i), interval) && Fronts(Batch(all, i), interval) == Batch(all, i)
  {
    hide Types, Idle, KthBatch;
    var cols := Batch(all, i);
    forall r | 0 <= r < |cols|
      ensures |cols[r]| == interval && Types(cols[r]) == Types(cols[0]) && Idle(cols[r])
      ensures Prefix(cols[r], interval) == cols[r]
    {
      assert SameBatches(interval, all[r], all[0]);
    }
  }

  /** For every flush interval: when all ranks recorded the same types, the totals the root has
      gathered after the flushes and the final gathering of what is pending are, type by type, the
      times, their squares, the longest time and the participations of all ranks, each counted once. */
  lemma {:induction false} EverythingCountedOnce(interval: nat, all: seq<seq<seq<Event>>>, pending: seq<seq<Event>>, logs: seq<seq<Event>>,
                                                 t: TimerId, m: Measure)
    requires Records(interval, all, pending, logs) && Alike(logs, 0)
    ensures Combine(m, GatheredSum(all, interval, t, m, |all[0]|), RootSum(pending, t, m, |pending[0]|)) == RankTotal(logs, t, m)
  {
    assert |all| > 0;
    hide Types, Idle, Flatten, RootSum, RankTotal, Alike, FlushesAlike, IsRecord, Handed, AllHanded, Fronts, GatheredSum;
    RecordsAlike(interval, all, pending, logs);
    var n := |all[0]|;
    forall r | 0 <= r < |all|
      ensures logs[r] == AllHanded(all, n)[r] + pending[r]
    {
      HandedIsFlattened(all[r], n);
      assert all[r][..n] == all[r];
    }
    assert forall r :: 0 <= r < |pending| ==> Prefix(pending[r], |pending[0]|) == pending[r];
    assert Fronts(pending, |pending[0]|) == pending;
    GatheredIsTotal(all, interval, t, m, n);
    FlushTotal(pending, |pending[0]|, t, m);
    RankTotalConcat(AllHanded(all, n), pending, logs, t, m);
  }

  lemma {:induction false} IdleParts(bs: seq<seq<Event>>, p: seq<Event>)
    requires Idle(Flatten(bs) + p)
    ensures Idle(p) && forall i :: 0 <= i < |bs| ==> Idle(bs[i])
  {
    var whole := Flatten(bs) + p;
    forall i | 0 <= i < |p|
      ensures !p[i].took ==> p[i].elapsed == 0
    {
      assert whole[|Flatten(bs)| + i] == p[i];
    }
    if bs != [] {
      var n := |bs| - 1;
      assert Idle(Flatten(bs[..n]) + bs[n]) by {
        forall i | 0 <= i < |Flatten(bs)|
          ensures !Flatten(bs)[i].took ==> Flatten(bs)[i].elapsed == 0
        {
          assert whole[i] == Flatten(bs)[i];
        }
      }
      IdleParts(bs[..n], bs[n]);
      hide Idle, Flatten;
      assert forall i :: 0 <= i < n ==> bs[i] == bs[..n][i];
    }
  }

  /** The ranks' logs after the same earlier types, if any, and then one test, each rank of its own colour. */
  ghost predicate Tested(a: Args, grow: bool, earlier: seq<seq<Mark>>, logs: seq<seq<Event>>)
  {
    && |logs| == |earlier| > 0
    && forall r: nat :: r < |logs| ==>
         && Ids(earlier[r]) == Ids(earlier[0]) && Idle(logs[r])
         && MarksOf(logs[r]) == earlier[r] + TestMarks(a, |logs|, grow, PickColor(a, r, |logs|))
  }

  lemma {:induction false} TestedAlike(a: Args, grow: bool, earlier: seq<seq<Mark>>, logs: seq<seq<Event>>)
    requires Tested(a, grow, earlier, logs)
    ensures Alike(logs, 0)
  {
    hide Types, Ids, MarksOf, Idle, PickColor, TestMarks;
    var n := |logs|;
    forall r: nat | r < n
      ensures Types(logs[r]) == Types(logs[0])
    {
      TypesAreIds(logs[r]);
      TypesAreIds(logs[0]);
      TestLockstep(a, n, grow, PickColor(a, r, n), PickColor(a, 0, n));
      SameParts(earlier[r], TestMarks(a, n, grow, PickColor(a, r, n)), earlier[0], TestMarks(a, n, grow, PickColor(a, 0, n)));
    }
  }

  /** After a split, shrink or grow test in which every rank recorded what its own colour records, and
      for every flush interval, the root has counted every event of every rank exactly once. */
  lemma {:induction false} TestCountedOnce(a: Args, grow: bool, earlier: seq<seq<Mark>>, interval: nat, all: seq<seq<seq<Event>>>,
                                           pending: seq<seq<Event>>, logs: seq<seq<Event>>, t: TimerId, m: Measure)
    requires Tested(a, grow, earlier, logs) && Records(interval, all, pending, logs)
    ensures |all| == |pending| == |logs|
    ensures Combine(m, GatheredSum(all, interval, t, m, |all[0]|), RootSum(pending, t, m, |pending[0]|)) == RankTotal(logs, t, m)
  {
    hide Alike, GatheredSum, RootSum, RankTotal, TestMarks, PickColor, MarksOf, Ids, Idle;
    TestedAlike(a, grow, earlier, logs);
    EverythingCountedOnce(interval, all, pending, logs, t, m);
  }

  // ---- what the totals are

  /** The events of a log that were recorded under type t, and those of all logs. */
  function Recorded(es: seq<Event>, t: TimerId): seq<Event>
  {
    if es == [] then [] else
    Recorded(es[..|es| - 1], t) + if es[|es| - 1].id == t then [es[|es| - 1]] else []
  }

  function AllRecorded(logs: seq<seq<Event>>, t: TimerId): seq<Event>
  {
    if logs == [] then [] else AllRecorded(logs[..|logs| - 1], t) + Recorded(logs[|logs| - 1], t)
  }

  function Times(es: seq<Event>): (xs: seq<int>)
    ensures |xs| == |es| && forall i :: 0 <= i < |es| ==> xs[i] == es[i].elapsed
  {
    seq(|es|, i requires 0 <= i < |es| => es[i].elapsed)
  }

  function TimesSquared(es: seq<Event>): (xs: seq<int>)
    ensures |xs| == |es| && forall i :: 0 <= i < |es| ==> xs[i] == es[i].elapsed * es[i].elapsed
  {
    seq(|es|, i requires 0 <= i < |es| => es[i].elapsed * es[i].elapsed)
  }

  function Participations(es: seq<Event>): (xs: seq<int>)
    ensures |xs| == |es| && forall i :: 0 <= i < |es| ==> xs[i] == if es[i].took then 1 else 0
  {
    seq(|es|, i requires 0 <= i < |es| => if es[i].took then 1 else 0)
  }

  /** max is the longest of the times recorded, or 0 if there is none. */
  ghost predicate IsLongest(es: seq<Event>, max: nat)
  {
    && (forall e :: e in es ==> e.elapsed <= max)
    && (max == 0 || exists e :: e in es && e.elapsed == max)
  }

  lemma {:induction false} SumsConcat(a: seq<Event>, b: seq<Event>)
    ensures Sum(Times(a + b)) == Sum(Times(a)) + Sum(Times(b))
    ensures Sum(TimesSquared(a + b)) == Sum(TimesSquared(a)) + Sum(TimesSquared(b))
    ensures Sum(Participations(a + b)) == Sum(Participations(a)) + Sum(Participations(b))
  {
    hide Sum;
    assert Times(a + b) == Times(a) + Times(b);
    assert TimesSquared(a + b) == TimesSquared(a) + TimesSquared(b);
    assert Participations(a + b) == Participations(a) + Participations(b);
    SumConcat(Times(a), Times(b));
    SumConcat(TimesSquared(a), TimesSquared(b));
    SumConcat(Participations(a), Participations(b));
  }

  lemma {:induction false} LongestConcat(a: seq<Event>, x: nat, b: seq<Event>, y: nat)
    requires IsLongest(a, x) && IsLongest(b, y)
    ensures IsLongest(a + b, if x >= y then x else y)
  {
    assert forall e :: e in a + b <==> e in a || e in b;
  }

  /** The accumulated measures of some events. */
  ghost predicate TotalsOf(es: seq<Event>, elapsed: nat, squares: nat, longest: nat, took: nat)
  {
    && elapsed == Sum(Times(es)) && squares == Sum(TimesSquared(es))
    && IsLongest(es, longest) && took == Sum(Participations(es))
  }

  lemma {:induction false} TotalsConcat(a: seq<Event>, b: seq<Event>, e: nat, s: nat, l: nat, k: nat, e': nat, s': nat, l': nat, k': nat)
    requires TotalsOf(a, e, s, l, k) && TotalsOf(b, e', s', l', k')
    ensures TotalsOf(a + b, e + e', s + s', if l >= l' then l else l', k + k')
  {
    hide Sum, Times, TimesSquared, Participations, IsLongest;
    SumsConcat(a, b);
    LongestConcat(a, l, b, l');
  }

  lemma {:induction false} TotalsOfNone()
    ensures TotalsOf([], 0, 0, 0, 0)
  {
    SumOfNothing();
    assert Times([]) == [] && TimesSquared([]) == [] && Participations([]) == [];
  }

  lemma {:induction false} TotalsOfOne(x: Event)
    ensures x.elapsed * x.elapsed >= 0
    ensures TotalsOf([x], x.elapsed, x.elapsed * x.elapsed, x.elapsed, if x.took then 1 else 0)
  {
    hide Sum;
    ProductNonNegative(x.elapsed, x.elapsed);
    SumSingle(x.elapsed);
    SumSingle(x.elapsed * x.elapsed);
    SumSingle(if x.took then 1 else 0);
    assert Times([x]) == [x.elapsed] && TimesSquared([x]) == [x.elapsed * x.elapsed];
    assert Participations([x]) == [if x.took then 1 else 0];
    assert x in [x];
  }

  lemma {:induction false} TypeTotalsAre(es: seq<Event>, t: TimerId)
    ensures TotalsOf(Recorded(es, t), TypeTotal(es, t, Elapsed), TypeTotal(es, t, Squares), TypeTotal(es, t, Longest), TypeTotal(es, t, Took))
  {
    hide TotalsOf;
    TotalsOfNone();
    if es != [] {
      var front, x := es[..|es| - 1], es[|es| - 1];
      TypeTotalsAre(front, t);
      TotalsOfOne(x);
      if x.id == t {
        TotalsConcat(Recorded(front, t), [x],
                     TypeTotal(front, t, Elapsed), TypeTotal(front, t, Squares), TypeTotal(front, t, Longest), TypeTotal(front, t, Took),
                     x.elapsed, x.elapsed * x.elapsed, x.elapsed, if x.took then 1 else 0);
      } else {
        assert Recorded(es, t) == Recorded(front, t);
      }
    }
  }

  /** Over all ranks and for each type: the sum of the times recorded under it, the sum of their squares,
      the longest of them, and how often a rank took part. */
  lemma {:induction false} TotalsAre(logs: seq<seq<Event>>, t: TimerId)
    ensures RankTotal(logs, t, Elapsed) == Sum(Times(AllRecorded(logs, t)))
    ensures RankTotal(logs, t, Squares) == Sum(TimesSquared(AllRecorded(logs, t)))
    ensures IsLongest(AllRecorded(logs, t), RankTotal(logs, t, Longest))
    ensures RankTotal(logs, t, Took) == Sum(Participations(AllRecorded(logs, t)))
  {
    hide Sum, Times, TimesSquared, Participations, IsLongest, TypeTotal, Recorded;
    TotalsOfNone();
    if logs != [] {
      var front, es := logs[..|logs| - 1], logs[|logs| - 1];
      TotalsAre(front, t);
      TypeTotalsAre(es, t);
      TotalsConcat(AllRecorded(front, t), Recorded(es, t),
                   RankTotal(front, t, Elapsed), RankTotal(front, t, Squares), RankTotal(front, t, Longest), RankTotal(front, t, Took),
                   TypeTotal(es, t, Elapsed), TypeTotal(es, t, Squares), TypeTotal(es, t, Longest), TypeTotal(es, t, Took));
    }
  }

  lemma {:induction false} RecordedAre(es: seq<Event>, t: TimerId, e: Event)
    ensures e in Recorded(es, t) <==> e in es && e.id == t
  {
    if es != [] {
      RecordedAre(es[..|es| - 1], t, e);
      assert es == es[..|es| - 1] + [es[|es| - 1]];
    }
  }

  /** They are the events of any log that have the type. */
  lemma {:induction false} AllRecordedAre(logs: seq<seq<Event>>, t: TimerId, e: Event)
    ensures e in AllRecorded(logs, t) <==> e.id == t && exists r :: 0 <= r < |logs| && e in logs[r]
  {
    if logs != [] {
      var n := |logs| - 1;
      AllRecordedAre(logs[..n], t, e);
      RecordedAre(logs[n], t, e);
      assert forall r :: 0 <= r < n ==> logs[..n][r] == logs[r];
    }
  }
}
