/** Sizes and offsets of a test run (src/common.cu and the count functions of the collectives):
    where each rank's send and receive data lie in its buffers, in bytes. */
module Layout {
  import opened Arith
  import opened Bits

  /** The collectives by the way they divide a size among ranks; Whole ones do not. */
  datatype Kind = AllGather | Gather | HyperCube | AlltoAll | Scatter | ReduceScatter | Whole

  datatype Counts = Counts(send: nat, recv: nat, param: nat, sendInplace: nat, recvInplace: nat)

  /** eltLog: the element size is 2^eltLog bytes, at most 8. */
  datatype Run = Run(kind: Kind, n: nat, eltLog: nat, size: nat, maxbytes: nat, unalign: nat)

  predicate ValidRun(r: Run)
  {
    r.n > 0 && r.eltLog <= 3 && r.size <= r.maxbytes
  }

  function Elt(r: Run): (e: nat)
    ensures e >= 1
  {
    Pow2(r.eltLog)
  }

  /** `(count/nranks) & ~(16/eltSize - 1)` */
  function Base(count: nat, eltLog: nat, n: nat): nat
    requires n > 0 && eltLog <= 4
  {
    QuotientBounds(count, n);
    MaskIs(eltLog);
    AndNot(count / n, 16 / Pow2(eltLog) - 1)
  }

  lemma {:induction false} MaskIs(eltLog: nat)
    requires eltLog <= 4
    ensures 16 / Pow2(eltLog) == Pow2(4 - eltLog) >= 1 && Pow2(eltLog) * Pow2(4 - eltLog) == 16
  {
    assert Pow2(1) == 2 && Pow2(2) == 4 && Pow2(3) == 8 && Pow2(4) == 16;
    assert eltLog == 0 || eltLog == 1 || eltLog == 2 || eltLog == 3 || eltLog == 4;
  }

  function CollByteCount(kind: Kind, count: nat, eltLog: nat, n: nat): Counts
    requires n > 0 && eltLog <= 4
  {
    var base := Base(count, eltLog, n);
    ProductNonNegative(base, n);
    match kind
    case AllGather => Counts(base, base * n, base, base, 0)
    case Gather => Counts(base, base * n, base, base, 0)
    case HyperCube => Counts(base, base * n, base, base, 0)
    case AlltoAll => Counts(base * n, base * n, base, 0, 0)
    case Scatter => Counts(base * n, base, base, 0, base)
    case ReduceScatter => Counts(base * n, base, base, 0, base)
    case Whole => Counts(count, count, count, 0, 0)
  }

  /** Every rank sends one share and may receive them all. */
  predicate Gathers(kind: Kind)
  {
    kind in {AllGather, Gather, HyperCube}
  }

  /** Every rank receives one share of what is sent. */
  predicate Scatters(kind: Kind)
  {
    kind in {Scatter, ReduceScatter}
  }

  class ThreadArgs {
    var nbytes: nat
    var sendBytes: nat
    var expectedBytes: nat
    var sendInplaceOffset: nat
    var recvInplaceOffset: nat

    constructor ()
    {
    }

    method SetupArgs(r: Run)
      requires ValidRun(r)
      modifies this
      ensures nbytes == ParamBytes(r) && sendBytes == SendBytes(r) && expectedBytes == RecvBytes(r)
      ensures sendInplaceOffset == SendInplace(r) && recvInplaceOffset == RecvInplace(r)
      ensures sendBytes <= r.size && expectedBytes <= r.size
      ensures r.kind != Whole ==>
                && nbytes % 16 == 0 && nbytes * r.n <= r.size && (r.size / Elt(r)) * Elt(r) < (nbytes + 16) * r.n
                && sendBytes == (if Gathers(r.kind) then nbytes else nbytes * r.n)
                && expectedBytes == (if Scatters(r.kind) then nbytes else nbytes * r.n)
                && sendInplaceOffset == (if Gathers(r.kind) then nbytes else 0)
                && recvInplaceOffset == (if Scatters(r.kind) then nbytes else 0)
      ensures r.kind == Whole ==>
                && nbytes == sendBytes == expectedBytes && r.size < nbytes + Elt(r) && nbytes % Elt(r) == 0
                && sendInplaceOffset == recvInplaceOffset == 0
    {
      BytesOf(r);
      ShareFits(r);
      hide CollByteCount, Elt, ShareBytes;
      var count := r.size / Elt(r);
      QuotientBounds(r.size, Elt(r));
      var c := CollByteCount(r.kind, count, r.eltLog, r.n);
      assert c == CountsOf(r);
      nbytes := Bytes(c.param, Elt(r));
      sendBytes := Bytes(c.send, Elt(r));
      expectedBytes := Bytes(c.recv, Elt(r));
      sendInplaceOffset := Bytes(c.sendInplace, Elt(r));
      recvInplaceOffset := Bytes(c.recvInplace, Elt(r));
    }
  }

  function Bytes(count: nat, elt: nat): nat
  {
    ProductNonNegative(count, elt);
    count * elt
  }

  function CountsOf(r: Run): Counts
    requires ValidRun(r)
  {
    QuotientBounds(r.size, Elt(r));
    CollByteCount(r.kind, r.size / Elt(r), r.eltLog, r.n)
  }

  function ParamBytes(r: Run): nat
    requires ValidRun(r)
  {
    Bytes(CountsOf(r).param, Elt(r))
  }

  function SendBytes(r: Run): nat
    requires ValidRun(r)
  {
    Bytes(CountsOf(r).send, Elt(r))
  }

  function RecvBytes(r: Run): nat
    requires ValidRun(r)
  {
    Bytes(CountsOf(r).recv, Elt(r))
  }

  function SendInplace(r: Run): nat
    requires ValidRun(r)
  {
    Bytes(CountsOf(r).sendInplace, Elt(r))
  }

  function RecvInplace(r: Run): nat
    requires ValidRun(r)
  {
    Bytes(CountsOf(r).recvInplace, Elt(r))
  }

  /** `totalnbytes` */
  function Total(r: Run): nat
    requires ValidRun(r)
  {
    if SendBytes(r) >= RecvBytes(r) then SendBytes(r) else RecvBytes(r)
  }

  function Steps(r: Run): nat
    requires ValidRun(r)
  {
    if Total(r) > 0 then
      QuotientBounds(r.maxbytes, Total(r));
      r.maxbytes / Total(r)
    else 1
  }

  // ---- one rank's share

  function ShareBytes(r: Run): nat
    requires ValidRun(r)
  {
    QuotientBounds(r.size, Elt(r));
    Bytes(Base(r.size / Elt(r), r.eltLog, r.n), Elt(r))
  }

  /** A rank's share is the largest multiple of 16 bytes of which n fit into the elements of the
      size. */
  lemma {:induction false} ShareFits(r: Run)
    requires ValidRun(r)
    ensures ShareBytes(r) % 16 == 0
    ensures ShareBytes(r) * r.n <= r.size
    ensures (r.size / Elt(r)) * Elt(r) < (ShareBytes(r) + 16) * r.n
  {
    var e := Elt(r);
    var count := r.size / e;
    QuotientBounds(r.size, e);
    QuotientBounds(count, r.n);
    MaskIs(r.eltLog);
    var q := count / r.n;
    ClearLowIs(q, 4 - r.eltLog);
    var base := Base(count, r.eltLog, r.n);
    var h := Shr(q, 4 - r.eltLog);
    assert base == Pow2(4 - r.eltLog) * h <= q;
    hide Base, Elt, AndNot, Shr, Pow2;
    ShareProduct(base, q, count, r.n, e, r.size);
    SixteenTimes(Pow2(4 - r.eltLog), h, e);
    NextShare(base, Pow2(4 - r.eltLog), q, count, r.n, e);
  }

  lemma {:induction false} NextShare(base: nat, m: nat, q: nat, count: nat, n: nat, e: nat)
    requires base + m > q && count < q * n + n && e * m == 16 && e > 0
    ensures count * e < (base * e + 16) * n
  {
    MulMono(q + 1, base + m, n);
    assert (q + 1) * n == q * n + n;
    MulMono(count + 1, (base + m) * n, e);
    assert (count + 1) * e == count * e + e;
    Regroup(base + m, n, e);
    assert (base + m) * e == base * e + m * e;
  }

  lemma {:induction false} SixteenTimes(m: nat, h: nat, e: nat)
    requires e * m == 16
    ensures (m * h) * e == 16 * h && (16 * h) % 16 == 0
  {
    Regroup(m, h, e);
    assert m * e == 16;
  }

  lemma {:induction false} ShareProduct(base: nat, q: nat, count: nat, n: nat, e: nat, size: nat)
    requires base <= q && q * n <= count && count * e <= size
    ensures (base * e) * n <= size
  {
    MulMono(base, q, n);
    MulMono(base * n, count, e);
    Regroup(base, e, n);
  }

  /** What the counts come to in bytes. */
  lemma {:induction false} BytesOf(r: Run)
    requires ValidRun(r)
    ensures r.kind != Whole ==>
              && ParamBytes(r) == ShareBytes(r)
              && Total(r) == ShareBytes(r) * r.n
              && SendBytes(r) == (if Gathers(r.kind) then ShareBytes(r) else ShareBytes(r) * r.n)
              && RecvBytes(r) == (if Scatters(r.kind) then ShareBytes(r) else ShareBytes(r) * r.n)
              && SendInplace(r) == (if Gathers(r.kind) then ShareBytes(r) else 0)
              && RecvInplace(r) == (if Scatters(r.kind) then ShareBytes(r) else 0)
    ensures r.kind == Whole ==>
              && ParamBytes(r) == SendBytes(r) == RecvBytes(r) == Total(r) <= r.size < Total(r) + Elt(r)
              && Total(r) % Elt(r) == 0 && SendInplace(r) == RecvInplace(r) == 0
  {
    QuotientBounds(r.size, Elt(r));
    if r.kind == Whole {
      DivModOf(r.size / Elt(r), 0, Elt(r));
    }
    var base := Base(r.size / Elt(r), r.eltLog, r.n);
    Regroup(base, r.n, Elt(r));
    MulMono(1, r.n, base * Elt(r));
    ProductNonNegative(base, Elt(r));
    assert 0 * Elt(r) == 0;
    hide Base, Elt;
  }

  /** The total never exceeds the largest size, so there is always at least one step to shift by. */
  lemma {:induction false} TotalFits(r: Run)
    requires ValidRun(r)
    ensures Total(r) <= r.size && Steps(r) >= 1
  {
    BytesOf(r);
    ShareFits(r);
    hide CollByteCount, SendBytes, RecvBytes, ShareBytes, Elt;
    if Total(r) > 0 {
      QuotientBounds(r.maxbytes, Total(r));
      var t, s := Total(r), r.maxbytes / Total(r);
      assert 0 * t == 0;
    }
  }

  function Shift(r: Run, iter: nat): nat
    requires ValidRun(r) && Steps(r) > 0
  {
    ProductNonNegative(Total(r), iter % Steps(r));
    Total(r) * (iter % Steps(r))
  }

  /** Where a rank's data begins in its (padded) buffer. */
  function SendAt(r: Run, iter: nat, inPlace: bool, rank: nat): int
    requires ValidRun(r) && Steps(r) > 0
  {
    Shift(r, iter) + (if inPlace then SendInplace(r) * rank else 0) + r.unalign * Elt(r)
  }

  function RecvAt(r: Run, iter: nat, inPlace: bool, rank: nat): int
    requires ValidRun(r) && Steps(r) > 0
  {
    Shift(r, iter) + (if inPlace then RecvInplace(r) * rank else 0) + r.unalign * Elt(r)
  }

  lemma {:induction false} ShiftFits(r: Run, iter: nat)
    requires ValidRun(r) && Steps(r) > 0
    ensures 0 <= Shift(r, iter) && Shift(r, iter) + Total(r) <= r.maxbytes
  {
    TotalFits(r);
    var t, s, i := Total(r), Steps(r), iter % Steps(r);
    ProductNonNegative(t, i);
    if t > 0 {
      QuotientBounds(r.maxbytes, t);
      ShiftProduct(t, s, i, r.maxbytes);
    } else {
      assert t * i == 0;
    }
  }

  lemma {:induction false} ShiftProduct(t: nat, s: nat, i: nat, m: nat)
    requires i < s && s * t <= m
    ensures t * i + t <= m
  {
    MulMono(i + 1, s, t);
    assert t * i + t == (i + 1) * t;
  }

  lemma {:induction false} SlotFits(share: nat, rank: nat, n: nat)
    requires rank < n
    ensures 0 <= share * rank && share * rank + share <= share * n
  {
    ProductNonNegative(share, rank);
    MulMono(rank + 1, n, share);
    assert share * (rank + 1) == share * rank + share;
  }

  lemma {:induction false} UnalignFits(r: Run)
    requires ValidRun(r)
    ensures 0 <= r.unalign * Elt(r) <= 8 * r.unalign
  {
    Pow2Mono(r.eltLog, 3);
    assert Pow2(3) == 8;
    MulMono(Elt(r), 8, r.unalign);
    ProductNonNegative(r.unalign, Elt(r));
  }

  /** For every size, element size, iteration and misalignment, in place or not, the ranges a rank
      sends from and receives into lie inside the padded allocation. */
  lemma {:induction false} RangesInside(r: Run, iter: nat, inPlace: bool, rank: nat)
    requires ValidRun(r) && rank < r.n
    ensures Steps(r) > 0
    ensures 0 <= SendAt(r, iter, inPlace, rank) && SendAt(r, iter, inPlace, rank) + SendBytes(r) <= r.maxbytes + 8 * r.unalign
    ensures 0 <= RecvAt(r, iter, inPlace, rank) && RecvAt(r, iter, inPlace, rank) + RecvBytes(r) <= r.maxbytes + 8 * r.unalign
  {
    TotalFits(r);
    ShiftFits(r, iter);
    UnalignFits(r);
    BytesOf(r);
    SlotFits(ShareBytes(r), rank, r.n);
    assert 0 * rank == 0;
    hide Elt, ShareBytes, Shift, SendBytes, RecvBytes, SendInplace, RecvInplace, Total, Steps;
    InPlaceFits(r, rank);
  }

  lemma {:induction false} InPlaceFits(r: Run, rank: nat)
    requires ValidRun(r) && rank < r.n
    ensures 0 <= SendInplace(r) * rank && SendInplace(r) * rank + SendBytes(r) <= Total(r)
    ensures 0 <= RecvInplace(r) * rank && RecvInplace(r) * rank + RecvBytes(r) <= Total(r)
  {
    BytesOf(r);
    SlotFits(ShareBytes(r), rank, r.n);
    assert 0 * rank == 0;
    var s, v, share := SendInplace(r), RecvInplace(r), ShareBytes(r);
    hide ShareBytes, SendInplace, RecvInplace, SendBytes, RecvBytes, CountsOf;
    MulMono(1, r.n, share);
  }

  /** Two iterations that are shifted differently use disjoint ranges; there are as many shifts as ranges
      fit into the largest size, used in turn from 0 on. */
  lemma {:induction false} ShiftsApart(r: Run, i: nat, j: nat)
    requires ValidRun(r)
    ensures Steps(r) > 0
    ensures i % Steps(r) < j % Steps(r) ==> Shift(r, i) + Total(r) <= Shift(r, j)
    ensures i < Steps(r) ==> i % Steps(r) == i
    ensures Shift(r, i + Steps(r)) == Shift(r, i) && Shift(r, 0) == 0
    ensures Total(r) > 0 ==> Steps(r) * Total(r) <= r.maxbytes < (Steps(r) + 1) * Total(r)
    ensures Total(r) == 0 ==> Steps(r) == 1
  {
    hide Total, Steps;
    TotalFits(r);
    StepsFit(r);
    TurnsApart(Total(r), Steps(r), i, j);
  }

  lemma {:induction false} StepsFit(r: Run)
    requires ValidRun(r)
    ensures Total(r) > 0 ==> Steps(r) * Total(r) <= r.maxbytes < (Steps(r) + 1) * Total(r)
    ensures Total(r) == 0 ==> Steps(r) == 1
  {
    hide Total;
    var t := Total(r);
    if t > 0 {
      QuotientBounds(r.maxbytes, t);
      assert (r.maxbytes / t + 1) * t == (r.maxbytes / t) * t + t;
    }
  }

  lemma {:induction false} TurnsApart(t: nat, s: nat, i: nat, j: nat)
    requires s > 0
    ensures i % s < j % s ==> t * (i % s) + t <= t * (j % s)
    ensures i < s ==> i % s == i
    ensures t * ((i + s) % s) == t * (i % s) && t * (0 % s) == 0
  {
    SmallMod(0, s);
    if i < s {
      SmallMod(i, s);
    }
    ModShift(i, s, s);
    if i % s < j % s {
      SlotFits(t, i % s, j % s);
    }
  }

  /** In place, a rank's share lies at its slot of what all ranks receive, or send; otherwise all ranks use
      one offset. */
  lemma {:induction false} SlotsCoincide(r: Run, iter: nat, inPlace: bool, rank: nat)
    requires ValidRun(r) && rank < r.n
    ensures Steps(r) > 0
    ensures inPlace && Gathers(r.kind) ==>
              RecvAt(r, iter, inPlace, rank) == RecvAt(r, iter, inPlace, 0)
              && SendAt(r, iter, inPlace, rank) == RecvAt(r, iter, inPlace, 0) + ShareBytes(r) * rank
    ensures inPlace && Scatters(r.kind) ==>
              SendAt(r, iter, inPlace, rank) == SendAt(r, iter, inPlace, 0)
              && RecvAt(r, iter, inPlace, rank) == SendAt(r, iter, inPlace, 0) + ShareBytes(r) * rank
    ensures !inPlace || (!Gathers(r.kind) && !Scatters(r.kind)) ==>
              SendAt(r, iter, inPlace, rank) == RecvAt(r, iter, inPlace, rank) == Shift(r, iter) + r.unalign * Elt(r)
  {
    TotalFits(r);
    BytesOf(r);
    hide ShareBytes, Shift, Elt, SendInplace, RecvInplace, Total, Steps;
    assert 0 * rank == 0 && ShareBytes(r) * 0 == 0 && 0 * 0 == 0;
  }

  lemma {:induction false} SixteenSlots(s: nat, h: nat, rank: nat)
    requires s == 16 * h
    ensures (s * rank) % 16 == 0
  {
    Regroup(16, h, rank);
    assert (16 * (h * rank)) % 16 == 0;
  }

  /** In place, the slots of two ranks are disjoint, and start at multiples of 16 bytes. */
  lemma {:induction false} SlotsApart(r: Run, rank: nat, rank': nat)
    requires ValidRun(r) && r.kind != Whole && rank < rank' < r.n
    ensures (ShareBytes(r) * rank) % 16 == 0
    ensures ShareBytes(r) * rank + ShareBytes(r) <= ShareBytes(r) * rank'
  {
    ShareFits(r);
    SlotFits(ShareBytes(r), rank, rank');
    var h := ShareBytes(r) / 16;
    var s := ShareBytes(r);
    hide ShareBytes;
    SixteenSlots(s, h, rank);
  }

  /** Buffers for the expected data are sized for the largest size and 1-byte elements: they hold
      the expected data of every smaller size and every element size. */
  lemma {:induction false} ExpectedFits(r: Run, big: Run)
    requires ValidRun(r) && ValidRun(big) && big.kind == r.kind && big.n == r.n && big.eltLog == 0 && big.size == r.maxbytes
    ensures RecvBytes(r) <= RecvBytes(big) && SendBytes(r) <= SendBytes(big) && Total(r) <= Total(big)
  {
    ShareMono(r, big);
    MulMono(ShareBytes(r), ShareBytes(big), r.n);
    BytesOf(r);
    BytesOf(big);
    hide ShareBytes;
    if r.kind == Whole {
      QuotientBounds(big.size, 1);
      assert Elt(big) == 1;
      assert RecvBytes(big) == big.size;
    } else {
      hide SendInplace, RecvInplace;
    }
  }

  /** The larger run has the larger share. */
  lemma {:induction false} ShareMono(r: Run, big: Run)
    requires ValidRun(r) && ValidRun(big) && big.n == r.n && big.eltLog == 0 && r.size <= big.size
    ensures ShareBytes(r) <= ShareBytes(big)
  {
    ShareFits(r);
    QuotientBounds(big.size, r.n);
    var q := big.size / r.n;
    ClearLowIs(q, 4);
    BigShare(big);
    var s, h := ShareBytes(r), Shr(q, 4);
    hide ShareBytes, AndNot, Shr;
    ShareAtMost(s, q, r.n, big.size);
    LargestMultiple(s, q, h);
  }

  lemma {:induction false} ShareAtMost(s: nat, q: nat, n: nat, size: nat)
    requires s * n <= size < q * n + n
    ensures s <= q
  {
    assert (q + 1) * n == q * n + n;
    if s > q {
      MulMono(q + 1, s, n);
    }
  }

  lemma {:induction false} BigShare(big: Run)
    requires ValidRun(big) && big.eltLog == 0
    ensures big.size / big.n >= 0
    ensures ShareBytes(big) == AndNot(big.size / big.n, 15) && Pow2(4) == 16
  {
    QuotientBounds(big.size, big.n);
    assert Elt(big) == 1 && big.size / 1 == big.size;
    hide AndNot;
  }

  lemma {:induction false} LargestMultiple(s: nat, q: nat, h: nat)
    requires s % 16 == 0 && s <= q < 16 * h + 16
    ensures s <= 16 * h
  {
  }
}
