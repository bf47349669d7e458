/** The irregular all-to-all of src/alltoallv.cu: the traffic volumes, the layout of the buffers,
    the calls each rank issues, and the expected result. Buffers are indexed in elements. */
module AlltoAllv {
  import opened Arith
  import Layout

  /** Where the volumes come from: a square matrix of bytes, or the distance-weighted formula,
      whose arithmetic is taken over the reals. */
  datatype Traffic = Matrix(dim: nat, data: seq<nat>) | Generated(spread: real)

  datatype Config = Config(n: nat, elt: nat, total: nat, traffic: Traffic)

  predicate ValidConfig(c: Config)
  {
    && 0 < c.n && 0 < c.elt
    && match c.traffic
       case Matrix(dim, data) => c.n <= dim && |data| == dim * dim
       case Generated(spread) => 0.0 <= spread <= 1.0
  }

  lemma {:induction false} CellInRange(i: nat, j: nat, dim: nat)
    requires i < dim && j < dim
    ensures i * dim + j < dim * dim
  {
    assert (i + 1) * dim <= dim * dim by { MulMono(i + 1, dim, dim); }
    assert (i + 1) * dim == i * dim + dim;
  }

  /** `x & ~15` */
  function AlignDown(x: nat): (y: nat)
    ensures x < y + 16 && y <= x && y % 16 == 0
  {
    x - x % 16
  }

  /** n(n-1)/2 as the sum of the distances 0..n-1. */
  function SumOfDistances(n: nat): (s: nat)
    ensures s == n * (n - 1) / 2 && 2 * s == n * (n - 1)
  {
    if n == 0 then 0 else
    var s := SumOfDistances(n - 1) + (n - 1);
    assert n * (n - 1) == (n - 1) * (n - 2) + 2 * (n - 1);
    s
  }

  /** The exact volume for a peer at distance d, before it is cut to whole 16-byte units. */
  function RealBytes(spread: real, d: nat, n: nat, total: nat): real
    requires n > 1
  {
    SumPositive(n);
    var uniform := total as real / n as real;
    var dist := (d as real * total as real) / SumOfDistances(n) as real;
    (1.0 - spread) * uniform + spread * dist
  }

  lemma {:induction false} ScaleDivide(d: real, t: real, s: real)
    requires s != 0.0
    ensures (d * t) / s == d * (t / s)
  {
  }

  lemma {:induction false} RealQuotientNonNegative(t: real, s: real)
    requires t >= 0.0 && s > 0.0
    ensures t / s >= 0.0
  {
  }

  lemma {:induction false} ProductBetween(t: real, s: real, f: real)
    requires 0.0 <= t <= s && f >= 0.0
    ensures 0.0 <= Prod(f, t) <= Prod(f, s)
  {
  }

  lemma {:induction false} QuotientMono(t: real, s: real, f: real)
    requires t <= s && f > 0.0
    ensures t / f <= s / f
  {
  }

  /** The product, named so that proofs can treat it as one quantity. */
  function Prod(x: real, y: real): real
  {
    x * y
  }

  /** A share u of the uniform pattern against d units q of the distance-weighted one. */
  function Blend(spread: real, u: real, d: real, q: real): real
  {
    Prod(1.0 - spread, u) + Prod(spread, Prod(d, q))
  }

  lemma {:induction false} BlendMono(spread: real, d: real, u: real, q: real, u': real, q': real)
    requires 0.0 <= spread <= 1.0 && d >= 0.0 && 0.0 <= u <= u' && 0.0 <= q <= q'
    ensures 0.0 <= Blend(spread, u, d, q) <= Blend(spread, u', d, q')
  {
    hide Prod;
    ProductBetween(q, q', d);
    ProductBetween(u, u', 1.0 - spread);
    ProductBetween(Prod(d, q), Prod(d, q'), spread);
  }

  lemma {:induction false} RealBytesIs(spread: real, d: nat, n: nat, total: nat)
    requires n > 1
    ensures SumOfDistances(n) > 0
    ensures RealBytes(spread, d, n, total)
         == Blend(spread, total as real / n as real, d as real, total as real / SumOfDistances(n) as real)
  {
    SumPositive(n);
    hide SumOfDistances, Blend;
    BlendIs(spread, total as real / n as real, d as real, total as real, SumOfDistances(n) as real);
  }

  lemma {:induction false} SumPositive(n: nat)
    requires n > 1
    ensures SumOfDistances(n) > 0
  {
    assert n * (n - 1) >= 2 by { MulMono(2, n, n - 1); }
  }

  lemma {:induction false} BlendIs(spread: real, u: real, d: real, t: real, s: real)
    requires s > 0.0
    ensures (1.0 - spread) * u + spread * ((d * t) / s) == Blend(spread, u, d, t / s)
  {
    ScaleDivide(d, t, s);
  }

  lemma {:induction false} RealBytesMono(spread: real, d: nat, n: nat, t1: nat, t2: nat)
    requires n > 1 && 0.0 <= spread <= 1.0 && t1 <= t2
    ensures 0.0 <= RealBytes(spread, d, n, t1) <= RealBytes(spread, d, n, t2)
  {
    RealBytesIs(spread, d, n, t1);
    RealBytesIs(spread, d, n, t2);
    var s, r1, r2 := SumOfDistances(n) as real, t1 as real, t2 as real;
    hide SumOfDistances, RealBytes, Blend;
    QuotientMono(r1, r2, n as real);
    QuotientMono(r1, r2, s);
    RealQuotientNonNegative(r1, n as real);
    RealQuotientNonNegative(r1, s);
    BlendMono(spread, d as real, r1 / n as real, r1 / s, r2 / n as real, r2 / s);
  }

  /** Distance-weighted bytes at distance d. */
  function AtDistance(spread: real, d: nat, n: nat, total: nat): nat
    requires n > 0 && 0.0 <= spread <= 1.0
  {
    if n == 1 then AlignDown(total) else
    RealBytesMono(spread, d, n, total, total);
    AlignDown(RealBytes(spread, d, n, total).Floor)
  }

  /** The bytes rank i sends to rank j. */
  function PeerBytes(c: Config, i: nat, j: nat): nat
    requires ValidConfig(c) && i < c.n && j < c.n
  {
    match c.traffic
    case Matrix(dim, data) =>
      CellInRange(i, j, dim);
      data[i * dim + j]
    case Generated(spread) => AtDistance(spread, (j - i + c.n) % c.n, c.n, c.total)
  }

  function Count(c: Config, i: nat, j: nat): nat
    requires ValidConfig(c) && i < c.n && j < c.n
  {
    QuotientNonNegative(PeerBytes(c, i, j), c.elt);
    PeerBytes(c, i, j) / c.elt
  }

  /** Where rank i's segment for rank j begins in its send stream. */
  function SendOff(c: Config, i: nat, j: nat): nat
    requires ValidConfig(c) && i < c.n && j <= c.n
  {
    if j == 0 then 0 else SendOff(c, i, j - 1) + Count(c, i, j - 1)
  }

  /** Where the segment from rank i begins in rank j's receive buffer. */
  function RecvOff(c: Config, j: nat, i: nat): nat
    requires ValidConfig(c) && j < c.n && i <= c.n
  {
    if i == 0 then 0 else RecvOff(c, j, i - 1) + Count(c, i - 1, j)
  }

  lemma {:induction false} SendOffMono(c: Config, i: nat, j: nat, k: nat)
    requires ValidConfig(c) && i < c.n && j <= k <= c.n
    ensures SendOff(c, i, j) <= SendOff(c, i, k)
    ensures j < k ==> SendOff(c, i, j) + Count(c, i, j) <= SendOff(c, i, k)
  {
    if j < k {
      SendOffMono(c, i, j, k - 1);
    }
  }

  lemma {:induction false} RecvOffMono(c: Config, j: nat, i: nat, k: nat)
    requires ValidConfig(c) && j < c.n && i <= k <= c.n
    ensures RecvOff(c, j, i) <= RecvOff(c, j, k)
    ensures i < k ==> RecvOff(c, j, i) + Count(c, i, j) <= RecvOff(c, j, k)
  {
    if i < k {
      RecvOffMono(c, j, i, k - 1);
    }
  }

  // ---- the calls of one rank

  datatype Call = Send(off: nat, count: nat, peer: nat) | Recv(off: nat, count: nat, peer: nat)

  predicate IsSend(c: Config, rank: nat, x: Call, bound: nat)
    requires ValidConfig(c) && rank < c.n && bound <= c.n
  {
    x.Send? && x.peer < bound && x.count == Count(c, rank, x.peer) > 0 && x.off == SendOff(c, rank, x.peer)
  }

  predicate IsRecv(c: Config, rank: nat, x: Call, bound: nat)
    requires ValidConfig(c) && rank < c.n && bound <= c.n
  {
    x.Recv? && x.peer < bound && x.count == Count(c, x.peer, rank) > 0 && x.off == RecvOff(c, rank, x.peer)
  }

  /** The peer loop with its two moving pointers: one send for every nonzero outgoing segment and
      one receive for every nonzero incoming one, each at its place, none twice. */
  method RunColl(c: Config, rank: nat) returns (calls: seq<Call>)
    requires ValidConfig(c) && rank < c.n
    ensures forall x :: x in calls <==> IsSend(c, rank, x, c.n) || IsRecv(c, rank, x, c.n)
    ensures forall a, b :: 0 <= a < b < |calls| ==> calls[a] != calls[b]
  {
    hide Count;
    calls := [];
    var sptr, rptr := 0, 0;
    var r := 0;
    while r < c.n
      invariant r <= c.n && sptr == SendOff(c, rank, r) && rptr == RecvOff(c, rank, r)
      invariant forall x :: x in calls <==> IsSend(c, rank, x, r) || IsRecv(c, rank, x, r)
      invariant forall a, b :: 0 <= a < b < |calls| ==> calls[a] != calls[b]
    {
      var sendCount := Count(c, rank, r);
      var recvCount := Count(c, r, rank);
      ghost var before := calls;
      if sendCount > 0 {
        calls := calls + [Send(sptr, sendCount, r)];
        sptr := sptr + sendCount;
      }
      if recvCount > 0 {
        calls := calls + [Recv(rptr, recvCount, r)];
        rptr := rptr + recvCount;
      }
      forall x
        ensures x in calls <==> IsSend(c, rank, x, r + 1) || IsRecv(c, rank, x, r + 1)
      {
        assert x in calls <==>
          (|| x in before
           || (sendCount > 0 && x == Send(SendOff(c, rank, r), sendCount, r))
           || (recvCount > 0 && x == Recv(RecvOff(c, rank, r), recvCount, r)));
      }
      forall a, b | 0 <= a < b < |calls|
        ensures calls[a] != calls[b]
      {
        if a < |before| {
          assert before[a] in before && before[a].peer < r;
        }
      }
      r := r + 1;
    }
  }

  /** Rank i issues a send to j exactly when j issues a receive from i, and then the sizes agree;
      neither issues a second one. */
  lemma {:induction false} CallsPair(c: Config, i: nat, j: nat, out: seq<Call>, into: seq<Call>, size: nat)
    requires ValidConfig(c) && i < c.n && j < c.n
    requires forall x :: x in out <==> IsSend(c, i, x, c.n) || IsRecv(c, i, x, c.n)
    requires forall x :: x in into <==> IsSend(c, j, x, c.n) || IsRecv(c, j, x, c.n)
    ensures (exists off :: Send(off, size, j) in out) <==> (exists off :: Recv(off, size, i) in into)
    ensures forall x, y :: x in out && y in out && x.Send? && y.Send? && x.peer == y.peer ==> x == y
    ensures forall x, y :: x in into && y in into && x.Recv? && y.Recv? && x.peer == y.peer ==> x == y
  {
    hide Count, SendOff, RecvOff;
    if size == Count(c, i, j) && size > 0 {
      assert Send(SendOff(c, i, j), size, j) in out;
      assert Recv(RecvOff(c, j, i), size, i) in into;
    }
  }

  // ---- data

  /** Element k of rank src's generated stream, or a cleared element. */
  datatype Elem = Elem(src: nat, k: nat) | Zero

  function Stream(src: nat, from: nat, count: nat): (s: seq<Elem>)
    ensures |s| == count && forall x :: 0 <= x < count ==> s[x] == Elem(src, from + x)
  {
    if count == 0 then [] else Stream(src, from, count - 1) + [Elem(src, from + count - 1)]
  }

  function Cleared(len: nat): (s: seq<Elem>)
    ensures |s| == len && forall x :: 0 <= x < len ==> s[x] == Zero
  {
    if len == 0 then [] else Cleared(len - 1) + [Zero]
  }

  /** Source src's segment is in place, as element SendOff(src, rank).. of that source's stream. */
  predicate SegmentInPlace(c: Config, rank: nat, buf: seq<Elem>, src: nat)
    requires ValidConfig(c) && rank < c.n && src < c.n && RecvOff(c, rank, c.n) <= |buf|
  {
    RecvOffMono(c, rank, src, c.n);
    buf[RecvOff(c, rank, src)..RecvOff(c, rank, src) + Count(c, src, rank)]
    == Stream(src, SendOff(c, src, rank), Count(c, src, rank))
  }

  /** Segments of all sources in rank order, then a zero tail. */
  predicate IsExpected(c: Config, rank: nat, buf: seq<Elem>)
    requires ValidConfig(c) && rank < c.n
  {
    && RecvOff(c, rank, c.n) <= |buf|
    && (forall src: nat :: src < c.n ==> SegmentInPlace(c, rank, buf, src))
    && forall x :: RecvOff(c, rank, c.n) <= x < |buf| ==> buf[x] == Zero
  }

  /** The prefix sum a receiver computes for one source. */
  method SourceOffset(c: Config, src: nat, rank: nat) returns (off: nat)
    requires ValidConfig(c) && src < c.n && rank < c.n
    ensures off == SendOff(c, src, rank)
  {
    hide Count;
    off := 0;
    for k := 0 to rank
      invariant off == SendOff(c, src, k)
    {
      off := off + Count(c, src, k);
    }
  }

  /** The send stream and the expected receive buffer of a rank. */
  method InitData(c: Config, rank: nat, len: nat) returns (send: seq<Elem>, expected: seq<Elem>)
    requires ValidConfig(c) && rank < c.n && RecvOff(c, rank, c.n) <= len
    ensures send == Stream(rank, 0, SendOff(c, rank, c.n))
    ensures |expected| == len && IsExpected(c, rank, expected)
  {
    hide Count, PeerBytes, ValidConfig, SegmentInPlace, Stream, Splice;
    expected := Cleared(len);
    var sendcount := 0;
    for dst := 0 to c.n
      invariant sendcount == SendOff(c, rank, dst)
    {
      sendcount := sendcount + Count(c, rank, dst);
    }
    send := Stream(rank, 0, sendcount);
    var recvoffset := 0;
    for src := 0 to c.n
      invariant |expected| == len && recvoffset == RecvOff(c, rank, src) <= len
      invariant forall q: nat :: q < src ==> SegmentInPlace(c, rank, expected, q)
      invariant forall x :: recvoffset <= x < len ==> expected[x] == Zero
    {
      var recvcount := Count(c, src, rank);
      RecvOffMono(c, rank, src + 1, c.n);
      var srcOffset := SourceOffset(c, src, rank);
      ghost var before := expected;
      if recvcount != 0 {
        expected := Splice(expected, recvoffset, Stream(src, srcOffset, recvcount));
      }
      SegmentAdded(c, rank, before, expected, src);
      recvoffset := recvoffset + recvcount;
    }
  }

  lemma {:induction false} SegmentAdded(c: Config, rank: nat, before: seq<Elem>, after: seq<Elem>, src: nat)
    requires ValidConfig(c) && rank < c.n && src < c.n && RecvOff(c, rank, c.n) <= |before|
    requires RecvOff(c, rank, src) + Count(c, src, rank) <= |before|
    requires forall q: nat :: q < src ==> SegmentInPlace(c, rank, before, q)
    requires after == if Count(c, src, rank) == 0 then before
                      else Splice(before, RecvOff(c, rank, src), Stream(src, SendOff(c, src, rank), Count(c, src, rank)))
    ensures forall q: nat :: q <= src ==> SegmentInPlace(c, rank, after, q)
  {
    hide Count, PeerBytes, ValidConfig, RecvOff, SendOff, Stream;
    forall q: nat | q <= src
      ensures SegmentInPlace(c, rank, after, q)
    {
      RecvOffMono(c, rank, q, c.n);
      if q < src {
        assert SegmentInPlace(c, rank, before, q);
        RecvOffMono(c, rank, q, src);
        SegmentKept(before, after, RecvOff(c, rank, src), RecvOff(c, rank, q), Count(c, q, rank));
      }
    }
  }

  lemma {:induction false} SegmentKept(before: seq<Elem>, after: seq<Elem>, from: nat, start: nat, count: nat)
    requires start + count <= from <= |before| == |after| && after[..from] == before[..from]
    ensures after[start..start + count] == before[start..start + count]
  {
    assert after[start..start + count] == after[..from][start..start + count];
    assert before[start..start + count] == before[..from][start..start + count];
  }

  /** Every element received belongs to one source's segment. */
  lemma {:induction false} Covered(c: Config, rank: nat, x: nat, k: nat) returns (src: nat)
    requires ValidConfig(c) && rank < c.n && k <= c.n && x < RecvOff(c, rank, k)
    ensures src < k && RecvOff(c, rank, src) <= x < RecvOff(c, rank, src) + Count(c, src, rank)
  {
    if x >= RecvOff(c, rank, k - 1) {
      src := k - 1;
    } else {
      src := Covered(c, rank, x, k - 1);
    }
  }

  // ---- the transfers

  /** The transfer src -> rank completes: the segment sent lands in the segment awaited. */
  function Land(c: Config, rank: nat, buf: seq<Elem>, src: nat): (r: seq<Elem>)
    requires ValidConfig(c) && rank < c.n && src < c.n && RecvOff(c, rank, c.n) <= |buf|
    ensures |r| == |buf|
  {
    RecvOffMono(c, rank, src, c.n);
    SendOffMono(c, src, rank, c.n);
    var off, count := RecvOff(c, rank, src), Count(c, src, rank);
    Splice(buf, off, Stream(src, 0, SendOff(c, src, c.n))[SendOff(c, src, rank)..SendOff(c, src, rank) + count])
  }

  /** buf with part written at off. */
  function Splice<T>(buf: seq<T>, off: nat, part: seq<T>): (r: seq<T>)
    requires off + |part| <= |buf|
    ensures |r| == |buf|
    ensures forall x :: 0 <= x < |buf| ==> r[x] == if off <= x < off + |part| then part[x - off] else buf[x]
  {
    buf[..off] + part + buf[off + |part|..]
  }

  /** The receive buffer after transfers have completed in some order. */
  function Received(c: Config, rank: nat, buf: seq<Elem>, order: seq<nat>): (r: seq<Elem>)
    requires ValidConfig(c) && rank < c.n && RecvOff(c, rank, c.n) <= |buf|
    requires forall i :: 0 <= i < |order| ==> order[i] < c.n
    ensures |r| == |buf|
  {
    if order == [] then buf
    else Land(c, rank, Received(c, rank, buf, order[..|order| - 1]), order[|order| - 1])
  }

  lemma {:induction false} StreamSlice(src: nat, n: nat, from: nat, count: nat)
    requires from + count <= n
    ensures Stream(src, 0, n)[from..from + count] == Stream(src, from, count)
  {
    hide Stream;
  }

  lemma {:induction false} LandAgrees(c: Config, rank: nat, buf: seq<Elem>, src: nat, want: seq<Elem>, x: nat)
    requires ValidConfig(c) && rank < c.n && src < c.n && RecvOff(c, rank, c.n) <= |buf| == |want| && x < |buf|
    requires SegmentInPlace(c, rank, want, src)
    ensures var r := Land(c, rank, buf, src);
            var off := RecvOff(c, rank, src);
            r[x] == if off <= x < off + Count(c, src, rank) then want[x] else buf[x]
  {
    RecvOffMono(c, rank, src, c.n);
    SendOffMono(c, src, rank, c.n);
    hide Count, RecvOff, SendOff, ValidConfig;
    var off, count, from := RecvOff(c, rank, src), Count(c, src, rank), SendOff(c, src, rank);
    var part := Stream(src, 0, SendOff(c, src, c.n))[from..from + count];
    StreamSlice(src, SendOff(c, src, c.n), from, count);
    assert Land(c, rank, buf, src) == Splice(buf, off, part);
    assert want[off..off + count] == part;
    hide Land, SegmentInPlace, Stream, Splice;
    if off <= x < off + count {
      assert part[x - off] == want[x];
    }
  }

  /** Once every nonzero segment has landed, in any order, the receive buffer (cleared before) equals
      the expected one, zero tail included. */
  lemma {:induction false} SegmentsLanded(c: Config, rank: nat, order: seq<nat>, expected: seq<Elem>)
    requires ValidConfig(c) && rank < c.n && IsExpected(c, rank, expected)
    requires forall i :: 0 <= i < |order| ==> order[i] < c.n
    requires forall src: nat :: src < c.n && Count(c, src, rank) > 0 ==> src in order
    ensures Received(c, rank, Cleared(|expected|), order) == expected
  {
    var buf := Received(c, rank, Cleared(|expected|), order);
    forall x: nat | x < |expected|
      ensures buf[x] == expected[x]
    {
      ReceivedAt(c, rank, order, expected, x);
      if x < RecvOff(c, rank, c.n) {
        var src := Covered(c, rank, x, c.n);
        assert src in order;
      }
    }
  }

  lemma {:induction false} ReceivedAt(c: Config, rank: nat, order: seq<nat>, expected: seq<Elem>, x: nat)
    requires ValidConfig(c) && rank < c.n && IsExpected(c, rank, expected) && x < |expected|
    requires forall i :: 0 <= i < |order| ==> order[i] < c.n
    ensures var buf := Received(c, rank, Cleared(|expected|), order);
            && (buf[x] == expected[x] || buf[x] == Zero)
            && forall src: nat :: src < c.n && src in order && RecvOff(c, rank, src) <= x < RecvOff(c, rank, src) + Count(c, src, rank) ==>
                 buf[x] == expected[x]
  {
    hide Count, SegmentInPlace, ValidConfig;
    if order != [] {
      var last := |order| - 1;
      ReceivedAt(c, rank, order[..last], expected, x);
      LandAgrees(c, rank, Received(c, rank, Cleared(|expected|), order[..last]), order[last], expected, x);
      assert forall src :: src in order <==> src in order[..last] || src == order[last];
    }
  }

  // ---- the transfers that the issued calls make

  /** A send of src to a rank together with a receive of that rank from src. */
  datatype Transfer = Transfer(src: nat, send: Call, recv: Call)

  /** The calls that RunColl issues on every rank. */
  ghost predicate Programs(c: Config, calls: seq<seq<Call>>)
    requires ValidConfig(c)
  {
    |calls| == c.n && forall r: nat, x :: r < c.n ==> (x in calls[r] <==> IsSend(c, r, x, c.n) || IsRecv(c, r, x, c.n))
  }

  predicate Matched(calls: seq<seq<Call>>, rank: nat, t: Transfer)
    requires rank < |calls|
  {
    && t.src < |calls| && t.send in calls[t.src] && t.send.Send? && t.send.peer == rank
    && t.recv in calls[rank] && t.recv.Recv? && t.recv.peer == t.src
  }

  /** The elements from the send pointer go to the receive pointer; calls of different sizes or
      outside the buffers transfer nothing. */
  function Transferred(buf: seq<Elem>, send: seq<Elem>, t: Transfer): (r: seq<Elem>)
    ensures |r| == |buf|
  {
    var count := t.send.count;
    if t.recv.count == count && t.send.off + count <= |send| && t.recv.off + count <= |buf|
    then Splice(buf, t.recv.off, send[t.send.off..t.send.off + count])
    else buf
  }

  /** The receive buffer after transfers have completed in some order; sends[r] is rank r's send buffer. */
  function AfterTransfers(buf: seq<Elem>, sends: seq<seq<Elem>>, order: seq<Transfer>): (r: seq<Elem>)
    ensures |r| == |buf|
  {
    if order == [] then buf else
    var t := order[|order| - 1];
    var before := AfterTransfers(buf, sends, order[..|order| - 1]);
    if t.src < |sends| then Transferred(before, sends[t.src], t) else before
  }

  ghost predicate SendBuffers(c: Config, sends: seq<seq<Elem>>)
    requires ValidConfig(c)
  {
    |sends| == c.n && forall r: nat :: r < c.n ==> sends[r] == Stream(r, 0, SendOff(c, r, c.n))
  }

  /** A matched transfer has equal sizes and lands its source's segment. */
  lemma {:induction false} TransferLands(c: Config, calls: seq<seq<Call>>, sends: seq<seq<Elem>>, rank: nat, buf: seq<Elem>, t: Transfer)
    requires ValidConfig(c) && Programs(c, calls) && SendBuffers(c, sends) && rank < c.n && Matched(calls, rank, t)
    requires RecvOff(c, rank, c.n) <= |buf|
    ensures t.src < c.n && t.send.count == t.recv.count && Transferred(buf, sends[t.src], t) == Land(c, rank, buf, t.src)
  {
    hide Count;
    assert IsSend(c, t.src, t.send, c.n) && IsRecv(c, rank, t.recv, c.n);
    RecvOffMono(c, rank, t.src, c.n);
    SendOffMono(c, t.src, rank, c.n);
    hide Programs, ValidConfig, Splice, Stream;
  }

  function Sources(order: seq<Transfer>): (srcs: seq<nat>)
    ensures |srcs| == |order| && forall i :: 0 <= i < |order| ==> srcs[i] == order[i].src
  {
    seq(|order|, i requires 0 <= i < |order| => order[i].src)
  }

  lemma {:induction false} TransfersLand(c: Config, calls: seq<seq<Call>>, sends: seq<seq<Elem>>, rank: nat, buf: seq<Elem>,
                                         order: seq<Transfer>)
    requires ValidConfig(c) && Programs(c, calls) && SendBuffers(c, sends) && rank < c.n
    requires RecvOff(c, rank, c.n) <= |buf| && forall i :: 0 <= i < |order| ==> Matched(calls, rank, order[i])
    ensures forall i :: 0 <= i < |order| ==> order[i].src < c.n
    ensures AfterTransfers(buf, sends, order) == Received(c, rank, buf, Sources(order))
  {
    hide Programs, Matched, Transferred, Land, ValidConfig;
    forall i | 0 <= i < |order|
      ensures order[i].src < c.n
    {
      TransferLands(c, calls, sends, rank, buf, order[i]);
    }
    if order != [] {
      var n := |order| - 1;
      TransfersLand(c, calls, sends, rank, buf, order[..n]);
      TransferLands(c, calls, sends, rank, AfterTransfers(buf, sends, order[..n]), order[n]);
      assert Sources(order)[..n] == Sources(order[..n]);
    }
  }

  /** Once every matched pair of issued calls has transferred, in any order, the receive buffer
      (cleared before) equals the expected one, zero tail included. */
  lemma {:induction false} EndToEnd(c: Config, calls: seq<seq<Call>>, sends: seq<seq<Elem>>, rank: nat, order: seq<Transfer>,
                                    expected: seq<Elem>)
    requires ValidConfig(c) && Programs(c, calls) && SendBuffers(c, sends) && rank < c.n && IsExpected(c, rank, expected)
    requires forall i :: 0 <= i < |order| ==> Matched(calls, rank, order[i])
    requires forall t :: Matched(calls, rank, t) ==> t in order
    ensures AfterTransfers(Cleared(|expected|), sends, order) == expected
  {
    hide Count, Programs, SendBuffers, IsExpected, AfterTransfers, Received, Matched, ValidConfig;
    ExpectedLength(c, rank, expected);
    TransfersLand(c, calls, sends, rank, Cleared(|expected|), order);
    forall src: nat | src < c.n && Count(c, src, rank) > 0
      ensures src in Sources(order)
    {
      SourceListed(c, calls, rank, order, src);
    }
    SegmentsLanded(c, rank, Sources(order), expected);
  }

  /** The transfers into a rank from the first k sources that have something to send. */
  function AllTransfers(c: Config, rank: nat, k: nat): seq<Transfer>
    requires ValidConfig(c) && rank < c.n && k <= c.n
  {
    if k == 0 then [] else
    AllTransfers(c, rank, k - 1) + if Count(c, k - 1, rank) > 0 then [TransferFrom(c, rank, k - 1)] else []
  }

  function TransferFrom(c: Config, rank: nat, src: nat): Transfer
    requires ValidConfig(c) && rank < c.n && src < c.n
  {
    var count := Count(c, src, rank);
    Transfer(src, Send(SendOff(c, src, rank), count, rank), Recv(RecvOff(c, rank, src), count, src))
  }

  lemma {:induction false} TransfersAre(c: Config, rank: nat, k: nat, t: Transfer)
    requires ValidConfig(c) && rank < c.n && k <= c.n
    ensures t in AllTransfers(c, rank, k) <==> t.src < k && Count(c, t.src, rank) > 0 && t == TransferFrom(c, rank, t.src)
  {
    hide Count, TransferFrom;
    if k > 0 {
      TransfersAre(c, rank, k - 1, t);
      SourceOf(c, rank, k - 1);
    }
  }

  lemma {:induction false} SourceOf(c: Config, rank: nat, src: nat)
    requires ValidConfig(c) && rank < c.n && src < c.n
    ensures TransferFrom(c, rank, src).src == src
  {
  }

  /** The matched pairs of issued calls are these transfers, so an order as EndToEnd assumes it exists. */
  lemma {:induction false} MatchedAre(c: Config, calls: seq<seq<Call>>, rank: nat, t: Transfer)
    requires ValidConfig(c) && Programs(c, calls) && rank < c.n
    ensures Matched(calls, rank, t) <==> t in AllTransfers(c, rank, c.n)
  {
    hide Count, SendOff, RecvOff, AllTransfers;
    TransfersAre(c, rank, c.n, t);
    if t.src < c.n {
      assert t.send in calls[t.src] <==> IsSend(c, t.src, t.send, c.n) || IsRecv(c, t.src, t.send, c.n);
      assert t.recv in calls[rank] <==> IsSend(c, rank, t.recv, c.n) || IsRecv(c, rank, t.recv, c.n);
    }
  }

  lemma {:induction false} ExpectedLength(c: Config, rank: nat, buf: seq<Elem>)
    requires ValidConfig(c) && rank < c.n && IsExpected(c, rank, buf)
    ensures RecvOff(c, rank, c.n) <= |buf|
  {
  }

  /** A nonzero segment has a matched pair of calls, so its source is among those transferred. */
  lemma {:induction false} SourceListed(c: Config, calls: seq<seq<Call>>, rank: nat, order: seq<Transfer>, src: nat)
    requires ValidConfig(c) && Programs(c, calls) && rank < c.n && src < c.n && Count(c, src, rank) > 0
    requires forall t :: Matched(calls, rank, t) ==> t in order
    ensures src in Sources(order)
  {
    hide Count, RecvOff, SendOff;
    var t := Transfer(src, Send(SendOff(c, src, rank), Count(c, src, rank), rank), Recv(RecvOff(c, rank, src), Count(c, src, rank), src));
    assert IsSend(c, src, t.send, c.n) && IsRecv(c, rank, t.recv, c.n);
    assert Matched(calls, rank, t);
    var i :| 0 <= i < |order| && order[i] == t;
    assert Sources(order)[i] == src;
  }

  /** The expected buffer is determined by its segments and its length. */
  lemma {:induction false} ExpectedIsUnique(c: Config, rank: nat, a: seq<Elem>, b: seq<Elem>)
    requires ValidConfig(c) && rank < c.n && IsExpected(c, rank, a) && IsExpected(c, rank, b) && |a| == |b|
    ensures a == b
  {
    forall x: nat | x < |a|
      ensures a[x] == b[x]
    {
      if x < RecvOff(c, rank, c.n) {
        var src := Covered(c, rank, x, c.n);
        LandAgrees(c, rank, a, src, b, x);
        LandAgrees(c, rank, a, src, a, x);
      }
    }
  }

  // ---- balance of the generated pattern

  /** The elements for the distances 0..k-1. */
  function DistanceTotal(c: Config, k: nat): nat
    requires ValidConfig(c) && c.traffic.Generated?
  {
    if k == 0 then 0 else
    QuotientNonNegative(AtDistance(c.traffic.spread, k - 1, c.n, c.total), c.elt);
    DistanceTotal(c, k - 1) + AtDistance(c.traffic.spread, k - 1, c.n, c.total) / c.elt
  }

  /** From the peers j <= i downward and j > i upward, a rank meets every distance once: the first
      k peers of rank i are the distances n-i .. n-i+k-1, wrapping at n. */
  lemma {:induction false} SendsByDistance(c: Config, i: nat, k: nat)
    requires ValidConfig(c) && c.traffic.Generated? && i < c.n && k <= c.n
    ensures k <= i ==> SendOff(c, i, k) == DistanceTotal(c, c.n - i + k) - DistanceTotal(c, c.n - i)
    ensures k >= i ==> SendOff(c, i, k) == DistanceTotal(c, c.n) - DistanceTotal(c, c.n - i) + DistanceTotal(c, k - i)
  {
    hide AtDistance;
    if k > 0 {
      SendsByDistance(c, i, k - 1);
      WrapDistance(i, k - 1, c.n);
    }
  }

  lemma {:induction false} WrapDistance(i: nat, j: nat, n: nat)
    requires i < n && j < n
    ensures (j - i + n) % n == if j < i then j - i + n else j - i
  {
    if j < i {
      SmallMod(j - i + n, n);
    } else {
      assert (j - i + n) == 1 * n + (j - i);
      AddMultiple(j - i, n);
    }
  }

  lemma {:induction false} RecvsByDistance(c: Config, j: nat, k: nat)
    requires ValidConfig(c) && c.traffic.Generated? && j < c.n && k <= c.n
    ensures k <= j + 1 ==> RecvOff(c, j, k) == DistanceTotal(c, j + 1) - DistanceTotal(c, j + 1 - k)
    ensures k > j ==> RecvOff(c, j, k) == DistanceTotal(c, j + 1) + DistanceTotal(c, c.n) - DistanceTotal(c, c.n - k + j + 1)
  {
    hide AtDistance;
    if k > 0 {
      RecvsByDistance(c, j, k - 1);
      WrapDistance(k - 1, j, c.n);
    }
  }

  /** Generated traffic is balanced: every rank sends and receives the same number of elements. */
  lemma {:induction false} Balanced(c: Config, i: nat)
    requires ValidConfig(c) && c.traffic.Generated? && i < c.n
    ensures SendOff(c, i, c.n) == RecvOff(c, i, c.n) == SendOff(c, 0, c.n)
  {
    SendsByDistance(c, i, c.n);
    SendsByDistance(c, 0, c.n);
    RecvsByDistance(c, i, c.n);
  }

  // ---- which entry of the matrix, and which distance, a volume comes from

  /** The elements in the first k entries of row i of a matrix of bytes, and of column i. */
  function RowTotal(dim: nat, data: seq<nat>, elt: nat, i: nat, k: nat): int
    requires elt > 0 && i < dim && k <= dim && |data| == dim * dim
  {
    if k == 0 then 0 else
    CellInRange(i, k - 1, dim);
    RowTotal(dim, data, elt, i, k - 1) + data[i * dim + (k - 1)] / elt
  }

  function ColumnTotal(dim: nat, data: seq<nat>, elt: nat, i: nat, k: nat): int
    requires elt > 0 && i < dim && k <= dim && |data| == dim * dim
  {
    if k == 0 then 0 else
    CellInRange(k - 1, i, dim);
    ColumnTotal(dim, data, elt, i, k - 1) + data[(k - 1) * dim + i] / elt
  }

  /** With a matrix a rank sends its row and receives its column. */
  lemma {:induction false} MatrixTotals(c: Config, i: nat, k: nat)
    requires ValidConfig(c) && c.traffic.Matrix? && i < c.n && k <= c.n
    ensures SendOff(c, i, k) == RowTotal(c.traffic.dim, c.traffic.data, c.elt, i, k)
    ensures RecvOff(c, i, k) == ColumnTotal(c.traffic.dim, c.traffic.data, c.elt, i, k)
  {
    if k > 0 {
      MatrixTotals(c, i, k - 1);
      CellInRange(i, k - 1, c.traffic.dim);
      CellInRange(k - 1, i, c.traffic.dim);
    }
  }

  lemma {:induction false} DistanceBack(i: nat, d: nat, n: nat)
    requires i < n && d < n
    ensures (i + d) % n < n && ((i + d) % n - i + n) % n == d
  {
    if i + d < n {
      SmallMod(i + d, n);
      WrapDistance(i, i + d, n);
    } else {
      AddMultiple(i + d - n, n);
      WrapDistance(i, i + d - n, n);
    }
  }

  lemma {:induction false} FloorOfQuotient(x: nat, s: nat)
    requires s > 0
    ensures 0 <= x / s && (x as real / s as real).Floor == x / s
  {
    var q, r := x / s, x % s;
    QuotientBounds(x, s);
    assert x == q * s + r;
    RealQuotient(q, r, x, s);
  }

  lemma {:induction false} RealQuotient(q: nat, r: nat, x: nat, s: nat)
    requires s > 0 && x == q * s + r && r < s
    ensures (x as real / s as real).Floor == q
  {
    var y := x as real / s as real;
    TimesBack(x as real, s as real);
    ProductAsReal(q, s);
    ProductAsReal(q + 1, s);
    assert (q + 1) * s == q * s + s;
    RatioAtLeast(q as real, y, s as real);
    RatioAtLeast(y, (q + 1) as real, s as real);
    assert y != (q + 1) as real;
  }

  lemma {:induction false} TimesBack(x: real, s: real)
    requires s > 0.0
    ensures (x / s) * s == x
  {
  }

  lemma {:induction false} ProductAsReal(q: int, s: int)
    ensures (q * s) as real == q as real * s as real
  {
  }

  lemma {:induction false} RatioAtLeast(a: real, b: real, s: real)
    requires s > 0.0 && a * s <= b * s
    ensures a <= b
  {
    assert a > b ==> (a - b) * s > 0.0;
  }

  /** The whole volume that the distance-weighted pattern gives distance d, and the uniform one. */
  lemma {:induction false} PureSpreads(d: nat, n: nat, total: nat)
    requires n > 1
    ensures SumOfDistances(n) > 0 && 0 <= d * total / SumOfDistances(n) && 0 <= total / n
    ensures AtDistance(1.0, d, n, total) == AlignDown(d * total / SumOfDistances(n))
    ensures AtDistance(0.0, d, n, total) == AlignDown(total / n)
  {
    hide AlignDown, SumOfDistances;
    SumPositive(n);
    ProductNonNegative(d, total);
    FloorOfQuotient(d * total, SumOfDistances(n));
    FloorOfQuotient(total, n);
    RealBytesMono(1.0, d, n, total, total);
    RealBytesMono(0.0, d, n, total, total);
    EndsOfSpread(total as real / n as real, (d as real * total as real) / SumOfDistances(n) as real);
    assert (d * total) as real == d as real * total as real;
  }

  lemma {:induction false} EndsOfSpread(u: real, v: real)
    ensures (1.0 - 1.0) * u + 1.0 * v == v && (1.0 - 0.0) * u + 0.0 * v == u
  {
  }

  /** Fully spread, rank i sends the rank d places after it, modulo n, its d-th part of the total in
      whole 16-byte units: nothing to itself, and more the farther it lies. Not spread at all, it
      sends everyone an equal part. */
  lemma {:induction false} GeneratedVolumes(c: Config, i: nat, d: nat)
    requires ValidConfig(c) && c.n > 1 && i < c.n && d < c.n
    ensures (i + d) % c.n < c.n && 2 * SumOfDistances(c.n) == c.n * (c.n - 1) > 0
    ensures c.traffic == Generated(1.0) ==>
              0 <= d * c.total / SumOfDistances(c.n)
              && PeerBytes(c, i, (i + d) % c.n) == AlignDown(d * c.total / SumOfDistances(c.n))
    ensures c.traffic == Generated(0.0) ==> 0 <= c.total / c.n && PeerBytes(c, i, (i + d) % c.n) == AlignDown(c.total / c.n)
  {
    hide AtDistance, AlignDown, SumOfDistances;
    SumPositive(c.n);
    DistanceBack(i, d, c.n);
    PureSpreads(d, c.n, c.total);
  }

  /** Whatever the spread, a rank that lies farther after i is never sent less. */
  lemma {:induction false} FartherGetsMore(c: Config, i: nat, d: nat, d': nat)
    requires ValidConfig(c) && c.traffic.Generated? && i < c.n && d <= d' < c.n
    ensures (i + d) % c.n < c.n && (i + d') % c.n < c.n
    ensures PeerBytes(c, i, (i + d) % c.n) <= PeerBytes(c, i, (i + d') % c.n)
  {
    hide RealBytes;
    DistanceBack(i, d, c.n);
    DistanceBack(i, d', c.n);
    if c.n > 1 {
      var s := c.traffic.spread;
      RealBytesMono(s, d, c.n, c.total, c.total);
      RealBytesMono(s, d', c.n, c.total, c.total);
      FartherReal(s, d, d', c.n, c.total);
      FloorMono(RealBytes(s, d, c.n, c.total), RealBytes(s, d', c.n, c.total));
      AlignMono(RealBytes(s, d, c.n, c.total).Floor, RealBytes(s, d', c.n, c.total).Floor);
    }
  }

  lemma {:induction false} FloorMono(x: real, y: real)
    requires x <= y
    ensures x.Floor <= y.Floor
  {
  }

  lemma {:induction false} FartherReal(spread: real, d: nat, d': nat, n: nat, total: nat)
    requires n > 1 && 0.0 <= spread <= 1.0 && d <= d'
    ensures RealBytes(spread, d, n, total) <= RealBytes(spread, d', n, total)
  {
    hide RealBytes, SumOfDistances, Prod;
    RealBytesIs(spread, d, n, total);
    RealBytesIs(spread, d', n, total);
    var q := total as real / SumOfDistances(n) as real;
    RealQuotientNonNegative(total as real, SumOfDistances(n) as real);
    ScaledMono(d as real, d' as real, q);
    ScaledMonoRight(spread, Prod(d as real, q), Prod(d' as real, q));
  }

  lemma {:induction false} ScaledMono(x: real, y: real, q: real)
    requires x <= y && q >= 0.0
    ensures Prod(x, q) <= Prod(y, q)
  {
    assert y * q - x * q == (y - x) * q;
  }

  lemma {:induction false} ScaledMonoRight(q: real, x: real, y: real)
    requires x <= y && q >= 0.0
    ensures Prod(q, x) <= Prod(q, y)
  {
    assert q * y - q * x == q * (y - x);
  }

  predicate IsMaximum(c: Config, maxSend: nat, maxRecv: nat)
    requires ValidConfig(c)
  {
    && (forall i: nat :: i < c.n ==> SendOff(c, i, c.n) <= maxSend && RecvOff(c, i, c.n) <= maxRecv)
    && (exists i: nat :: i < c.n && SendOff(c, i, c.n) == maxSend)
    && (exists i: nat :: i < c.n && RecvOff(c, i, c.n) == maxRecv)
  }

  /** Both ways of computing the buffer sizes yield the maximum over all ranks: the scan of the
      whole matrix, and the scan of rank 0 alone for generated traffic. */
  method ComputeMaxCounts(c: Config) returns (maxSend: nat, maxRecv: nat)
    requires ValidConfig(c)
    ensures IsMaximum(c, maxSend, maxRecv)
  {
    hide Count, AtDistance;
    if c.traffic.Generated? {
      var total := 0;
      for j := 0 to c.n
        invariant total == SendOff(c, 0, j)
      {
        total := total + Count(c, 0, j);
      }
      maxSend, maxRecv := total, total;
      forall i: nat | i < c.n
        ensures SendOff(c, i, c.n) == RecvOff(c, i, c.n) == total
      {
        Balanced(c, i);
      }
      assert SendOff(c, 0, c.n) == maxSend && RecvOff(c, 0, c.n) == maxRecv;
    } else {
      maxSend, maxRecv := 0, 0;
      ghost var s, r := 0, 0;
      for i := 0 to c.n
        invariant forall q: nat :: q < i ==> SendOff(c, q, c.n) <= maxSend && RecvOff(c, q, c.n) <= maxRecv
        invariant 0 <= s < c.n && 0 <= r < c.n
        invariant i == 0 ==> maxSend == 0 && maxRecv == 0 && s == 0 && r == 0
        invariant i > 0 ==> SendOff(c, s, c.n) == maxSend && RecvOff(c, r, c.n) == maxRecv
      {
        var rankS, rankR := 0, 0;
        for j := 0 to c.n
          invariant rankS == SendOff(c, i, j) && rankR == RecvOff(c, i, j)
        {
          rankS := rankS + Count(c, i, j);
          rankR := rankR + Count(c, j, i);
        }
        if rankS >= maxSend {
          s := i;
        }
        if rankR >= maxRecv {
          r := i;
        }
        maxSend := if maxSend > rankS then maxSend else rankS;
        maxRecv := if maxRecv > rankR then maxRecv else rankR;
      }
    }
  }

  // ---- how much of the requested total is sent

  function RealTotal(spread: real, k: nat, n: nat, total: nat): real
    requires n > 1
  {
    if k == 0 then 0.0 else RealTotal(spread, k - 1, n, total) + RealBytes(spread, k - 1, n, total)
  }

  /** k uniform shares and the distances 0..k-1. */
  function BlendTotal(spread: real, u: real, k: nat, q: real): real
  {
    k as real * ((1.0 - spread) * u) + SumOfDistances(k) as real * (spread * q)
  }

  lemma {:induction false} BlendTotalStep(spread: real, u: real, k: nat, q: real)
    ensures BlendTotal(spread, u, k + 1, q) == BlendTotal(spread, u, k, q) + Blend(spread, u, k as real, q)
  {
    assert SumOfDistances(k + 1) == SumOfDistances(k) + k;
    var s := SumOfDistances(k);
    assert (s + k) as real == s as real + k as real && (k + 1) as real == k as real + 1.0;
    hide SumOfDistances;
    CollectTerms(k as real, (1.0 - spread) * u, s as real, spread, q);
  }

  lemma {:induction false} CollectTerms(k: real, a: real, s: real, spread: real, q: real)
    ensures k * a + s * (spread * q) + (a + spread * (k * q)) == (k + 1.0) * a + (s + k) * (spread * q)
  {
  }

  lemma {:induction false} RealTotalIs(spread: real, k: nat, n: nat, total: nat)
    requires n > 1 && SumOfDistances(n) > 0
    ensures RealTotal(spread, k, n, total)
         == BlendTotal(spread, total as real / n as real, k, total as real / SumOfDistances(n) as real)
  {
    if k == 0 {
      hide Blend;
    } else {
      RealTotalIs(spread, k - 1, n, total);
      RealBytesIs(spread, k - 1, n, total);
      hide RealBytes, Blend, BlendTotal, SumOfDistances;
      BlendTotalStep(spread, total as real / n as real, k - 1, total as real / SumOfDistances(n) as real);
    }
  }

  /** The exact volumes share out exactly the total. */
  lemma {:induction false} RealTotalIsTotal(spread: real, n: nat, total: nat)
    requires n > 1
    ensures RealTotal(spread, n, n, total) == total as real
  {
    SumPositive(n);
    RealTotalIs(spread, n, n, total);
    hide SumOfDistances;
    Weights(n as real, SumOfDistances(n) as real, total as real, spread);
  }

  lemma {:induction false} Weights(n: real, s: real, t: real, spread: real)
    requires n > 0.0 && s > 0.0
    ensures n * ((1.0 - spread) * (t / n)) + s * (spread * (t / s)) == t
  {
    assert n * (t / n) == t && s * (t / s) == t;
    SwapFactors(n, 1.0 - spread, t / n);
    SwapFactors(s, spread, t / s);
    assert (1.0 - spread) * t + spread * t == t;
  }

  lemma {:induction false} SwapFactors(x: real, y: real, z: real)
    ensures x * (y * z) == y * (x * z)
  {
  }

  /** With element size 1: the bytes for the first k distances fall short of the exact volume by
      less than 16 for each. */
  lemma {:induction false} CutOff(c: Config, k: nat)
    requires ValidConfig(c) && c.traffic.Generated? && c.n > 1 && c.elt == 1
    ensures DistanceTotal(c, k) as real <= RealTotal(c.traffic.spread, k, c.n, c.total)
    ensures RealTotal(c.traffic.spread, k, c.n, c.total) - 16.0 * k as real <= DistanceTotal(c, k) as real
    ensures k > 0 ==> RealTotal(c.traffic.spread, k, c.n, c.total) - 16.0 * k as real < DistanceTotal(c, k) as real
  {
    if k > 0 {
      CutOff(c, k - 1);
      RealBytesMono(c.traffic.spread, k - 1, c.n, c.total, c.total);
      var exact := RealBytes(c.traffic.spread, k - 1, c.n, c.total);
      var cut := AtDistance(c.traffic.spread, k - 1, c.n, c.total);
      assert cut == AlignDown(exact.Floor);
      assert cut <= exact.Floor < cut + 16;
      assert exact - 16.0 < cut as real <= exact;
      assert cut / 1 == cut;
      hide RealBytes, AtDistance;
    }
  }

  /** A rank's traffic lies in (total - 16n, total] bytes, for every spread in [0,1]. */
  lemma {:induction false} TotalNearlySent(c: Config, i: nat)
    requires ValidConfig(c) && c.traffic.Generated? && c.elt == 1 && i < c.n
    ensures c.total - 16 * c.n < SendOff(c, i, c.n) <= c.total
    ensures RecvOff(c, i, c.n) == SendOff(c, i, c.n)
  {
    Balanced(c, i);
    SendsByDistance(c, i, c.n);
    if c.n == 1 {
      assert SendOff(c, 0, 1) == SendOff(c, 0, 0) + Count(c, 0, 0);
      assert Count(c, 0, 0) == AlignDown(c.total) / 1;
    } else {
      CutOff(c, c.n);
      RealTotalIsTotal(c.traffic.spread, c.n, c.total);
      assert DistanceTotal(c, 0) == 0;
    }
  }

  // ---- buffers sized in bytes for the largest total hold every smaller run

  lemma {:induction false} DivideThenScale(x: nat, e: nat)
    requires e > 0
    ensures (x / e) * e <= x
  {
  }

  lemma {:induction false} BytesMono(c: Config, big: Config, i: nat, j: nat)
    requires ValidConfig(c) && ValidConfig(big) && big == c.(elt := 1, total := big.total)
    requires c.total <= big.total && i < c.n && j < c.n
    ensures Count(c, i, j) * c.elt <= Count(big, i, j)
  {
    DivideThenScale(PeerBytes(c, i, j), c.elt);
    match c.traffic
    case Matrix(_, _) =>
      assert PeerBytes(c, i, j) == PeerBytes(big, i, j);
    case Generated(spread) =>
      var d := (j - i + c.n) % c.n;
      if c.n == 1 {
        AlignMono(c.total, big.total);
      } else {
        RealBytesMono(spread, d, c.n, c.total, big.total);
        AlignMono(RealBytes(spread, d, c.n, c.total).Floor, RealBytes(spread, d, c.n, big.total).Floor);
      }
      assert PeerBytes(c, i, j) <= PeerBytes(big, i, j);
  }

  lemma {:induction false} AlignMono(x: nat, y: nat)
    requires x <= y
    ensures AlignDown(x) <= AlignDown(y)
  {
  }

  lemma {:induction false} SegmentsFit(c: Config, big: Config, i: nat, k: nat)
    requires ValidConfig(c) && ValidConfig(big) && big == c.(elt := 1, total := big.total)
    requires c.total <= big.total && i < c.n && k <= c.n
    ensures SendOff(c, i, k) * c.elt <= SendOff(big, i, k)
    ensures RecvOff(c, i, k) * c.elt <= RecvOff(big, i, k)
  {
    hide Count, ValidConfig;
    if k > 0 {
      SegmentsFit(c, big, i, k - 1);
      BytesMono(c, big, i, k - 1);
      BytesMono(c, big, k - 1, i);
      Distribute(SendOff(c, i, k - 1), Count(c, i, k - 1), c.elt);
      Distribute(RecvOff(c, i, k - 1), Count(c, k - 1, i), c.elt);
    }
  }

  lemma {:induction false} Distribute(x: int, y: int, e: int)
    ensures (x + y) * e == x * e + y * e
  {
  }

  /** Buffers for element size 1 and the larger total hold the traffic of every rank at every element
      size and every smaller total. */
  lemma {:induction false} SmallerFits(c: Config, big: Config, maxSend: nat, maxRecv: nat, i: nat)
    requires ValidConfig(c) && ValidConfig(big) && big == c.(elt := 1, total := big.total)
    requires c.total <= big.total && i < c.n && IsMaximum(big, maxSend, maxRecv)
    ensures SendOff(c, i, c.n) * c.elt <= maxSend && RecvOff(c, i, c.n) * c.elt <= maxRecv
  {
    SegmentsFit(c, big, i, c.n);
  }

  /** The traffic of a run: generated patterns share out paramcount elements for each rank. */
  function ConfigFor(r: Layout.Run, traffic: Traffic): Config
    requires Layout.ValidRun(r)
  {
    ProductNonNegative(Layout.ShareBytes(r), r.n);
    Config(r.n, Layout.Elt(r), if traffic.Generated? then Layout.ShareBytes(r) * r.n else 0, traffic)
  }

  /** That is the largest multiple of n 16-byte units that the elements of the size hold. */
  lemma {:induction false} GeneratedTotal(r: Layout.Run, spread: real)
    requires Layout.ValidRun(r)
    ensures var t := ConfigFor(r, Generated(spread)).total;
      (t / r.n) * r.n == t && t / r.n % 16 == 0 && t <= r.size && r.size / Layout.Elt(r) * Layout.Elt(r) < t + 16 * r.n
  {
    Layout.ShareFits(r);
    var share := Layout.ShareBytes(r);
    hide Layout.ShareBytes, Layout.Elt;
    DivModOf(share, 0, r.n);
    assert (share + 16) * r.n == share * r.n + 16 * r.n;
  }

  /** Buffers sized with 1-byte elements for the largest size hold the traffic of every rank in every
      run, for either kind of traffic; generated traffic never needs more than the largest size. */
  lemma {:induction false} BuffersSuffice(r: Layout.Run, traffic: Traffic, maxSend: nat, maxRecv: nat, i: nat)
    requires Layout.ValidRun(r) && ValidConfig(ConfigFor(r, traffic)) && i < r.n
    requires var big := ConfigFor(r.(eltLog := 0, size := r.maxbytes), traffic);
             ValidConfig(big) && IsMaximum(big, maxSend, maxRecv)
    ensures SendOff(ConfigFor(r, traffic), i, r.n) * Layout.Elt(r) <= maxSend
    ensures RecvOff(ConfigFor(r, traffic), i, r.n) * Layout.Elt(r) <= maxRecv
    ensures traffic.Generated? ==> maxSend <= r.maxbytes && maxRecv <= r.maxbytes
  {
    var large := r.(eltLog := 0, size := r.maxbytes);
    var c, big := ConfigFor(r, traffic), ConfigFor(large, traffic);
    Layout.ShareMono(r, large);
    Layout.ShareFits(large);
    MulMono(Layout.ShareBytes(r), Layout.ShareBytes(large), r.n);
    OneByte(large);
    assert big == c.(elt := 1, total := big.total);
    hide Layout.ShareBytes, Layout.Elt;
    SmallerFits(c, big, maxSend, maxRecv, i);
    if traffic.Generated? {
      var a: nat :| a < r.n && SendOff(big, a, r.n) == maxSend;
      var b: nat :| b < r.n && RecvOff(big, b, r.n) == maxRecv;
      hide IsMaximum, SendOff, RecvOff;
      TotalNearlySent(big, a);
      TotalNearlySent(big, b);
    }
  }

  lemma {:induction false} OneByte(r: Layout.Run)
    requires Layout.ValidRun(r) && r.eltLog == 0
    ensures Layout.Elt(r) == 1
  {
  }
}
