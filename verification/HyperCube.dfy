/** The hypercube all-gather of src/hypercube.cu: 2^k ranks exchange growing aligned groups of
    blocks with the rank that differs in one bit. Ranks run at their own speed; a message stays on
    the wire until its receiver takes it. */
module HyperCube {
  import opened Bits
  import opened Sums

  // ---- the bit arithmetic of one round

  /** `s = rank & ~(mask-1)` with mask = 2^j: the first block rank a sends in round j. */
  function SendStart(a: nat, j: nat): nat
  {
    AndNot(a, Pow2(j) - 1)
  }

  /** `r = s ^ mask` */
  function RecvStart(a: nat, j: nat): nat
  {
    Xor(SendStart(a, j), Pow2(j))
  }

  /** `rank ^ mask` */
  function Peer(a: nat, j: nat): nat
  {
    Xor(a, Pow2(j))
  }

  /** x and y agree on all bits from bit j up: they lie in one aligned group of 2^j. */
  predicate SameGroup(x: nat, y: nat, j: nat)
  {
    Shr(x, j) == Shr(y, j)
  }

  lemma {:induction false} SendStartIsAligned(a: nat, j: nat)
    ensures SendStart(a, j) == Shl(Shr(a, j), j)
  {
    ClearLow(a, j);
  }

  lemma {:induction false} XorOfZero(x: nat)
    ensures Xor(x, 0) == x && Xor(0, x) == x
  {
    if x > 0 {
      XorOfZero(x / 2);
    }
  }

  lemma {:induction false} XorOne(x: nat)
    ensures Xor(x, 1) == if x % 2 == 0 then x + 1 else x - 1
  {
    XorOfZero(x / 2);
  }

  /** The peer differs from a in bit j only, and is a's peer in turn. */
  lemma {:induction false} PeerFlipsBit(a: nat, j: nat)
    ensures Low(Peer(a, j), j) == Low(a, j)
    ensures Shr(Peer(a, j), j) == (if Shr(a, j) % 2 == 0 then Shr(a, j) + 1 else Shr(a, j) - 1)
    ensures Peer(Peer(a, j), j) == a
  {
    hide Peer;
    PeerStep(a, j);
    PeerStep(Peer(a, j), j);
    if j > 0 {
      PeerFlipsBit(a / 2, j - 1);
      HalfAndBit(Peer(a, j), a % 2, Peer(a / 2, j - 1));
    }
  }

  lemma {:induction false} PeerStep(a: nat, j: nat)
    ensures j == 0 ==> Peer(a, j) == if a % 2 == 0 then a + 1 else a - 1
    ensures j > 0 ==> Peer(a, j) == a % 2 + 2 * Peer(a / 2, j - 1)
  {
    if j == 0 {
      XorOne(a);
    } else {
      assert Pow2(j) / 2 == Pow2(j - 1) && Pow2(j) % 2 == 0;
    }
  }

  lemma {:induction false} HalfAndBit(x: nat, b: nat, h: nat)
    requires x == b + 2 * h && b < 2
    ensures x % 2 == b && x / 2 == h
  {
  }

  lemma {:induction false} ShrNext(x: nat, j: nat)
    ensures Shr(x, j + 1) == Shr(x, j) / 2
  {
    if j > 0 {
      ShrNext(x / 2, j - 1);
    }
  }

  /** The blocks a sends are its aligned group of 2^j. */
  lemma {:induction false} SendsItsGroup(a: nat, b: nat, j: nat)
    ensures SendStart(a, j) <= b < SendStart(a, j) + Pow2(j) <==> SameGroup(a, b, j)
  {
    SendStartIsAligned(a, j);
    ShrLow(b, j);
    if SendStart(a, j) <= b < SendStart(a, j) + Pow2(j) {
      ShrLowUnique(b, Shr(a, j), b - SendStart(a, j), j);
    }
  }

  /** The doubled group is a's group and its peer's, which are disjoint. */
  lemma {:induction false} GroupDoubles(a: nat, b: nat, j: nat)
    ensures SameGroup(a, b, j + 1) <==> SameGroup(a, b, j) || SameGroup(Peer(a, j), b, j)
    ensures !(SameGroup(a, b, j) && SameGroup(Peer(a, j), b, j))
  {
    PeerFlipsBit(a, j);
    ShrNext(a, j);
    ShrNext(b, j);
  }

  /** What a receives is exactly what its peer sends. */
  lemma {:induction false} ReceivesPeersGroup(a: nat, j: nat)
    ensures RecvStart(a, j) == SendStart(Peer(a, j), j)
  {
    SendStartIsAligned(a, j);
    SendStartIsAligned(Peer(a, j), j);
    PeerFlipsBit(a, j);
    XorAligned(Shr(a, j), j);
  }

  lemma {:induction false} XorAligned(q: nat, j: nat)
    ensures Shl(q, j) >= 0
    ensures Xor(Shl(q, j), Pow2(j)) == Shl(if q % 2 == 0 then q + 1 else q - 1, j)
  {
    hide Xor;
    ShlMono(0, q, j);
    ShlOfZero(j);
    if j == 0 {
      XorOne(q);
    } else {
      XorAligned(q, j - 1);
      XorDoubled(Shl(q, j - 1), Pow2(j - 1));
    }
  }

  lemma {:induction false} XorDoubled(x: nat, y: nat)
    ensures Xor(2 * x, 2 * y) == 2 * Xor(x, y)
  {
    assert 2 * x / 2 == x && 2 * y / 2 == y && 2 * x % 2 == 2 * y % 2 == 0;
    if x + y == 0 {
      assert Xor(0, 0) == 0;
    }
  }

  lemma {:induction false} ExchangeInRange(a: nat, j: nat, k: nat)
    requires a < Pow2(k) && j < k
    ensures Peer(a, j) < Pow2(k) && Peer(a, j) != a
    ensures SendStart(a, j) + Pow2(j) <= Pow2(k) && RecvStart(a, j) + Pow2(j) <= Pow2(k)
  {
    Pow2Mono(j, k);
    Pow2Mono(j + 1, k);
    PeerFlipsBit(a, j);
    XorBound(a, Pow2(j), k);
    ReceivesPeersGroup(a, j);
    GroupInRange(a, j, k);
    GroupInRange(Peer(a, j), j, k);
  }

  lemma {:induction false} GroupInRange(a: nat, j: nat, k: nat)
    requires a < Pow2(k) && j <= k
    ensures SendStart(a, j) + Pow2(j) <= Pow2(k)
  {
    SendStartIsAligned(a, j);
    ShrLow(a, j);
    ShlPow2(k - j, j);
    ShlPow2(0, j);
    assert Pow2(0) == 1;
    if Shr(a, j) >= Pow2(k - j) {
      ShlMono(Pow2(k - j), Shr(a, j), j);
    }
    ShlMono(Shr(a, j), Pow2(k - j), j);
  }

  lemma {:induction false} WholeGroup(a: nat, b: nat, k: nat)
    requires a < Pow2(k) && b < Pow2(k)
    ensures SameGroup(a, b, k)
  {
    LowIdentity(a, k);
    LowIdentity(b, k);
  }

  /** No two rounds have the same peer, so a pair of ranks meets once. */
  lemma {:induction false} PeersDiffer(a: nat, i: nat, j: nat)
    requires i < j
    ensures Peer(a, i) != Peer(a, j)
  {
    PeerFlipsBit(a, i);
    PeerFlipsBit(a, j);
    FlipKeepsHigh(a, i, j);
  }

  lemma {:induction false} FlipKeepsHigh(a: nat, i: nat, j: nat)
    requires i < j
    ensures Shr(Peer(a, i), j) == Shr(a, j)
  {
    ShrNext(a, j - 1);
    ShrNext(Peer(a, i), j - 1);
    if j == i + 1 {
      PeerFlipsBit(a, i);
    } else {
      FlipKeepsHigh(a, i, j - 1);
    }
  }

  // ---- the distributed run

  datatype Rank<T> = Rank(round: nat, sent: bool, got: bool, buf: seq<T>)

  /** wire: messages sent and not yet received, by sender and receiver. */
  datatype State<T> = State(ranks: seq<Rank<T>>, wire: map<(nat, nat), seq<T>>)

  /** blocks[b] is what rank b contributes; junk[a] is a's receive buffer before the start. */
  datatype Job<T> = Job(k: nat, blocks: seq<T>, junk: seq<seq<T>>)

  datatype Action = Send(a: nat) | Recv(a: nat) | NextRound(a: nat)

  predicate ValidJob<T>(c: Job<T>)
  {
    && |c.blocks| == |c.junk| == Pow2(c.k)
    && forall a :: 0 <= a < |c.junk| ==> |c.junk[a]| == |c.blocks|
  }

  /** Out of place the rank's own block is copied to its slot; in place it is there already. */
  function Start<T>(c: Job<T>): State<T>
    requires ValidJob(c)
  {
    State(seq(Pow2(c.k), a requires 0 <= a < Pow2(c.k) => Rank(0, false, false, c.junk[a][a := c.blocks[a]])), map[])
  }

  /** One group call is a send and a receive that complete in either order. A receive needs a
      message of its own size; both need their blocks to lie inside the buffer. */
  predicate Enabled<T>(c: Job<T>, s: State<T>, x: Action)
  {
    && x.a < |s.ranks| && s.ranks[x.a].round < c.k
    && var y, j := s.ranks[x.a], s.ranks[x.a].round;
    match x
    case Send(a) => !y.sent && SendStart(a, j) + Pow2(j) <= |y.buf|
    case Recv(a) =>
      && !y.got && RecvStart(a, j) + Pow2(j) <= |y.buf|
      && (Peer(a, j), a) in s.wire && |s.wire[(Peer(a, j), a)]| == Pow2(j)
    case NextRound(a) => y.sent && y.got
  }

  function Step<T>(c: Job<T>, s: State<T>, x: Action): State<T>
    requires Enabled(c, s, x)
  {
    var y, j := s.ranks[x.a], s.ranks[x.a].round;
    match x
    case Send(a) =>
      State(s.ranks[a := y.(sent := true)],
            s.wire[(a, Peer(a, j)) := y.buf[SendStart(a, j)..SendStart(a, j) + Pow2(j)]])
    case Recv(a) =>
      var buf := y.buf[..RecvStart(a, j)] + s.wire[(Peer(a, j), a)] + y.buf[RecvStart(a, j) + Pow2(j)..];
      State(s.ranks[a := y.(got := true, buf := buf)], s.wire - {(Peer(a, j), a)})
    case NextRound(a) =>
      s.(ranks := s.ranks[a := y.(round := j + 1, sent := false, got := false)])
  }

  /** Rank a has issued (taken in) its message of round j. */
  predicate Sent<T>(s: State<T>, a: nat, j: nat)
    requires a < |s.ranks|
  {
    s.ranks[a].round > j || (s.ranks[a].round == j && s.ranks[a].sent)
  }

  predicate Got<T>(s: State<T>, a: nat, j: nat)
    requires a < |s.ranks|
  {
    s.ranks[a].round > j || (s.ranks[a].round == j && s.ranks[a].got)
  }

  function Level<T>(y: Rank<T>): nat
  {
    y.round + if y.got then 1 else 0
  }

  /** The rank holds exactly its aligned group; everything else in its buffer is untouched. */
  ghost predicate HoldsGroup<T>(c: Job<T>, s: State<T>, a: nat)
    requires ValidJob(c) && a < |s.ranks| == |c.blocks|
  {
    var y := s.ranks[a];
    && |y.buf| == |c.blocks| && y.round <= c.k && (y.round == c.k ==> !y.sent && !y.got)
    && forall b: nat :: b < |c.blocks| ==>
         y.buf[b] == if SameGroup(a, b, Level(y)) then c.blocks[b] else c.junk[a][b]
  }

  /** In round j the message from a to its peer is on the wire between send and receive, and
      carries a's group. */
  ghost predicate WireInv<T>(c: Job<T>, s: State<T>, a: nat, j: nat)
    requires ValidJob(c) && a < |s.ranks| == |c.blocks| && j < c.k && Peer(a, j) < |c.blocks|
  {
    var p := Peer(a, j);
    && (Got(s, p, j) ==> Sent(s, a, j))
    && ((a, p) in s.wire <==> Sent(s, a, j) && !Got(s, p, j))
    && ((a, p) in s.wire ==> |s.wire[(a, p)]| == Pow2(j) && SendStart(a, j) + Pow2(j) <= |c.blocks|
                             && s.wire[(a, p)] == c.blocks[SendStart(a, j)..SendStart(a, j) + Pow2(j)])
  }

  ghost predicate Inv<T>(c: Job<T>, s: State<T>)
  {
    && ValidJob(c) && |s.ranks| == |c.blocks|
    && (forall a: nat :: a < |s.ranks| ==> HoldsGroup(c, s, a))
    && (forall a: nat, j: nat :: a < |s.ranks| && j < c.k ==> Peer(a, j) < |c.blocks| && WireInv(c, s, a, j))
  }

  lemma {:induction false} StartInv<T>(c: Job<T>)
    requires ValidJob(c)
    ensures Inv(c, Start(c))
  {
    hide Peer, SendStart;
    forall a: nat, j: nat | a < |c.blocks| && j < c.k
      ensures Peer(a, j) < |c.blocks|
    {
      ExchangeInRange(a, j, c.k);
    }
  }

  /** A send captures a's group. */
  lemma {:induction false} SendData<T>(c: Job<T>, s: State<T>, a: nat)
    requires ValidJob(c) && a < |s.ranks| == |c.blocks| && HoldsGroup(c, s, a) && s.ranks[a].round < c.k
    ensures var y, j := s.ranks[a], s.ranks[a].round;
            && SendStart(a, j) + Pow2(j) <= |y.buf|
            && y.buf[SendStart(a, j)..SendStart(a, j) + Pow2(j)] == c.blocks[SendStart(a, j)..SendStart(a, j) + Pow2(j)]
  {
    hide Peer, SendStart, RecvStart, SameGroup;
    var j := s.ranks[a].round;
    ExchangeInRange(a, j, c.k);
    forall b: nat | SendStart(a, j) <= b < SendStart(a, j) + Pow2(j)
      ensures s.ranks[a].buf[b] == c.blocks[b]
    {
      SendsItsGroup(a, b, j);
      GroupDoubles(a, b, j);
    }
  }

  /** A receive fills in the peer's group and nothing else. */
  lemma {:induction false} RecvHolds<T>(c: Job<T>, s: State<T>, a: nat)
    requires ValidJob(c) && a < |s.ranks| == |c.blocks| && HoldsGroup(c, s, a) && Enabled(c, s, Recv(a))
    requires Peer(a, s.ranks[a].round) < |c.blocks| && Peer(Peer(a, s.ranks[a].round), s.ranks[a].round) == a
    requires WireInv(c, s, Peer(a, s.ranks[a].round), s.ranks[a].round)
    ensures HoldsGroup(c, Step(c, s, Recv(a)), a)
  {
    hide Peer, SendStart, RecvStart, SameGroup;
    var j := s.ranks[a].round;
    PeerFlipsBit(a, j);
    ReceivesPeersGroup(a, j);
    var y' := Step(c, s, Recv(a)).ranks[a];
    var r := RecvStart(a, j);
    assert |y'.buf| == |c.blocks|;
    forall b: nat | b < |c.blocks|
      ensures y'.buf[b] == if SameGroup(a, b, j + 1) then c.blocks[b] else c.junk[a][b]
    {
      SendsItsGroup(Peer(a, j), b, j);
      GroupDoubles(a, b, j);
    }
  }

  lemma {:induction false} HoldsStep<T>(c: Job<T>, s: State<T>, x: Action, a: nat)
    requires Inv(c, s) && Enabled(c, s, x) && a < |s.ranks|
    ensures HoldsGroup(c, Step(c, s, x), a)
  {
    hide Peer, SendStart, RecvStart, SameGroup, WireInv;
    assert HoldsGroup(c, s, a);
    if x == Recv(a) {
      var j := s.ranks[a].round;
      ExchangeInRange(a, j, c.k);
      PeerFlipsBit(a, j);
      assert WireInv(c, s, Peer(a, j), j);
      RecvHolds(c, s, a);
    } else if x == NextRound(a) {
      assert s.ranks[a].round + 1 == c.k ==> true;
    }
  }

  /** The wire between two ranks is used in one round only. */
  lemma {:induction false} WireUsedOnce(a: nat, i: nat, b: nat, j: nat)
    ensures (a, Peer(a, i)) == (b, Peer(b, j)) ==> i == j
    ensures (Peer(a, i), a) == (b, Peer(b, j)) ==> i == j
    ensures Peer(Peer(b, j), j) == b
  {
    PeerFlipsBit(a, i);
    PeerFlipsBit(b, j);
    if i < j {
      PeersDiffer(a, i, j);
      PeersDiffer(b, i, j);
    } else if j < i {
      PeersDiffer(a, j, i);
      PeersDiffer(b, j, i);
    }
  }

  lemma {:induction false} WireSend<T>(c: Job<T>, s: State<T>, x: nat, a: nat, j: nat)
    requires Inv(c, s) && Enabled(c, s, Send(x)) && a < |s.ranks| && j < c.k && Peer(a, j) < |c.blocks|
    ensures WireInv(c, Step(c, s, Send(x)), a, j)
  {
    hide SendStart, RecvStart, HoldsGroup, Peer;
    assert WireInv(c, s, a, j);
    SendDataOf(c, s, x);
    WireUsedOnce(x, s.ranks[x].round, a, j);
    hide Inv;
  }

  lemma {:induction false} WireRecv<T>(c: Job<T>, s: State<T>, x: nat, a: nat, j: nat)
    requires Inv(c, s) && Enabled(c, s, Recv(x)) && a < |s.ranks| && j < c.k && Peer(a, j) < |c.blocks|
    ensures WireInv(c, Step(c, s, Recv(x)), a, j)
  {
    hide SendStart, RecvStart, HoldsGroup, Peer;
    assert WireInv(c, s, a, j);
    WireUsedOnce(x, s.ranks[x].round, a, j);
    hide Inv;
  }

  lemma {:induction false} WireNext<T>(c: Job<T>, s: State<T>, x: nat, a: nat, j: nat)
    requires Inv(c, s) && Enabled(c, s, NextRound(x)) && a < |s.ranks| && j < c.k && Peer(a, j) < |c.blocks|
    ensures WireInv(c, Step(c, s, NextRound(x)), a, j)
  {
    hide SendStart, RecvStart, HoldsGroup, Peer;
    assert WireInv(c, s, a, j);
    hide Inv;
  }

  lemma {:induction false} SendDataOf<T>(c: Job<T>, s: State<T>, a: nat)
    requires Inv(c, s) && Enabled(c, s, Send(a))
    ensures var y, j := s.ranks[a], s.ranks[a].round;
            && |y.buf| == |c.blocks| && SendStart(a, j) + Pow2(j) <= |y.buf|
            && y.buf[SendStart(a, j)..SendStart(a, j) + Pow2(j)] == c.blocks[SendStart(a, j)..SendStart(a, j) + Pow2(j)]
  {
    hide Peer, SendStart, RecvStart, WireInv;
    assert HoldsGroup(c, s, a);
    SendData(c, s, a);
  }

  lemma {:induction false} StepInv<T>(c: Job<T>, s: State<T>, x: Action)
    requires Inv(c, s) && Enabled(c, s, x)
    ensures Inv(c, Step(c, s, x))
  {
    hide Peer, SendStart, RecvStart, HoldsGroup, WireInv;
    var s' := Step(c, s, x);
    assert |s'.ranks| == |s.ranks|;
    forall a: nat | a < |s.ranks|
      ensures HoldsGroup(c, s', a)
    {
      HoldsStep(c, s, x, a);
    }
    forall a: nat, j: nat | a < |s.ranks| && j < c.k
      ensures Peer(a, j) < |c.blocks| && WireInv(c, s', a, j)
    {
      match x
      case Send(b) => WireSend(c, s, b, a, j);
      case Recv(b) => WireRecv(c, s, b, a, j);
      case NextRound(b) => WireNext(c, s, b, a, j);
    }
  }

  // ---- all runs

  ghost predicate IsRun<T>(c: Job<T>, run: seq<State<T>>, moves: seq<Action>)
  {
    && ValidJob(c) && |run| == |moves| + 1 && run[0] == Start(c)
    && forall i :: 0 <= i < |moves| ==> Enabled(c, run[i], moves[i]) && run[i + 1] == Step(c, run[i], moves[i])
  }

  lemma {:induction false} RunInv<T>(c: Job<T>, run: seq<State<T>>, moves: seq<Action>, i: nat)
    requires IsRun(c, run, moves) && i < |run|
    ensures Inv(c, run[i])
  {
    hide Inv, Enabled, Step, Start;
    if i == 0 {
      StartInv(c);
    } else {
      RunInv(c, run, moves, i - 1);
      StepInv(c, run[i - 1], moves[i - 1]);
    }
  }

  /** Before round j a rank holds exactly its aligned group of 2^j blocks. */
  lemma {:induction false} RoundHoldsGroup<T>(c: Job<T>, run: seq<State<T>>, moves: seq<Action>, i: nat, a: nat, b: nat)
    requires IsRun(c, run, moves) && i < |run| && a < Pow2(c.k) && b < Pow2(c.k)
    ensures |run[i].ranks| == Pow2(c.k) && |run[i].ranks[a].buf| == Pow2(c.k)
    ensures var y := run[i].ranks[a];
            !y.got ==>
              y.buf[b] == if SendStart(a, y.round) <= b < SendStart(a, y.round) + Pow2(y.round) then c.blocks[b] else c.junk[a][b]
  {
    RunInv(c, run, moves, i);
    hide IsRun, Peer, WireInv, SameGroup;
    assert HoldsGroup(c, run[i], a);
    SendsItsGroup(a, b, run[i].ranks[a].round);
  }

  /** A rank leaves round j only together with its peer's data: neither of a pair is ever a full
      round ahead of the other's send. */
  lemma {:induction false} PairsMeet<T>(c: Job<T>, run: seq<State<T>>, moves: seq<Action>, i: nat, a: nat, j: nat)
    requires IsRun(c, run, moves) && i < |run| && a < Pow2(c.k) && j < c.k
    ensures |run[i].ranks| == Pow2(c.k) && Peer(a, j) < Pow2(c.k)
    ensures run[i].ranks[a].round > j ==> run[i].ranks[Peer(a, j)].round >= j && Sent(run[i], Peer(a, j), j)
  {
    RunInv(c, run, moves, i);
    hide IsRun, HoldsGroup;
    PeerFlipsBit(a, j);
    hide Peer;
    assert WireInv(c, run[i], a, j);
    assert WireInv(c, run[i], Peer(a, j), j);
  }

  // ---- progress

  lemma {:induction false} SomeSlowest<T>(s: State<T>, k: nat) returns (a: nat)
    requires 0 < k <= |s.ranks|
    ensures a < k && forall q :: 0 <= q < k ==> s.ranks[a].round <= s.ranks[q].round
  {
    if k == 1 {
      a := 0;
    } else {
      a := SomeSlowest(s, k - 1);
      if s.ranks[k - 1].round < s.ranks[a].round {
        a := k - 1;
      }
    }
  }

  /** The exchange never gets stuck before every rank has finished: every receive meets a send of
      its own size, and no copy leaves the buffer. */
  lemma {:induction false} NeverStuck<T>(c: Job<T>, s: State<T>)
    requires Inv(c, s)
    ensures (forall a :: 0 <= a < |s.ranks| ==> s.ranks[a].round == c.k) || exists x :: Enabled(c, s, x)
  {
    var a := SomeSlowest(s, |s.ranks|);
    assert HoldsGroup(c, s, a);
    if s.ranks[a].round == c.k {
      forall q | 0 <= q < |s.ranks|
        ensures s.ranks[q].round == c.k
      {
        assert HoldsGroup(c, s, q);
      }
    } else {
      SlowestMoves(c, s, a);
    }
  }

  lemma {:induction false} SlowestMoves<T>(c: Job<T>, s: State<T>, a: nat)
    requires Inv(c, s) && a < |s.ranks| && s.ranks[a].round < c.k
    requires forall q :: 0 <= q < |s.ranks| ==> s.ranks[a].round <= s.ranks[q].round
    ensures exists x :: Enabled(c, s, x)
  {
    var y, j := s.ranks[a], s.ranks[a].round;
    var p := Peer(a, j);
    ExchangeInRange(a, j, c.k);
    ExchangeInRange(p, j, c.k);
    PeerFlipsBit(a, j);
    hide Peer, SendStart, RecvStart;
    assert HoldsGroup(c, s, a) && HoldsGroup(c, s, p) && WireInv(c, s, p, j);
    if !y.sent {
      assert Enabled(c, s, Send(a));
    } else if y.got {
      assert Enabled(c, s, NextRound(a));
    } else if !Sent(s, p, j) {
      assert Enabled(c, s, Send(p));
    } else {
      assert Enabled(c, s, Recv(a));
    }
  }

  /** Three moves a round for each rank. */
  function Progress<T>(ranks: seq<Rank<T>>): (ps: seq<int>)
    ensures |ps| == |ranks|
    ensures forall a :: 0 <= a < |ps| ==>
              ps[a] == 3 * ranks[a].round + (if ranks[a].sent then 1 else 0) + (if ranks[a].got then 1 else 0)
  {
    if ranks == [] then [] else
    var y := ranks[0];
    [3 * y.round + (if y.sent then 1 else 0) + (if y.got then 1 else 0)] + Progress(ranks[1..])
  }

  lemma {:induction false} StepProgress<T>(c: Job<T>, s: State<T>, x: Action)
    requires Enabled(c, s, x)
    ensures Sum(Progress(Step(c, s, x).ranks)) == Sum(Progress(s.ranks)) + 1
  {
    hide Peer, SendStart, RecvStart, Sum;
    SumBump(Progress(s.ranks), Progress(Step(c, s, x).ranks), x.a, 1);
  }

  lemma {:induction false} RunProgress<T>(c: Job<T>, run: seq<State<T>>, moves: seq<Action>, i: nat)
    requires IsRun(c, run, moves) && i < |run|
    ensures Sum(Progress(run[i].ranks)) == i
  {
    if i == 0 {
      SumConstant(Progress(run[0].ranks), 0);
    } else {
      RunProgress(c, run, moves, i - 1);
      StepProgress(c, run[i - 1], moves[i - 1]);
    }
  }

  /** Every run ends after exactly 3k moves of each of the 2^k ranks, whatever the schedule, and
      then every rank holds every block in order. */
  lemma {:induction false} GathersAll<T>(c: Job<T>, run: seq<State<T>>, moves: seq<Action>)
    requires IsRun(c, run, moves)
    ensures |moves| <= 3 * c.k * Pow2(c.k)
    ensures |moves| == 3 * c.k * Pow2(c.k) <==> !exists x :: Enabled(c, run[|moves|], x)
    ensures (!exists x :: Enabled(c, run[|moves|], x)) ==>
              forall a :: 0 <= a < |run[|moves|].ranks| ==> run[|moves|].ranks[a].buf == c.blocks
  {
    var s := run[|moves|];
    RunInv(c, run, moves, |moves|);
    RunProgress(c, run, moves, |moves|);
    hide IsRun, Enabled, WireInv, Sum;
    NeverStuck(c, s);
    forall a: nat | a < |s.ranks|
      ensures Progress(s.ranks)[a] <= 3 * c.k && (Progress(s.ranks)[a] == 3 * c.k ==> s.ranks[a].round == c.k)
    {
      assert HoldsGroup(c, s, a);
    }
    SumAtMost(Progress(s.ranks), 3 * c.k);
    if forall a :: 0 <= a < |s.ranks| ==> s.ranks[a].round == c.k {
      FinishedHolds(c, s);
    }
  }

  lemma {:induction false} FinishedHolds<T>(c: Job<T>, s: State<T>)
    requires Inv(c, s) && forall a :: 0 <= a < |s.ranks| ==> s.ranks[a].round == c.k
    ensures forall a :: 0 <= a < |s.ranks| ==> s.ranks[a].buf == c.blocks && !s.ranks[a].sent && !s.ranks[a].got
    ensures !exists x :: Enabled(c, s, x)
  {
    hide WireInv, SameGroup;
    forall a: nat | a < |s.ranks|
      ensures s.ranks[a].buf == c.blocks && !s.ranks[a].sent && !s.ranks[a].got
    {
      assert HoldsGroup(c, s, a);
      forall b: nat | b < |c.blocks|
        ensures s.ranks[a].buf[b] == c.blocks[b]
      {
        WholeGroup(a, b, c.k);
      }
    }
  }

  // ---- the loop one rank runs

  datatype Exchange = Exchange(sendFrom: nat, recvInto: nat, blocks: nat, peer: nat)

  function Call(rank: nat, j: nat): Exchange
  {
    Exchange(SendStart(rank, j), RecvStart(rank, j), Pow2(j), Peer(rank, j))
  }

  /** The group calls that a rank issues: one for each round of the protocol above. */
  method MaskLoop(rank: nat, nRanks: nat, ghost k: nat) returns (calls: seq<Exchange>)
    requires nRanks == Pow2(k)
    ensures |calls| == k
    ensures forall j :: 0 <= j < k ==> calls[j] == Call(rank, j)
  {
    hide Call, AndNot, Xor, Pow2;
    calls := [];
    var mask := 1;
    MaskExponent(0, k);
    while mask < nRanks
      invariant |calls| <= k && mask == Pow2(|calls|)
      invariant forall j :: 0 <= j < |calls| ==> calls[j] == Call(rank, j)
      decreases k - |calls|
    {
      MaskExponent(|calls|, k);
      var s := AndNot(rank, mask - 1);
      var r := Xor(s, mask);
      CallIs(rank, |calls|, mask);
      calls := calls + [Exchange(s, r, mask, Xor(rank, mask))];
      mask := 2 * mask;
    }
    MaskExponent(|calls|, k);
  }

  lemma {:induction false} CallIs(rank: nat, j: nat, mask: nat)
    requires mask == Pow2(j)
    ensures Call(rank, j) == Exchange(AndNot(rank, mask - 1), Xor(AndNot(rank, mask - 1), mask), mask, Xor(rank, mask))
  {
    hide AndNot, Xor, Pow2;
  }

  lemma {:induction false} MaskExponent(j: nat, k: nat)
    ensures Pow2(j) < Pow2(k) <==> j < k
    ensures Pow2(0) == 1 && Pow2(j + 1) == 2 * Pow2(j)
  {
    if j < k {
      Pow2Mono(j, k);
    } else {
      Pow2Mono(k, j);
    }
  }

  // ---- runs exist, and can be completed

  lemma {:induction false} RunStarts<T>(c: Job<T>)
    requires ValidJob(c)
    ensures IsRun(c, [Start(c)], [])
  {
  }

  lemma {:induction false} RunGoesOn<T>(c: Job<T>, run: seq<State<T>>, moves: seq<Action>, x: Action)
    requires IsRun(c, run, moves) && Enabled(c, run[|moves|], x)
    ensures IsRun(c, run + [Step(c, run[|moves|], x)], moves + [x])
  {
    hide Enabled, Step, Start;
  }

  /** From wherever a run has come to, it can go on until every rank holds every block in order. */
  lemma {:induction false} RunCompletes<T>(c: Job<T>, run: seq<State<T>>, moves: seq<Action>)
    returns (run': seq<State<T>>, moves': seq<Action>)
    requires IsRun(c, run, moves)
    ensures IsRun(c, run', moves') && run <= run' && moves <= moves'
    ensures |run'[|moves'|].ranks| == Pow2(c.k) && forall a :: 0 <= a < Pow2(c.k) ==> run'[|moves'|].ranks[a].buf == c.blocks
    decreases 3 * c.k * Pow2(c.k) - |moves|
  {
    hide Enabled, Step, Start, Inv;
    GathersAll(c, run, moves);
    RunInv(c, run, moves, |moves|);
    if x :| Enabled(c, run[|moves|], x) {
      RunGoesOn(c, run, moves, x);
      run', moves' := RunCompletes(c, run + [Step(c, run[|moves|], x)], moves + [x]);
    } else {
      RankCount(c, run[|moves|]);
      run', moves' := run, moves;
    }
  }

  lemma {:induction false} RankCount<T>(c: Job<T>, s: State<T>)
    requires Inv(c, s)
    ensures |s.ranks| == Pow2(c.k)
  {
  }
}
