/**
 Whole runs of the bridge, with nothing assumed of the leaf, the radio or the source: what has
 been sent when a transfer reaches its end, how much work a transfer can cost, and how the
 reported percentage moves.
 */
module TransferRuns {
  import opened Seqs
  import opened Bytes
  import opened Geometry
  import opened GapBitmap
  import opened Transfer
  import opened TransferMoves
  import opened TransferInvariants

  /** The bridge together with what it has done since the current or last transfer was started. */
  datatype Run = Run(
    bridge: Bridge,
    fileSize: nat,
    plan: Geometry,       // the geometry of that transfer, once accepted
    delivered: set<nat>,  // chunks the radio took
    dataFrames: nat,
    blastFrames: nat,
    effective: nat)       // how often the busy bridge changed

  function DataOf(f: Frame): set<nat> { if f.Data? then {f.seqNo} else {} }

  function AllData(fs: seq<Frame>): set<nat> {
    if fs == [] then {} else DataOf(fs[0]) + AllData(fs[1..])
  }

  function CountData(fs: seq<Frame>): nat {
    if fs == [] then 0 else (if fs[0].Data? then 1 else 0) + CountData(fs[1..])
  }

  function CountBlast(fs: seq<Frame>): nat {
    if fs == [] then 0 else (if fs[0].BlastComplete? then 1 else 0) + CountBlast(fs[1..])
  }

  predicate Transferring(b: Bridge) { b.phase == Blasting || b.phase == WaitingGaps }

  predicate Established(b: Bridge) { Transferring(b) || b.phase == Ending }

  /** The run after a busy bridge moved to `b'` sending `fs`. */
  function Record(r: Run, fs: seq<Frame>, b': Bridge): Run {
    Run(b', r.fileSize, if Established(b') then b'.geo else r.plan,
        r.delivered + AllData(fs), r.dataFrames + CountData(fs), r.blastFrames + CountBlast(fs),
        r.effective + (if b' == r.bridge then 0 else 1))
  }

  function Next(r: Run, e: Event): Run {
    var o := Step(r.bridge, e);
    if r.bridge.Busy() then Record(r, o.frames, o.bridge)
    else if o.bridge == r.bridge then r
    else Run(o.bridge, o.bridge.fileSize, NONE, {}, 0, 0, 0)
  }

  function After(r: Run, events: seq<Event>): Run {
    if events == [] then r else Next(After(r, events[..|events| - 1]), events[|events| - 1])
  }

  /** The first chunk that is in no increment before `inc`. */
  function Before(g: Geometry, inc: nat): nat {
    if inc < g.totalIncrements then g.Start(inc) else if g.totalIncrements == 0 then 0 else g.End(g.totalIncrements - 1)
  }

  /** All chunks below `n` are in the set. */
  predicate Covers(d: set<nat>, n: nat) { forall s: nat :: s < n ==> s in d }

  predicate Within(d: set<nat>, n: nat) { forall s: nat :: s in d ==> s < n }

  /** Nothing has gone out but the chunks below `n` and those in `sent`. */
  predicate SentOrBefore(d: set<nat>, sent: set<nat>, n: nat) { forall s: nat :: s in d ==> s < n || s in sent }

  /** Everything before the current increment went out, and so did what the round counts as sent. */
  predicate Delivered(r: Run) {
    var b := r.bridge;
    && (b.phase == Announcing ==> r.delivered == {})
    && (Transferring(b) ==>
          && Covers(r.delivered, Before(b.geo, b.increment)) && Within(r.delivered, Before(b.geo, b.increment + 1))
          && b.sent <= r.delivered
          && (if b.round > 0 then b.geo.Range(b.increment) <= r.delivered
              else SentOrBefore(r.delivered, b.sent, Before(b.geo, b.increment))))
    && (b.phase == Ending ==> r.delivered == Interval(0, Before(b.geo, b.geo.totalIncrements)))
  }

  /** Data frames allowed for `n` chunks: each goes out once and again in every retransmit round. */
  function Rounds(n: nat): nat {
    11 * n
  }

  /** BLAST_COMPLETE frames allowed for `n` increments. */
  function Blasts(n: nat): nat {
    220 * n
  }

  function RoundSize(b: Bridge): nat {
    if b.increment < b.geo.totalIncrements then b.geo.Size(b.increment) else 0
  }

  /** The chunks of the rounds up to and including `round`, when each has `size`. */
  function SoFar(round: nat, size: nat): nat {
    if round == 0 then size else SoFar(round - 1, size) + size
  }

  lemma {:induction false} SoFarAtMost(round: nat, size: nat)
    requires round <= MAX_RETRANSMIT_ROUNDS
    ensures size <= SoFar(round, size) == (round + 1) * size <= Rounds(size)
  {
    if round > 0 {
      SoFarAtMost(round - 1, size);
      MulDist(round, 1, size);
    }
    MulMono(round + 1, 11, size);
  }

  /** Frames sent since the counts were `data0` and `blast0`, and those this round can still send, stay within what the increment's rounds so far allow. */
  predicate InRounds(b: Bridge, data: nat, blast: nat, data0: nat, blast0: nat) {
    && data + |b.requested| + |b.pending| <= data0 + SoFar(b.round, RoundSize(b))
    && blast <= blast0 + 20 * b.round + b.retries
  }

  predicate InBounds(b: Bridge, data: nat, blast: nat) {
    InRounds(b, data, blast, Rounds(Before(b.geo, b.increment)), Blasts(b.increment))
  }

  /** A transfer keeps to its plan's budget of frames. */
  predicate Bounded(r: Run) {
    var b := r.bridge;
    && (b.phase == Announcing ==> r.dataFrames == r.blastFrames == 0)
    && (Established(b) ==> r.plan == b.geo)
    && (Transferring(b) ==> InBounds(b, r.dataFrames, r.blastFrames))
    && (r.plan == NONE || r.plan.Exact() ==>
          r.dataFrames <= Rounds(r.plan.totalChunks) && r.blastFrames <= Blasts(r.plan.totalIncrements))
  }

  lemma BeforeNext(g: Geometry, k: nat)
    requires Sound(g) && k < g.totalIncrements
    ensures Before(g, k) == g.Start(k) && Before(g, k + 1) == g.End(k) == g.Start(k) + g.Size(k) <= g.totalChunks
    ensures Before(g, 0) == 0
  {
    IncrementShape(g, k);
  }

  lemma RangeBounds(g: Geometry, k: nat)
    requires Sound(g) && k < g.totalIncrements
    ensures forall s: nat :: s in g.Range(k) <==> Before(g, k) <= s < Before(g, k + 1)
    ensures |g.Range(k)| == g.Size(k)
  {
    BeforeNext(g, k);
  }

  lemma BeforeGrows(g: Geometry, k: nat)
    requires Sound(g)
    ensures Before(g, k) <= Before(g, k + 1) <= g.totalChunks
  {
    IncrementShape(g, g.totalIncrements - 1);
    if k < g.totalIncrements { BeforeNext(g, k); }
  }

  lemma FramesSplit(f1: seq<Frame>, f2: seq<Frame>)
    requires |f1| <= 1
    ensures AllData(f1 + f2) == AllData(f1) + AllData(f2)
    ensures CountData(f1 + f2) == CountData(f1) + CountData(f2)
    ensures CountBlast(f1 + f2) == CountBlast(f1) + CountBlast(f2)
  {
    if f1 == [] {
      assert f1 + f2 == f2;
    } else {
      assert (f1 + f2)[0] == f1[0] && (f1 + f2)[1..] == f2 && f1[1..] == [];
    }
  }

  lemma FramesOfMove(m: Move, b: Bridge, fs: seq<Frame>, b': Bridge)
    requires Moves(m, b, fs, b')
    ensures |fs| <= 1
    ensures AllData(fs) == if m.SendHead? then {b.pending[0].seqNo} else {}
    ensures CountData(fs) == if m.SendHead? then 1 else 0
    ensures CountBlast(fs) == if m.CloseRound? then 1 else 0
  {
    if fs != [] { assert fs[1..] == []; }
  }

  // Delivery.

  /** While the bridge waits for the leaf's answer, exactly the chunks up to the current increment's end are out. */
  lemma WaitingHasDelivered(r: Run)
    requires Regular(r.bridge) && Delivered(r) && r.bridge.phase == WaitingGaps
    ensures Covers(r.delivered, Before(r.bridge.geo, r.bridge.increment + 1))
  {
    var b := r.bridge;
    RangeBounds(b.geo, b.increment);
    assert b.geo.Range(b.increment) <= r.delivered;
  }

  lemma HeadInIncrement(b: Bridge)
    requires Regular(b) && b.phase == Blasting && b.pending != []
    ensures b.increment < b.geo.totalIncrements && b.pending[0].seqNo in b.geo.Range(b.increment)
  {
    assert b.pending[0].seqNo in Target(b);
  }

  lemma HeadKeepsDelivered(r: Run, r': Run)
    requires Sound(r.bridge.geo) && Delivered(r) && r.bridge.phase == Blasting && r.bridge.pending != []
    requires r.bridge.increment < r.bridge.geo.totalIncrements
    requires r.bridge.pending[0].seqNo in r.bridge.geo.Range(r.bridge.increment)
    requires r'.bridge == HeadSent(r.bridge) && r'.delivered == r.delivered + {r.bridge.pending[0].seqNo}
    ensures Delivered(r')
  {
    RangeBounds(r.bridge.geo, r.bridge.increment);
  }

  lemma NextIncrementKeepsDelivered(r: Run, r': Run)
    requires Regular(r.bridge) && Delivered(r) && r.bridge.phase == WaitingGaps && r'.delivered == r.delivered
    requires r'.bridge.phase == Blasting && r'.bridge.geo == r.bridge.geo && r'.bridge.increment == r.bridge.increment + 1
    requires r'.bridge.sent == {} && r'.bridge.round == 0
    ensures Delivered(r')
  {
    WaitingHasDelivered(r);
    BeforeGrows(r.bridge.geo, r.bridge.increment + 1);
  }

  lemma RetransmitKeepsDelivered(r: Run, r': Run)
    requires Regular(r.bridge) && Delivered(r) && r.bridge.phase == WaitingGaps && r'.delivered == r.delivered
    requires r'.bridge.phase == Blasting && r'.bridge.geo == r.bridge.geo && r'.bridge.increment == r.bridge.increment
    requires r'.bridge.sent == {}
    requires r'.bridge.round > 0
    ensures Delivered(r')
  {
    WaitingHasDelivered(r);
    RangeBounds(r.bridge.geo, r.bridge.increment);
  }

  lemma FinishKeepsDelivered(r: Run, r': Run)
    requires Regular(r.bridge) && Delivered(r) && r.bridge.phase == WaitingGaps && r'.delivered == r.delivered
    requires r'.bridge.phase == Ending && r'.bridge.geo == r.bridge.geo && r.bridge.geo.IsLast(r.bridge.increment)
    ensures Delivered(r')
  {
    WaitingHasDelivered(r);
  }

  lemma AcceptKeepsDelivered(r: Run, r': Run, fs: seq<Frame>, chunk: nat, kb: nat)
    requires Regular(r.bridge) && Delivered(r) && IsAccepted(r.bridge, fs, r'.bridge, chunk, kb) && r'.delivered == r.delivered
    ensures Delivered(r')
  {
    NegotiatedFacts(r.bridge.fileSize, chunk, kb);
    BeforeNext(r'.bridge.geo, 0);
  }

  lemma SmallMoveKeepsDelivered(m: Move, r: Run, fs: seq<Frame>, r': Run)
    requires Delivered(r) && Moves(m, r.bridge, fs, r'.bridge)
    requires m.Stop? || m.AnnounceAgain? || m.Enqueue? || m.CloseRound? || m.SendLast?
    requires r'.delivered == r.delivered
    ensures Delivered(r')
  {
    if m.Enqueue? || m.CloseRound? { SameRoundDelivered(r, r'); }
  }

  lemma SameRoundDelivered(r: Run, r': Run)
    requires Delivered(r) && Transferring(r.bridge) && Transferring(r'.bridge) && r'.delivered == r.delivered
    requires r'.bridge.geo == r.bridge.geo && r'.bridge.increment == r.bridge.increment && r'.bridge.round == r.bridge.round
    requires r'.bridge.sent == r.bridge.sent
    ensures Delivered(r')
  {
  }

  lemma FewData(d: set<nat>, more: set<nat>)
    ensures more == {} ==> d + more == d
  {
  }

  lemma SameDelivered(r: Run, r': Run)
    requires Delivered(r) && r'.bridge == r.bridge && r'.delivered == r.delivered
    ensures Delivered(r')
  {
  }

  lemma MoveKeepsDelivered(m: Move, r: Run, fs: seq<Frame>, r': Run)
    requires Regular(r.bridge) && Delivered(r) && r.bridge.Busy() && Moves(m, r.bridge, fs, r'.bridge)
    requires r' == Record(r, fs, r'.bridge)
    ensures Delivered(r')
  {
    FramesOfMove(m, r.bridge, fs, r'.bridge);
    FewData(r.delivered, AllData(fs));
    match m
    case Stay => SameDelivered(r, r');
    case SendHead => HeadInIncrement(r.bridge); HeadKeepsDelivered(r, r');
    case Ask => AskChangesNothing(r.bridge, fs, r'.bridge); SameDelivered(r, r');
    case Accept(chunk, kb) => AcceptKeepsDelivered(r, r', fs, chunk, kb);
    case Advance => NextCounts(r.bridge); NextIncrementKeepsDelivered(r, r');
    case Skip(_) => NextCounts(r.bridge); NextIncrementKeepsDelivered(r, r');
    case Retransmit(_) => RetransmitKeepsDelivered(r, r');
    case Finish => FinishKeepsDelivered(r, r');
    case _ => SmallMoveKeepsDelivered(m, r, fs, r');
  }

  // Work.

  lemma RetransmitFits(b: Bridge, fs: seq<Frame>, b': Bridge, bitmap: bytes)
    requires Regular(b) && Retransmits(b, fs, b', bitmap)
    ensures |b'.requested| <= RoundSize(b) && b'.pending == [] && RoundSize(b') == RoundSize(b)
  {
    RetransmitKeepsRegular(b, fs, b', bitmap);
    RangeBounds(b.geo, b.increment);
    SubsetSize(b'.gaps, b.geo.Range(b.increment));
  }

  lemma NextIncrementFits(b: Bridge, b': Bridge)
    requires Regular(b) && b.phase == WaitingGaps
    requires b'.geo == b.geo && b'.pending == b.pending && b'.round == 0 && b'.increment == b.increment + 1
    requires b'.requested == b'.geo.Range(b'.increment) && OnCourse(b') && b'.phase == Blasting && b'.retries == 0 && b'.sent == {}
    ensures |b'.requested| == RoundSize(b') && b'.pending == []
    ensures Before(b.geo, b'.increment) == Before(b.geo, b.increment) + RoundSize(b)
    ensures b'.increment < b.geo.totalIncrements ==>
              Before(b.geo, b'.increment) + RoundSize(b') == Before(b.geo, b'.increment + 1) <= b.geo.totalChunks
  {
    NextIncrementIsRegular(b, b');
    BeforeNext(b.geo, b.increment);
    if b'.increment < b.geo.totalIncrements { BeforeNext(b.geo, b'.increment); RangeBounds(b.geo, b'.increment); }
  }

  /** What an increment's rounds allow is within what the whole plan allows. */
  lemma WithinPlan(b: Bridge)
    requires Sound(b.geo) && b.round <= MAX_RETRANSMIT_ROUNDS && b.retries <= MAX_BLAST_COMPLETE_RETRIES
    requires b.increment < b.geo.totalIncrements || (b.increment == b.geo.totalIncrements && b.round == b.retries == 0)
    ensures Rounds(Before(b.geo, b.increment)) + SoFar(b.round, RoundSize(b)) <= Rounds(b.geo.totalChunks)
    ensures Blasts(b.increment) + 20 * b.round + b.retries <= Blasts(b.geo.totalIncrements)
  {
    BeforeGrows(b.geo, b.increment);
    SoFarAtMost(b.round, RoundSize(b));
    if b.increment < b.geo.totalIncrements { BeforeNext(b.geo, b.increment); }
  }

  /** The next increment's allowance begins where this one's ends. */
  lemma NextIncrementInBounds(b: Bridge, b': Bridge, data: nat, blast: nat)
    requires Regular(b) && b.phase == WaitingGaps && InBounds(b, data, blast)
    requires b'.geo == b.geo && b'.pending == b.pending && b'.round == 0 && b'.increment == b.increment + 1
    requires b'.requested == b'.geo.Range(b'.increment) && OnCourse(b') && b'.phase == Blasting && b'.retries == 0 && b'.sent == {}
    ensures InBounds(b', data, blast)
  {
    NextIncrementFits(b, b');
    SoFarAtMost(b.round, RoundSize(b));
  }

  lemma AcceptInBounds(b: Bridge, fs: seq<Frame>, b': Bridge, chunk: nat, kb: nat)
    requires Regular(b) && IsAccepted(b, fs, b', chunk, kb)
    ensures InBounds(b', 0, 0)
  {
    NegotiatedFacts(b.fileSize, chunk, kb);
    BeforeNext(b'.geo, 0);
    RangeBounds(b'.geo, 0);
  }

  lemma InBoundsIsBounded(r': Run)
    requires Regular(r'.bridge) && Transferring(r'.bridge) && r'.plan == r'.bridge.geo
    requires InBounds(r'.bridge, r'.dataFrames, r'.blastFrames)
    ensures Bounded(r')
  {
    var b := r'.bridge;
    EndIsQuiet(b);
    WithinPlan(b);
  }

  /** Past the last increment there is only a first round, and no BLAST_COMPLETE. */
  lemma EndIsQuiet(b: Bridge)
    requires Regular(b) && Transferring(b)
    ensures Sound(b.geo) && b.round <= MAX_RETRANSMIT_ROUNDS && b.retries <= MAX_BLAST_COMPLETE_RETRIES
    ensures b.increment < b.geo.totalIncrements || (b.increment == b.geo.totalIncrements && b.round == b.retries == 0)
  {
  }

  predicate WithinIncrement(m: Move) { m.Stay? || m.Ask? || m.Enqueue? || m.SendHead? || m.CloseRound? || m.Retransmit? }

  lemma RetransmitInRounds(b: Bridge, fs: seq<Frame>, b': Bridge, bitmap: bytes, data: nat, blast: nat, data0: nat, blast0: nat)
    requires Regular(b) && Retransmits(b, fs, b', bitmap) && InRounds(b, data, blast, data0, blast0)
    ensures InRounds(b', data, blast, data0, blast0)
  {
    RetransmitFits(b, fs, b', bitmap);
    assert SoFar(b'.round, RoundSize(b)) == SoFar(b.round, RoundSize(b)) + RoundSize(b);
  }

  lemma EnqueueInRounds(b: Bridge, fs: seq<Frame>, b': Bridge, c: Chunk, data: nat, blast: nat, data0: nat, blast0: nat)
    requires Enqueues(b, fs, b', c) && InRounds(b, data, blast, data0, blast0)
    ensures InRounds(b', data, blast, data0, blast0)
  {
    assert |b'.requested| == |b.requested| - 1;
  }

  lemma SendHeadInRounds(b: Bridge, fs: seq<Frame>, b': Bridge, data: nat, blast: nat, data0: nat, blast0: nat)
    requires SendsHead(b, fs, b') && InRounds(b, data, blast, data0, blast0)
    ensures InRounds(b', data + 1, blast, data0, blast0)
  {
  }

  lemma CloseRoundInRounds(b: Bridge, fs: seq<Frame>, b': Bridge, tx: nat, data: nat, blast: nat, data0: nat, blast0: nat)
    requires ClosesRound(b, fs, b', tx) && InRounds(b, data, blast, data0, blast0)
    ensures InRounds(b', data, blast + 1, data0, blast0)
  {
  }

  lemma SameIncrement(m: Move, b: Bridge, fs: seq<Frame>, b': Bridge)
    requires Moves(m, b, fs, b') && WithinIncrement(m)
    ensures b'.geo == b.geo && b'.increment == b.increment && RoundSize(b') == RoundSize(b)
  {
  }

  /** The moves within an increment keep to its allowance, from wherever its frames are counted. */
  lemma MoveKeepsInRounds(m: Move, b: Bridge, fs: seq<Frame>, b': Bridge, data: nat, blast: nat, data0: nat, blast0: nat)
    requires Regular(b) && Moves(m, b, fs, b') && WithinIncrement(m) && InRounds(b, data, blast, data0, blast0)
    ensures InRounds(b', data + (if m.SendHead? then 1 else 0), blast + (if m.CloseRound? then 1 else 0), data0, blast0)
  {
    match m
    case Ask => AskChangesNothing(b, fs, b');
    case Enqueue(c) => EnqueueInRounds(b, fs, b', c, data, blast, data0, blast0);
    case SendHead => SendHeadInRounds(b, fs, b', data, blast, data0, blast0);
    case CloseRound(tx) => CloseRoundInRounds(b, fs, b', tx, data, blast, data0, blast0);
    case Retransmit(bitmap) => RetransmitInRounds(b, fs, b', bitmap, data, blast, data0, blast0);
    case Stay =>
  }

  lemma RoundMoveKeepsBounded(m: Move, b: Bridge, fs: seq<Frame>, b': Bridge, data: nat, blast: nat)
    requires Regular(b) && Moves(m, b, fs, b') && Transferring(b) && Transferring(b') && InBounds(b, data, blast)
    requires OnCourse(b')
    ensures InBounds(b', data + (if m.SendHead? then 1 else 0), blast + (if m.CloseRound? then 1 else 0))
  {
    if m.Advance? || m.Skip? {
      NextCounts(b);
      NextIncrementInBounds(b, b', data, blast);
    } else {
      SameIncrement(m, b, fs, b');
      MoveKeepsInRounds(m, b, fs, b', data, blast, Rounds(Before(b.geo, b.increment)), Blasts(b.increment));
    }
  }

  /** Moves that leave the counters and the plan alone. */
  lemma EdgeMoveKeepsBounded(r: Run, r': Run)
    requires Bounded(r) && !Transferring(r'.bridge)
    requires r'.dataFrames == r.dataFrames && r'.blastFrames == r.blastFrames && r'.plan == r.plan
    requires r'.bridge.phase == Announcing ==> r.bridge.phase == Announcing
    requires r'.bridge.phase == Ending ==> Established(r.bridge) && r'.bridge.geo == r.bridge.geo
    ensures Bounded(r')
  {
  }

  lemma MoveKeepsBounded(m: Move, r: Run, fs: seq<Frame>, r': Run)
    requires Regular(r.bridge) && Bounded(r) && r.bridge.Busy() && Moves(m, r.bridge, fs, r'.bridge)
    requires Regular(r'.bridge) && OnCourse(r'.bridge)
    requires r' == Record(r, fs, r'.bridge)
    ensures Bounded(r')
  {
    var b, b' := r.bridge, r'.bridge;
    FramesOfMove(m, b, fs, b');
    if m.Ask? { AskChangesNothing(b, fs, b'); }
    if b' != b {
      if m.Accept? {
        AcceptInBounds(b, fs, b', m.chunk, m.kb);
        InBoundsIsBounded(r');
      } else if Transferring(b') {
        RoundMoveKeepsBounded(m, b, fs, b', r.dataFrames, r.blastFrames);
        InBoundsIsBounded(r');
      } else {
        EdgeMoveKeepsBounded(r, r');
      }
    }
  }

  // Termination.

  /** A bound on the moves one round of an increment can take: two for each chunk, and the BLAST_COMPLETEs. */
  function RoundCost(n: nat): nat { 2 * n + 22 }

  /** The same for the retransmit rounds still to come. */
  function RoundsLeft(round: nat, n: nat): nat
    decreases MAX_RETRANSMIT_ROUNDS - round
  {
    if round >= MAX_RETRANSMIT_ROUNDS then 0 else RoundCost(n) + RoundsLeft(round + 1, n)
  }

  lemma {:induction false} RoundsLeftIs(round: nat, n: nat)
    requires round <= MAX_RETRANSMIT_ROUNDS
    ensures RoundsLeft(round, n) == (10 - round) * RoundCost(n)
    decreases MAX_RETRANSMIT_ROUNDS - round
  {
    if round < MAX_RETRANSMIT_ROUNDS {
      RoundsLeftIs(round + 1, n);
      MulDist(10 - (round + 1), 1, RoundCost(n));
    }
  }

  /** The same for all rounds of the increments after `k`. */
  function Later(g: Geometry, k: nat): int {
    11 * (2 * (g.totalChunks - g.End(k)) + 22 * (g.totalIncrements - 1 - k))
  }

  /** The same for what is left of a round and for the retransmit rounds still to come. */
  function InRoundRank(requested: nat, pending: nat, retries: nat, round: nat, size: nat): int {
    2 * requested + pending + (20 - retries) + RoundsLeft(round, size)
  }

  /** A bound on the moves left in the transfer. */
  function Rank(b: Bridge): int {
    match b.phase
    case Idle => 0
    case Announcing => Limit(b.fileSize) - b.attempts
    case Ending => 4 - b.attempts
    case _ =>
      if b.increment >= b.geo.totalIncrements then 4
      else InRoundRank(|b.requested|, |b.pending|, b.retries, b.round, b.geo.Size(b.increment)) + Later(b.geo, b.increment) + 5
  }

  /** How many effective events a transfer of `fileSize` bytes can take. */
  function Limit(fileSize: nat): nat { 264 * fileSize + 8 }

  lemma LaterStep(g: Geometry, k: nat)
    requires Sound(g) && k < g.totalIncrements
    ensures Later(g, k) >= 0
    ensures k + 1 < g.totalIncrements ==> Later(g, k) == 11 * RoundCost(g.Size(k + 1)) + Later(g, k + 1)
  {
    BeforeNext(g, k);
    if k + 1 < g.totalIncrements { BeforeNext(g, k + 1); }
  }

  lemma RankPositive(b: Bridge)
    requires Regular(b) && b.Busy()
    ensures Rank(b) >= 1
  {
    if Transferring(b) && b.increment < b.geo.totalIncrements {
      LaterStep(b.geo, b.increment);
    }
  }

  /** No chunk is empty, and no increment. */
  lemma NoMoreIncrementsThanBytes(g: Geometry)
    requires Sound(g)
    ensures g.totalIncrements <= g.totalChunks <= g.fileSize
  {
    MulMono(1, g.perIncrement, g.totalIncrements - 1);
  }

  lemma FirstRank(b: Bridge)
    requires Sound(b.geo) && b.phase == Blasting && b.requested == b.geo.Range(0) && b.pending == []
    requires b.increment == b.round == b.retries == 0
    ensures Rank(b) <= Limit(b.geo.fileSize) - 4
  {
    BeforeNext(b.geo, 0);
    RangeBounds(b.geo, 0);
    RoundsLeftIs(0, b.geo.Size(0));
    NoMoreIncrementsThanBytes(b.geo);
  }

  lemma AcceptLowersRank(b: Bridge, fs: seq<Frame>, b': Bridge, chunk: nat, kb: nat)
    requires Regular(b) && IsAccepted(b, fs, b', chunk, kb)
    ensures Rank(b') < Rank(b)
  {
    NegotiatedFacts(b.fileSize, chunk, kb);
    FirstRank(b');
  }

  lemma RetransmitLowersRank(b: Bridge, fs: seq<Frame>, b': Bridge, bitmap: bytes)
    requires Regular(b) && Retransmits(b, fs, b', bitmap)
    ensures Rank(b') < Rank(b)
  {
    RetransmitFits(b, fs, b', bitmap);
    var size := RoundSize(b);
    RoundLeft(|b'.requested|, |b.requested|, |b.pending|, b.retries, b.round, size);
    assert b'.geo == b.geo && b'.increment == b.increment && b'.retries == 0 && b'.round == b.round + 1;
  }

  lemma RoundLeft(wanted: nat, requested: nat, pending: nat, retries: nat, round: nat, size: nat)
    requires round < MAX_RETRANSMIT_ROUNDS && wanted <= size && retries <= MAX_BLAST_COMPLETE_RETRIES
    ensures InRoundRank(wanted, 0, 0, round + 1, size) < InRoundRank(requested, pending, retries, round, size)
  {
  }

  lemma NextIncrementLowersRank(b: Bridge, b': Bridge)
    requires Regular(b) && b.phase == WaitingGaps
    requires b'.geo == b.geo && b'.pending == b.pending && b'.round == 0 && b'.increment == b.increment + 1
    requires b'.requested == b'.geo.Range(b'.increment) && OnCourse(b') && b'.phase == Blasting && b'.retries == 0 && b'.sent == {}
    ensures Rank(b') < Rank(b)
  {
    NextIncrementFits(b, b');
    LaterStep(b.geo, b.increment);
    RoundsLeftIs(0, RoundSize(b'));
  }

  lemma EnqueueLowersRank(b: Bridge, fs: seq<Frame>, b': Bridge, c: Chunk)
    requires Regular(b) && Enqueues(b, fs, b', c)
    ensures Rank(b') < Rank(b)
  {
    assert |b'.requested| == |b.requested| - 1;
    assert c.seqNo in Target(b);
  }

  lemma SendHeadLowersRank(b: Bridge, fs: seq<Frame>, b': Bridge)
    requires Regular(b) && SendsHead(b, fs, b')
    ensures Rank(b') < Rank(b)
  {
    HeadInIncrement(b);
  }

  lemma CloseRoundLowersRank(b: Bridge, fs: seq<Frame>, b': Bridge, tx: nat)
    requires Regular(b) && ClosesRound(b, fs, b', tx)
    ensures Rank(b') < Rank(b)
  {
    assert b.sent == Target(b);
  }

  lemma FinishLowersRank(b: Bridge, fs: seq<Frame>, b': Bridge)
    requires Regular(b) && Finishes(b, fs, b')
    ensures Rank(b') < Rank(b)
  {
    LaterStep(b.geo, b.increment);
  }

  lemma MoveLowersRank(m: Move, b: Bridge, fs: seq<Frame>, b': Bridge)
    requires Regular(b) && b.Busy() && Moves(m, b, fs, b') && b' != b && OnCourse(b')
    ensures Rank(b') < Rank(b)
  {
    match m
    case Stop => RankPositive(b);
    case Accept(chunk, kb) => AcceptLowersRank(b, fs, b', chunk, kb);
    case Enqueue(c) => EnqueueLowersRank(b, fs, b', c);
    case Ask => AskChangesNothing(b, fs, b'); assert false;
    case SendHead => SendHeadLowersRank(b, fs, b');
    case CloseRound(tx) => CloseRoundLowersRank(b, fs, b', tx);
    case Advance => NextCounts(b); NextIncrementLowersRank(b, b');
    case Skip(_) => NextCounts(b); NextIncrementLowersRank(b, b');
    case Retransmit(bitmap) => RetransmitLowersRank(b, fs, b', bitmap);
    case Finish => FinishLowersRank(b, fs, b');
    case _ =>
  }

  /** The effective events so far and those still possible are within the limit. */
  predicate Spent(r: Run) {
    && (r.bridge.Busy() ==> r.fileSize == r.bridge.fileSize && r.effective + Rank(r.bridge) <= Limit(r.fileSize))
    && (r.plan == NONE || r.plan.Exact() ==> r.effective <= Limit(r.fileSize))
  }

  lemma MoveKeepsSpent(m: Move, r: Run, fs: seq<Frame>, r': Run)
    requires Regular(r.bridge) && Spent(r) && r.bridge.Busy() && Moves(m, r.bridge, fs, r'.bridge) && OnCourse(r'.bridge)
    requires r' == Record(r, fs, r'.bridge) && Regular(r'.bridge)
    requires Established(r.bridge) ==> r.plan == r.bridge.geo
    ensures Spent(r')
  {
    var b, b' := r.bridge, r'.bridge;
    if b' != b {
      MoveLowersRank(m, b, fs, b');
    }
    if b'.Busy() { RankPositive(b'); }
  }

  lemma MoveKeepsPlan(m: Move, r: Run, fs: seq<Frame>, r': Run)
    requires Unplanned(r) && Paced(r.bridge) && Regular(r.bridge) && r.bridge.Busy() && Moves(m, r.bridge, fs, r'.bridge)
    requires r' == Record(r, fs, r'.bridge)
    ensures Unplanned(r') && Paced(r'.bridge)
  {
    MoveKeepsPaced(m, r.bridge, fs, r'.bridge);
    MoveKeepsUnplanned(m, r, fs, r');
  }

  // Progress.

  lemma PercentMono(g: Geometry, k: nat)
    ensures Percent(g, k) <= Percent(g, k + 1)
  {
    var a, b := (k + 1) * g.perIncrement * g.chunk, (k + 2) * g.perIncrement * g.chunk;
    MulMono(k + 1, k + 2, g.perIncrement);
    MulMono((k + 1) * g.perIncrement, (k + 2) * g.perIncrement, g.chunk);
    if g.fileSize > 0 {
      DivMono(Min(g.fileSize, a) * 100, Min(g.fileSize, b) * 100, g.fileSize);
    }
  }

  lemma DivMono(a: nat, b: nat, d: nat)
    requires d > 0 && a <= b
    ensures a / d <= b / d
  {
    var p := QuotientBounds(a, d);
    var q := QuotientBounds(b, d);
    if p > q {
      MulMono(q + 1, p, d);
      MulDist(q, 1, d);
    }
  }

  lemma WholeInPercent(n: nat)
    requires n > 0
    ensures n * 100 / n == 100
  {
    var q := QuotientBounds(n * 100, n);
    if q < 100 { MulMono(q + 1, 100, n); MulDist(q, 1, n); assert false; }
    if q > 100 { MulMono(101, q, n); assert false; }
  }

  /** An exact geometry's increments hold the whole file. */
  lemma IncrementsHoldAll(g: Geometry)
    requires Sound(g) && g.Exact()
    ensures g.fileSize <= g.totalIncrements * g.perIncrement * g.chunk
  {
    MulMono(g.totalChunks, g.totalIncrements * g.perIncrement, g.chunk);
  }

  /** An exact transfer's last increment brings the report to its ceiling. */
  lemma LastPercent(g: Geometry)
    requires Sound(g) && g.Exact()
    ensures Percent(g, g.totalIncrements - 1) == 99
  {
    IncrementsHoldAll(g);
    WholeInPercent(g.fileSize);
    var k := g.totalIncrements - 1;
    assert (k + 1) * g.perIncrement * g.chunk == g.totalIncrements * g.perIncrement * g.chunk;
  }

  /** What has been reported so far is at most what the current increment will report. */
  predicate Paced(b: Bridge) {
    Transferring(b) && b.increment < b.geo.totalIncrements ==> b.percent <= Percent(b.geo, b.increment)
  }

  /** Only the moves to another increment change what has been reported, and no others what it is compared with. */
  lemma StillPaced(m: Move, b: Bridge, fs: seq<Frame>, b': Bridge)
    requires Moves(m, b, fs, b') && Paced(b) && !m.Advance? && !m.Skip? && !m.Finish?
    ensures Paced(b') && (Established(b) && Established(b') ==> b'.percent == b.percent)
  {
  }

  lemma MoveKeepsPaced(m: Move, b: Bridge, fs: seq<Frame>, b': Bridge)
    requires Paced(b) && Moves(m, b, fs, b') && Regular(b)
    ensures Paced(b')
    ensures Established(b) && Established(b') ==> b.percent <= b'.percent
  {
    match m
    case Advance => AdvancePaced(b, fs, b');
    case Skip(bitmap) => SkipPaced(b, fs, b', bitmap);
    case Finish =>
    case _ => StillPaced(m, b, fs, b');
  }

  lemma AdvancePaced(b: Bridge, fs: seq<Frame>, b': Bridge)
    requires Paced(b) && Regular(b) && Advances(b, fs, b')
    ensures Paced(b') && b.percent <= b'.percent
  {
    NextCounts(b);
    PercentMono(b.geo, b.increment);
  }

  lemma SkipPaced(b: Bridge, fs: seq<Frame>, b': Bridge, bitmap: bytes)
    requires Paced(b) && Regular(b) && Skips(b, fs, b', bitmap)
    ensures Paced(b') && b.percent <= b'.percent
  {
    NextCounts(b);
    NextPaced(b, b');
  }

  lemma NextPaced(b: Bridge, b': Bridge)
    requires Transferring(b) && Paced(b) && b.increment < b.geo.totalIncrements
    requires b'.geo == b.geo && b'.increment == b.increment + 1 && b'.percent == b.percent
    ensures Paced(b')
  {
    PercentMono(b.geo, b.increment);
  }

  // Runs.

  /** Until the leaf has accepted there is no plan. */
  predicate Unplanned(r: Run) { r.bridge.phase == Announcing ==> r.plan.chunk == 0 }

  lemma MoveKeepsUnplanned(m: Move, r: Run, fs: seq<Frame>, r': Run)
    requires Unplanned(r) && r.bridge.Busy() && Moves(m, r.bridge, fs, r'.bridge)
    requires r'.plan == if Established(r'.bridge) then r'.bridge.geo else r.plan
    ensures Unplanned(r')
  {
  }

  predicate Tracked(r: Run) {
    Regular(r.bridge) && Delivered(r) && Bounded(r) && Spent(r) && Paced(r.bridge) && Unplanned(r)
  }

  lemma MoveKeepsTracked(m: Move, r: Run, fs: seq<Frame>, r': Run)
    requires Tracked(r) && r.bridge.Busy() && Moves(m, r.bridge, fs, r'.bridge) && OnCourse(r'.bridge)
    requires r' == Record(r, fs, r'.bridge)
    ensures Tracked(r')
  {
    MoveKeepsRegular(m, r.bridge, fs, r'.bridge);
    MoveKeepsDelivered(m, r, fs, r');
    MoveKeepsBounded(m, r, fs, r');
    MoveKeepsSpent(m, r, fs, r');
    MoveKeepsPlan(m, r, fs, r');
  }

  lemma FirstMove(m: Move, b: Bridge, fs: seq<Frame>, mid: Bridge)
    requires Regular(b) && b.Busy() && Moves(m, b, fs, mid) && (m.Stay? || m.Begin? || m.SendHead? || m.Finish?)
    ensures mid.Busy() && mid.geo == b.geo && Established(mid) == Established(b) && |fs| <= 1
    ensures if m.Stay? then fs == [] && mid == b else OnCourse(mid)
  {
    if m.SendHead? { HeadInIncrement(b); }
  }

  /** Recording an event at once differs from recording its two moves only in counting it once. */
  lemma RecordTwice(r: Run, f1: seq<Frame>, mid: Bridge, f2: seq<Frame>, b': Bridge)
    requires |f1| <= 1 && mid.geo == r.bridge.geo && Established(mid) == Established(r.bridge)
    requires Established(r.bridge) ==> r.plan == r.bridge.geo
    ensures var whole, parts := Record(r, f1 + f2, b'), Record(Record(r, f1, mid), f2, b');
            whole == parts.(effective := whole.effective) && whole.effective <= parts.effective
  {
    FramesSplit(f1, f2);
  }

  lemma FewerEffective(r: Run, r': Run)
    requires Tracked(r) && r' == r.(effective := r'.effective) && r'.effective <= r.effective
    ensures Tracked(r')
  {
    SameDelivered(r, r');
    assert Bounded(r');
  }

  lemma BusyStepKeepsTracked(r: Run, e: Event)
    requires Tracked(r) && r.bridge.Busy() && OnCourse(Step(r.bridge, e).bridge)
    ensures Tracked(Next(r, e))
  {
    var o := Step(r.bridge, e);
    var p := EventPath(r.bridge, e);
    FirstMove(p.m1, r.bridge, p.f1, p.mid);
    var r1 := Record(r, p.f1, p.mid);
    PathKeepsTracked(p, r, r1, o);
    RecordTwice(r, p.f1, p.mid, p.f2, o.bridge);
    FewerEffective(Record(r1, p.f2, o.bridge), Next(r, e));
  }

  lemma PathKeepsTracked(p: Path, r: Run, r1: Run, o: Outcome)
    requires Tracked(r) && r.bridge.Busy() && Takes(p, r.bridge, o) && OnCourse(o.bridge) && p.mid.Busy()
    requires r1 == Record(r, p.f1, p.mid)
    requires if p.m1.Stay? then p.mid == r.bridge && p.f1 == [] else OnCourse(p.mid)
    ensures Tracked(Record(r1, p.f2, o.bridge))
  {
    if !p.m1.Stay? {
      MoveKeepsTracked(p.m1, r, p.f1, r1);
    } else {
      RecordNothing(r);
    }
    MoveKeepsTracked(p.m2, r1, p.f2, Record(r1, p.f2, o.bridge));
  }

  lemma RecordNothing(r: Run)
    requires Established(r.bridge) ==> r.plan == r.bridge.geo
    ensures Record(r, [], r.bridge) == r
  {
  }

  lemma IdleStep(b: Bridge, e: Event)
    requires !b.Busy()
    ensures var b' := Step(b, e).bridge;
            b' == b || (Regular(b') && !Established(b'))
  {
    if e.Start? { IdleStart(b, e.fileSize, e.action, e.maxPayload, e.radio); }
  }

  lemma IdleStart(b: Bridge, fileSize: nat, action: byte, maxPayload: nat, radio: Radio)
    requires !b.Busy()
    ensures var b' := DoStart(b, fileSize, action, maxPayload, radio).bridge;
            b' == b || (Regular(b') && !Established(b'))
  {
  }

  /** A run in which nothing has been sent. */
  predicate Fresh(r: Run) {
    && r.bridge.fileSize == r.fileSize && r.plan == NONE && r.delivered == {}
    && r.dataFrames == 0 && r.blastFrames == 0 && r.effective == 0
    && Regular(r.bridge) && !Established(r.bridge)
  }

  lemma FreshIsTracked(r: Run)
    requires Fresh(r)
    ensures Tracked(r)
  {
    assert Spent(r) && Bounded(r);
  }

  lemma BeginIsFresh(b': Bridge, r': Run)
    requires Regular(b') && !Established(b') && r' == Run(b', b'.fileSize, NONE, {}, 0, 0, 0)
    ensures Tracked(r')
  {
    FreshIsTracked(r');
  }

  lemma IdleStepKeepsTracked(r: Run, e: Event)
    requires Tracked(r) && !r.bridge.Busy()
    ensures Tracked(Next(r, e))
  {
    IdleStep(r.bridge, e);
    var b' := Step(r.bridge, e).bridge;
    var r' := Next(r, e);
    if b' != r.bridge { BeginIsFresh(b', r'); }
  }

  lemma StepKeepsTracked(r: Run, e: Event)
    requires Tracked(r) && OnCourse(Step(r.bridge, e).bridge)
    ensures Tracked(Next(r, e))
  {
    if r.bridge.Busy() { BusyStepKeepsTracked(r, e); } else { IdleStepKeepsTracked(r, e); }
  }
}
