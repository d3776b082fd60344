/**
 The results about whole runs of the bridge, from power-on, over any number of transfers and any
 sequence of events.
 */
module TransferTheorems {
  import opened Seqs
  import opened Bytes
  import opened Geometry
  import opened GapBitmap
  import opened Transfer
  import opened TransferMoves
  import opened TransferInvariants
  import opened TransferRuns

  /** What is known of a run: everything, unless its increment count was truncated. */
  predicate Good(r: Run) {
    if Established(r.bridge) && !r.bridge.geo.Exact() then Sound(r.bridge.geo) && r.plan == r.bridge.geo
    else Tracked(r)
  }

  lemma EstablishedMove(m: Move, b: Bridge, fs: seq<Frame>, b': Bridge)
    requires Moves(m, b, fs, b') && Established(b)
    ensures if b'.Busy() then Established(b') && b'.geo == b.geo else b' == Cleared(b'.status, b'.percent)
  {
  }

  lemma EstablishedStep(b: Bridge, e: Event)
    requires Established(b)
    ensures var b' := Step(b, e).bridge;
            if b'.Busy() then Established(b') && b'.geo == b.geo else b' == Cleared(b'.status, b'.percent)
  {
    var p := EventPath(b, e);
    EstablishedMove(p.m1, b, p.f1, p.mid);
    if p.mid.Busy() { EstablishedMove(p.m2, p.mid, p.f2, Step(b, e).bridge); }
  }

  lemma UnestablishedMove(m: Move, b: Bridge, fs: seq<Frame>, b': Bridge)
    requires Moves(m, b, fs, b') && !Established(b)
    ensures Established(b') ==> m.Accept? && b.phase == Announcing
    ensures m.SendHead? || m.Finish? ==> false
  {
  }

  /** A bridge that has just taken up an answer is at its first increment. */
  lemma AcceptStarts(b: Bridge, fs: seq<Frame>, b': Bridge, chunk: nat, kb: nat)
    requires IsAccepted(b, fs, b', chunk, kb) && 0 < b.fileSize <= MAX_FILE_SIZE
    ensures Sound(b'.geo) && OnCourse(b')
  {
    NegotiatedFacts(b.fileSize, chunk, kb);
  }

  lemma NewlyEstablished(b: Bridge, e: Event)
    requires Regular(b) && !Established(b) && Established(Step(b, e).bridge)
    ensures Sound(Step(b, e).bridge.geo) && OnCourse(Step(b, e).bridge)
  {
    var b' := Step(b, e).bridge;
    var p := EventPath(b, e);
    UnestablishedMove(p.m1, b, p.f1, p.mid);
    UnestablishedMove(p.m2, p.mid, p.f2, b');
    AcceptStarts(p.mid, p.f2, b', p.m2.chunk, p.m2.kb);
  }

  /** A transfer with a truncated count stays sound until it ends. */
  lemma TruncatedStepKeepsGood(r: Run, e: Event)
    requires Established(r.bridge) && !r.bridge.geo.Exact() && Sound(r.bridge.geo) && r.plan == r.bridge.geo
    ensures Good(Next(r, e))
  {
    EstablishedStep(r.bridge, e);
    var r' := Next(r, e);
    if !r'.bridge.Busy() { TruncatedRunIsTracked(r'); }
  }

  lemma TruncatedRunIsTracked(r: Run)
    requires r.bridge == Cleared(r.bridge.status, r.bridge.percent) && r.plan != NONE && !r.plan.Exact()
    ensures Tracked(r)
  {
  }

  lemma NextBridge(r: Run, e: Event)
    ensures Next(r, e).bridge == Step(r.bridge, e).bridge
  {
  }

  lemma TrackedIsGood(r: Run)
    requires Tracked(r) && (Established(r.bridge) ==> r.bridge.geo.Exact())
    ensures Good(r)
  {
  }

  lemma ExactStaysExact(b: Bridge, e: Event)
    requires Established(b) && b.geo.Exact()
    ensures OnCourse(Step(b, e).bridge) && (Established(Step(b, e).bridge) ==> Step(b, e).bridge.geo.Exact())
  {
    EstablishedStep(b, e);
  }

  lemma ExactStepKeepsGood(r: Run, e: Event)
    requires Tracked(r) && Established(r.bridge) && r.bridge.geo.Exact()
    ensures Good(Next(r, e))
  {
    ExactStaysExact(r.bridge, e);
    StepKeepsTracked(r, e);
    NextBridge(r, e);
    TrackedIsGood(Next(r, e));
  }

  lemma StepKeepsGood(r: Run, e: Event)
    requires Good(r)
    ensures Good(Next(r, e))
  {
    if Established(r.bridge) {
      if r.bridge.geo.Exact() { ExactStepKeepsGood(r, e); } else { TruncatedStepKeepsGood(r, e); }
    } else {
      EarlyStepKeepsGood(r, e);
    }
  }

  lemma EarlyStepKeepsGood(r: Run, e: Event)
    requires Tracked(r) && !Established(r.bridge)
    ensures Good(Next(r, e))
  {
    if Established(Step(r.bridge, e).bridge) { NewlyEstablished(r.bridge, e); }
    StepKeepsTracked(r, e);
    NextBridge(r, e);
  }

  /** The bridge as it starts up. */
  predicate PowerOn(r: Run) {
    r.bridge == Cleared(STATUS_IDLE, 0) && Fresh(r)
  }

  lemma {:induction false} RunsAreGood(r0: Run, events: seq<Event>)
    requires PowerOn(r0)
    ensures Good(After(r0, events))
  {
    if events == [] {
      FreshIsTracked(r0);
    } else {
      var r, e := After(r0, events[..|events| - 1]), events[|events| - 1];
      RunsAreGood(r0, events[..|events| - 1]);
      StepKeepsGood(r, e);
      assert After(r0, events) == Next(r, e);
    }
  }

  // Safety.

  /**
   Whatever acknowledgements arrive, a transfer reaches its end only after every chunk of the file
   has been taken by the radio.
   */
  lemma EndingMeansAllDelivered(r0: Run, events: seq<Event>)
    requires PowerOn(r0)
    ensures var r := After(r0, events);
            r.bridge.phase == Ending && r.bridge.geo.Exact() ==> r.delivered == Interval(0, r.bridge.geo.totalChunks)
  {
    RunsAreGood(r0, events);
    var g := After(r0, events).bridge.geo;
    if After(r0, events).bridge.phase == Ending && g.Exact() { IncrementShape(g, g.totalIncrements - 1); }
  }

  /** In every reachable state the round's chunks are split exactly between requested, queued and sent. */
  lemma AlwaysConserved(r0: Run, events: seq<Event>)
    requires PowerOn(r0)
    ensures var b := After(r0, events).bridge;
            && (b.phase == Blasting && b.geo.Exact() ==> Conserved(b) && Rerequest(b) == b)
            && (b.phase == WaitingGaps && b.geo.Exact() ==> b.requested == {} && b.pending == [] && b.sent == Target(b) != {})
  {
    RunsAreGood(r0, events);
    var b := After(r0, events).bridge;
    if b.geo.Exact() {
      if b.phase == Blasting && Rerequest(b) != b { AskChangesNothing(b, [], Rerequest(b)); }
      if b.phase == WaitingGaps { IncrementShape(b.geo, b.increment); RangeBounds(b.geo, b.increment); }
    }
  }

  predicate WithinBudget(r: Run) {
    && r.dataFrames <= 11 * r.plan.totalChunks
    && r.blastFrames <= 220 * r.plan.totalIncrements
    && r.effective <= 264 * r.fileSize + 8
  }

  lemma GoodIsWithinBudget(r: Run)
    requires Good(r) && (r.plan == NONE || r.plan.Exact())
    ensures WithinBudget(r)
  {
    if Established(r.bridge) { assert r.plan == r.bridge.geo; }
    assert Bounded(r) && Spent(r);
  }

  /** No transfer sends more frames than its budget or takes more than so many effective events. */
  lemma WorkIsBounded(r0: Run, events: seq<Event>)
    requires PowerOn(r0)
    ensures var r := After(r0, events); r.plan == NONE || r.plan.Exact() ==> WithinBudget(r)
  {
    RunsAreGood(r0, events);
    var r := After(r0, events);
    if r.plan == NONE || r.plan.Exact() { GoodIsWithinBudget(r); }
  }

  /** The bridge is at increment `k` of a transfer with geometry `g`. */
  predicate At(b: Bridge, g: Geometry, k: nat) { Transferring(b) && b.geo == g && b.increment == k }

  /** The bridge stays there all along. */
  ghost predicate StaysAt(r: Run, events: seq<Event>, g: Geometry, k: nat) {
    forall n :: 0 <= n <= |events| ==> At(After(r, events[..n]).bridge, g, k)
  }

  lemma StaysInIncrement(m: Move, b: Bridge, fs: seq<Frame>, b': Bridge, g: Geometry, k: nat)
    requires Moves(m, b, fs, b') && At(b, g, k) && At(b', g, k)
    ensures WithinIncrement(m)
  {
  }

  lemma MiddleIsAt(m: Move, b: Bridge, fs: seq<Frame>, mid: Bridge, m2: Move, f2: seq<Frame>, b': Bridge, g: Geometry, k: nat)
    requires Moves(m, b, fs, mid) && Moves(m2, mid, f2, b') && At(b, g, k) && At(b', g, k)
    requires m.Stay? || m.Begin? || m.SendHead? || m.Finish?
    ensures At(mid, g, k)
  {
  }

  /** An event that leaves the bridge in its increment keeps to the increment's allowance. */
  lemma StepKeepsInRounds(r: Run, e: Event, g: Geometry, k: nat, data0: nat, blast0: nat)
    requires Regular(r.bridge) && InRounds(r.bridge, r.dataFrames, r.blastFrames, data0, blast0)
    requires At(r.bridge, g, k) && At(Step(r.bridge, e).bridge, g, k)
    ensures var r' := Next(r, e); InRounds(r'.bridge, r'.dataFrames, r'.blastFrames, data0, blast0)
  {
    var b, o := r.bridge, Step(r.bridge, e);
    var p := EventPath(b, e);
    MiddleIsAt(p.m1, b, p.f1, p.mid, p.m2, p.f2, o.bridge, g, k);
    StaysInIncrement(p.m1, b, p.f1, p.mid, g, k);
    StaysInIncrement(p.m2, p.mid, p.f2, o.bridge, g, k);
    FramesOfMove(p.m1, b, p.f1, p.mid);
    FramesOfMove(p.m2, p.mid, p.f2, o.bridge);
    FramesSplit(p.f1, p.f2);
    MoveKeepsRegular(p.m1, b, p.f1, p.mid);
    MoveKeepsInRounds(p.m1, b, p.f1, p.mid, r.dataFrames, r.blastFrames, data0, blast0);
    MoveKeepsInRounds(p.m2, p.mid, p.f2, o.bridge, r.dataFrames + CountData(p.f1), r.blastFrames + CountBlast(p.f1), data0, blast0);
  }

  lemma {:induction false} RunKeepsInRounds(r: Run, events: seq<Event>, g: Geometry, k: nat, data0: nat, blast0: nat)
    requires Good(r) && g.Exact() && StaysAt(r, events, g, k) && InRounds(r.bridge, r.dataFrames, r.blastFrames, data0, blast0)
    ensures var r' := After(r, events); Good(r') && InRounds(r'.bridge, r'.dataFrames, r'.blastFrames, data0, blast0)
  {
    if events != [] {
      var n := |events| - 1;
      var front := events[..n];
      assert forall i :: 0 <= i <= n ==> front[..i] == events[..i];
      RunKeepsInRounds(r, front, g, k, data0, blast0);
      assert events[..n + 1] == events;
      assert At(After(r, events[..n]).bridge, g, k) && At(After(r, events[..n + 1]).bridge, g, k);
      StepKeepsGood(After(r, front), events[n]);
      NextBridge(After(r, front), events[n]);
      StepKeepsInRounds(After(r, front), events[n], g, k, data0, blast0);
    }
  }

  lemma {:induction false} QueuedSize(pending: seq<Chunk>)
    requires Distinct(pending)
    ensures |Queued(pending)| == |pending|
  {
    if pending != [] { QueuedSize(pending[1..]); }
  }

  lemma TargetSize(b: Bridge)
    requires Sound(b.geo) && InRound(b) && b.increment < b.geo.totalIncrements
    ensures |Target(b)| <= RoundSize(b)
  {
    RangeBounds(b.geo, b.increment);
    SubsetSize(Target(b), b.geo.Range(b.increment));
  }

  /** What a round still has to send is no more than its increment. */
  lemma RoundFits(b: Bridge)
    requires Regular(b) && Transferring(b) && b.increment < b.geo.totalIncrements
    ensures |b.requested| + |b.pending| <= RoundSize(b)
  {
    if b.phase == Blasting {
      QueuedSize(b.pending);
      TargetSize(b);
      SubsetSize(b.requested + Queued(b.pending), Target(b));
    }
  }

  /**
   From whenever on it is watched, one increment costs at most eleven data frames for each of its chunks
   and at most 220 BLAST_COMPLETEs, for as long as the bridge stays in it.
   */
  lemma IncrementIsBounded(r0: Run, events: seq<Event>, more: seq<Event>, g: Geometry, k: nat)
    requires PowerOn(r0) && g.Exact() && StaysAt(After(r0, events), more, g, k) && k < g.totalIncrements
    ensures var r := After(r0, events);
            var r' := After(r, more);
            r'.dataFrames - r.dataFrames <= 11 * g.Size(k) && r'.blastFrames - r.blastFrames <= 220
  {
    var r := After(r0, events);
    RunsAreGood(r0, events);
    assert more[..0] == [] && After(r, more[..0]) == r;
    assert At(r.bridge, g, k);
    RoundFits(r.bridge);
    SoFarAtMost(r.bridge.round, RoundSize(r.bridge));
    RunKeepsInRounds(r, more, g, k, r.dataFrames, r.blastFrames);
    var r' := After(r, more);
    assert more[..|more|] == more && At(After(r, more[..|more|]).bridge, g, k);
    EndIsQuiet(r'.bridge);
    SoFarAtMost(r'.bridge.round, RoundSize(r'.bridge));
  }

  // Progress.

  lemma MovePercent(m: Move, b: Bridge, fs: seq<Frame>, b': Bridge)
    requires Moves(m, b, fs, b') && Regular(b) && Paced(b) && Established(b) && Established(b')
    ensures b.percent <= b'.percent
  {
    MoveKeepsPaced(m, b, fs, b');
  }

  lemma PercentStep(b: Bridge, e: Event)
    requires Regular(b) && Paced(b) && b.geo.Exact() && Established(b) && Established(Step(b, e).bridge)
    ensures b.percent <= Step(b, e).bridge.percent
  {
    var p := EventPath(b, e);
    PathPercent(p, b, Step(b, e));
  }

  lemma ReportAtMost99(b: Bridge)
    requires Regular(b) && Established(b) && b.geo.Exact()
    ensures b.percent <= 99 && (b.phase == Ending ==> b.percent == 99)
  {
    LastPercent(b.geo);
  }

  lemma PercentNeverFalls(r0: Run, events: seq<Event>, e: Event)
    requires PowerOn(r0)
    ensures var b := After(r0, events).bridge;
            var b' := Step(b, e).bridge;
            Established(b) && Established(b') && b.geo.Exact() ==>
              b.percent <= b'.percent <= 99 && (b'.phase == Ending ==> b'.percent == 99)
  {
    RunsAreGood(r0, events);
    var r := After(r0, events);
    var b, b' := r.bridge, Step(r.bridge, e).bridge;
    if Established(b) && Established(b') && b.geo.Exact() {
      EstablishedStep(b, e);
      StepKeepsTracked(r, e);
      PercentStep(b, e);
      ReportAtMost99(b');
    }
  }

  lemma PathPercent(p: Path, b: Bridge, o: Outcome)
    requires Takes(p, b, o) && Regular(b) && Paced(b) && b.geo.Exact() && Established(b) && Established(o.bridge)
    ensures b.percent <= o.bridge.percent
  {
    FirstMove(p.m1, b, p.f1, p.mid);
    if !p.m1.Stay? {
      MoveKeepsRegular(p.m1, b, p.f1, p.mid);
      MovePercent(p.m1, b, p.f1, p.mid);
      MoveKeepsPaced(p.m1, b, p.f1, p.mid);
    }
    MovePercent(p.m2, p.mid, p.f2, o.bridge);
  }

  /** Only a COMPLETE that reports success turns the report to 100. */
  lemma HundredMeansSuccess(b: Bridge, e: Event)
    requires b.percent < 100
    ensures Step(b, e).bridge.percent == 100 <==> b.Busy() && IsSuccess(b, e)
    ensures Step(b, e).bridge.percent == 100 ==> Step(b, e).bridge == Cleared(SUCCESS, 100)
  {
    PercentAtMost99(b.geo, b.increment);
    if b.Busy() && IsSuccess(b, e) {
      assert Step(b, e) == Quiet(Cleared(SUCCESS, 100));
    } else {
      var p := EventPath(b, e);
      LowPercent(p.m1, b, p.f1, p.mid, e);
      LowPercent(p.m2, p.mid, p.f2, Step(b, e).bridge, e);
    }
  }

  lemma LowPercent(m: Move, b: Bridge, fs: seq<Frame>, b': Bridge, e: Event)
    requires b.percent < 100 && Moves(m, b, fs, b') && Caused(m, b, e, b') && !(b.Busy() && IsSuccess(b, e))
    ensures b'.percent < 100 && !(b'.Busy() && IsSuccess(b', e))
  {
    PercentAtMost99(b.geo, b.increment);
  }

  /** The transfer's geometry is known, and all its chunks have been taken by the radio. */
  predicate AllSent(r: Run) { r.plan.chunk > 0 && r.delivered == Interval(0, r.plan.totalChunks) }

  /** The bridge is past its last first-round chunk: in the end phase, or in the last increment with nothing of it left to send for the first time. */
  predicate NothingUnsent(b: Bridge) {
    || b.phase == Ending
    || (b.phase == WaitingGaps && b.geo.IsLast(b.increment))
    || (b.phase == Blasting && b.geo.IsLast(b.increment) && (b.round > 0 || (b.requested == {} && b.pending == [])))
  }

  lemma AllOfIncrement(d: set<nat>, g: Geometry, k: nat)
    requires Sound(g) && g.Exact() && k < g.totalIncrements
    requires Covers(d, Before(g, k)) && Within(d, Before(g, k + 1))
    ensures d == Interval(0, g.totalChunks) <==> g.IsLast(k) && g.Range(k) <= d
  {
    RangeBounds(g, k);
    BeforeNext(g, k);
    IncrementShape(g, k);
    if !g.IsLast(k) {
      IncrementShape(g, k + 1);
      assert g.End(k) !in d && g.End(k) in Interval(0, g.totalChunks);
    }
  }

  /** In the first round of an increment everything of it is out exactly when nothing is requested or queued. */
  lemma FirstRoundOut(b: Bridge, d: set<nat>)
    requires Regular(b) && b.phase == Blasting && b.round == 0 && b.increment < b.geo.totalIncrements
    requires b.sent <= d && SentOrBefore(d, b.sent, Before(b.geo, b.increment))
    ensures b.geo.Range(b.increment) <= d <==> b.requested == {} && b.pending == []
  {
    RangeBounds(b.geo, b.increment);
    if b.requested != {} {
      var s :| s in b.requested;
      assert s in Target(b) && s !in b.sent;
    } else if b.pending != [] {
      var s := b.pending[0].seqNo;
      assert s in Queued(b.pending) && s in Target(b) && s !in b.sent;
    }
  }

  lemma PastTheLast(r: Run)
    requires Regular(r.bridge) && Delivered(r) && Transferring(r.bridge) && r.bridge.geo.Exact()
    requires r.bridge.increment >= r.bridge.geo.totalIncrements
    ensures r.delivered == Interval(0, r.bridge.geo.totalChunks) && r.bridge.phase == Blasting && NothingUnsent(r.bridge)
  {
    var g := r.bridge.geo;
    IncrementShape(g, g.totalIncrements - 1);
    assert Target(r.bridge) == {};
  }

  lemma TransferringSent(r: Run)
    requires Regular(r.bridge) && Delivered(r) && Transferring(r.bridge) && r.bridge.geo.Exact()
    ensures r.delivered == Interval(0, r.bridge.geo.totalChunks) <==> NothingUnsent(r.bridge)
  {
    var b := r.bridge;
    if b.increment >= b.geo.totalIncrements {
      PastTheLast(r);
    } else {
      AllOfIncrement(r.delivered, b.geo, b.increment);
      if b.phase == WaitingGaps {
        assert b.geo.Range(b.increment) <= r.delivered;
      } else if b.round == 0 {
        FirstRoundOut(b, r.delivered);
      }
    }
  }

  lemma SentIff(r: Run)
    requires Tracked(r) && r.bridge.Busy() && (Established(r.bridge) ==> r.bridge.geo.Exact())
    ensures AllSent(r) <==> NothingUnsent(r.bridge)
  {
    var b := r.bridge;
    if Transferring(b) {
      TransferringSent(r);
      assert r.plan == b.geo;
    } else if b.phase == Ending {
      IncrementShape(b.geo, b.geo.totalIncrements - 1);
      assert r.plan == b.geo;
    }
  }

  lemma SuccessRecorded(r: Run, e: Event)
    requires r.bridge.Busy() && IsSuccess(r.bridge, e)
    ensures var r' := Next(r, e); r'.bridge.status == SUCCESS && r'.delivered == r.delivered && r'.plan == r.plan
  {
  }

  /**
   A COMPLETE that reports success is believed in every phase. It finds every chunk sent if and only
   if the bridge has nothing left to send for the first time.
   */
  lemma SuccessMeansAllSentIff(r0: Run, events: seq<Event>, e: Event)
    requires PowerOn(r0) && After(r0, events).bridge.Busy() && IsSuccess(After(r0, events).bridge, e)
    ensures var r := After(r0, events);
            && Next(r, e).bridge.status == SUCCESS
            && ((Established(r.bridge) ==> r.bridge.geo.Exact()) ==> (AllSent(Next(r, e)) <==> NothingUnsent(r.bridge)))
  {
    var r := After(r0, events);
    RunsAreGood(r0, events);
    SuccessRecorded(r, e);
    if Established(r.bridge) ==> r.bridge.geo.Exact() { SentIff(r); }
  }

  /** One left over from before ends a new transfer, of any file, with nothing sent. */
  lemma SuccessTooEarly(r0: Run, fileSize: nat, action: byte, ref: nat)
    requires PowerOn(r0) && 0 < fileSize <= MAX_FILE_SIZE
    ensures var r := Next(Next(r0, Start(fileSize, action, 0xFFFF, Sent(0))), Ack(COMPLETE, ref, [action, COMPLETE_SUCCESS], Failed));
            r.bridge == Cleared(SUCCESS, 100) && r.fileSize == fileSize && r.delivered == {} && r.dataFrames == 0
  {
    var b := Step(r0.bridge, Start(fileSize, action, 0xFFFF, Sent(0))).bridge;
    assert b.phase == Announcing && b.action == action;
  }

  // The stranded state.

  /** Past the last increment, with nothing to ask for, to queue or to send. */
  predicate Stranded(b: Bridge) {
    && b.phase == Blasting && Sound(b.geo) && b.geo.Exact() && b.increment == b.geo.totalIncrements
    && b.round == 0 && b.requested == {} && b.sent == {} && b.pending == []
  }

  /** The leaf answers with an empty bitmap. */
  predicate SaysEmpty(b: Bridge, e: Event) { Answers(b, e) && Le16(e.trailing[0], e.trailing[1]) == 0 }

  /** The leaf answers with a bitmap that is not empty and yet shows no gap of the increment. */
  predicate ShowsNoGap(b: Bridge, e: Event) {
    Answers(b, e) && BitmapIn(e.trailing) != [] && NoGap(b, BitmapIn(e.trailing))
  }

  /** The bitmap a gaps answer carries, if it is as long as it says. */
  function BitmapIn(trailing: bytes): bytes
    requires |trailing| >= 2
  {
    var len := Le16(trailing[0], trailing[1]);
    if 2 + len <= |trailing| then trailing[2..2 + len] else []
  }

  predicate NoGap(b: Bridge, bitmap: bytes) { Gaps(bitmap, b.geo.Start(b.increment), b.geo.Size(b.increment)) == {} }

  lemma EmptyEnds(b: Bridge, e: Event)
    requires b.phase == WaitingGaps && b.geo.IsLast(b.increment) && SaysEmpty(b, e)
    ensures if e.radio.Sent? then Step(b, e).bridge.phase == Ending else Step(b, e).bridge.phase == Idle
  {
    assert Step(b, e) == IncrementDone(b, e.radio);
  }

  lemma FullBitmapStrands(b: Bridge, bitmap: bytes)
    requires Regular(b) && b.phase == WaitingGaps && b.geo.Exact() && b.geo.IsLast(b.increment) && b.round < MAX_RETRANSMIT_ROUNDS
    requires NoGap(b, bitmap)
    ensures Stranded(MissingChunks(b, bitmap).bridge)
  {
    NextCounts(b);
    PastTheEnd(b.geo);
  }

  lemma BitmapStrandsIff(b: Bridge, bitmap: bytes)
    requires Regular(b) && b.phase == WaitingGaps && b.geo.Exact() && b.geo.IsLast(b.increment)
    ensures var b' := MissingChunks(b, bitmap).bridge;
            && b'.phase != Ending
            && (Stranded(b') <==> b.round < MAX_RETRANSMIT_ROUNDS && NoGap(b, bitmap))
  {
    if b.round < MAX_RETRANSMIT_ROUNDS {
      if NoGap(b, bitmap) {
        FullBitmapStrands(b, bitmap);
      } else {
        GapsRetransmit(b, bitmap);
      }
    }
  }

  lemma GapsRetransmit(b: Bridge, bitmap: bytes)
    requires b.round < MAX_RETRANSMIT_ROUNDS && !NoGap(b, bitmap)
    ensures MissingChunks(b, bitmap).bridge.phase == Blasting && MissingChunks(b, bitmap).bridge.round > 0
  {
  }

  lemma OthersDoNotEnd(b: Bridge, e: Event)
    requires b.phase == WaitingGaps && !Answers(b, e)
    ensures Step(b, e).bridge.phase in {WaitingGaps, Idle}
  {
  }

  lemma AnswerIs(b: Bridge, e: Event)
    requires Answers(b, e) && !SaysEmpty(b, e)
    ensures Step(b, e) == if BitmapIn(e.trailing) == [] then Fail(b, true) else MissingChunks(b, BitmapIn(e.trailing))
  {
    assert Step(b, e) == DoGaps(b, e.trailing, e.radio);
  }

  lemma EmptyAnswer(b: Bridge, e: Event, b': Bridge)
    requires b.phase == WaitingGaps && b.geo.IsLast(b.increment) && SaysEmpty(b, e) && b' == Step(b, e).bridge
    ensures (b'.phase == Ending <==> e.radio.Sent?) && !Stranded(b') && !ShowsNoGap(b, e)
  {
    EmptyEnds(b, e);
  }

  /**
   Waiting for the answer to the last increment: of all events only an answer with an empty bitmap takes
   the bridge to the end phase, if the radio then takes the END, and exactly an answer with a bitmap that
   is not empty but shows no gap strands it past the last increment.
   */
  lemma LastAnswerIff(b: Bridge, e: Event)
    requires Regular(b) && b.phase == WaitingGaps && b.geo.Exact() && b.geo.IsLast(b.increment)
    ensures Step(b, e).bridge.phase == Ending <==> SaysEmpty(b, e) && e.radio.Sent?
    ensures Stranded(Step(b, e).bridge) <==> ShowsNoGap(b, e) && b.round < MAX_RETRANSMIT_ROUNDS
  {
    if !Answers(b, e) {
      OthersDoNotEnd(b, e);
    } else if SaysEmpty(b, e) {
      EmptyAnswer(b, e, Step(b, e).bridge);
    } else {
      AnswerIs(b, e);
      if BitmapIn(e.trailing) != [] { BitmapStrandsIff(b, BitmapIn(e.trailing)); }
    }
  }

  lemma StrandedMove(m: Move, b: Bridge, fs: seq<Frame>, b': Bridge)
    requires Stranded(b) && Moves(m, b, fs, b')
    ensures b' == b || !b'.Busy()
    ensures !m.SendHead? && !m.Finish? && !m.Begin?
  {
    PastTheEnd(b.geo);
  }

  /** A stranded bridge does nothing more until something stops it. */
  lemma StrandedUntilStopped(b: Bridge, e: Event)
    requires Stranded(b)
    ensures Step(b, e).bridge == b || !Step(b, e).bridge.Busy()
  {
    var p := EventPath(b, e);
    StrandedMove(p.m1, b, p.f1, p.mid);
    StrandedMove(p.m2, p.mid, p.f2, Step(b, e).bridge);
  }
}
