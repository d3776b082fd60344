/**
 What can be said of the bridge's events without their code: when a transfer is over and whether the
 leaf is told, in what order the source's chunks go out, and from where each question is counted.
 */
module BridgeRules {
  import opened Seqs
  import opened Bytes
  import opened Geometry
  import opened GapBitmap
  import opened Transfer
  import opened TransferInvariants
  import opened TransferRuns
  import opened Patience

  // The end of a transfer.

  /** The leaf's offer names the action asked for, and a chunk size and a buffer the bridge can work with. */
  predicate Usable(b: Bridge, t: bytes) {
    |t| >= 4 && t[3] == b.action && 0 < Le16(t[0], t[1]) <= b.requestedChunk && t[2] != 0
  }

  /** A report that holds the bitmap it announces. */
  predicate Whole(t: bytes) { |t| >= 2 && |t| >= 2 + Le16(t[0], t[1]) }

  predicate IsCurrentOffer(b: Bridge, e: Event) { e.Ack? && e.kind == ACCEPT && b.phase == Announcing && e.ref == b.announceTx }

  predicate IsCurrentReport(b: Bridge, e: Event) { e.Ack? && e.kind == GAPS && b.phase == WaitingGaps && e.ref in b.history }

  /** The leaf's own word that it is done with the transfer. */
  predicate LeafEnds(e: Event) { e.Ack? && (e.kind == REJECT || e.kind == ABORT || e.kind == COMPLETE) }

  /** The report that the last increment is complete: the end of the file is to be sent. */
  predicate LastReport(b: Bridge, e: Event) {
    IsCurrentReport(b, e) && Whole(e.trailing) && Le16(e.trailing[0], e.trailing[1]) == 0 && b.geo.IsLast(b.increment)
  }

  /** A report of missing chunks when all rounds have been used. */
  predicate RoundsUsedUp(b: Bridge, e: Event) {
    IsCurrentReport(b, e) && Whole(e.trailing) && Le16(e.trailing[0], e.trailing[1]) != 0 && b.round >= 10
  }

  /** A round's question meets a radio that does not know the leaf. */
  predicate QuestionFails(b: Bridge, e: Event) {
    && e.Blast? && b.phase == Blasting && b.requested == {}
    && if b.pending == [] then b.sent != {} && e.first == NotFound
       else |b.pending| == 1 && e.first.Sent? && e.second == NotFound
  }

  predicate AsksInVain(b: Bridge, e: Event) {
    e.Control? && Asking(b) && (AsksMade(b) >= AsksAllowed(b.phase) || Fatal(b.phase, e.radio))
  }

  /** All that ends a transfer. */
  predicate Ends(b: Bridge, e: Event) {
    || LeafEnds(e) || e.GiveUp?
    || (IsCurrentOffer(b, e) && !Usable(b, e.trailing))
    || (IsCurrentReport(b, e) && !Whole(e.trailing))
    || RoundsUsedUp(b, e) || (LastReport(b, e) && !e.radio.Sent?)
    || QuestionFails(b, e) || AsksInVain(b, e)
  }

  /** The leaf need not be told: it has ended the transfer itself, or cannot be reached, or the caller says so. */
  predicate NotTold(b: Bridge, e: Event) {
    || LeafEnds(e) || (e.GiveUp? && !e.notify)
    || (LastReport(b, e) && e.radio == NotFound)
    || QuestionFails(b, e)
    || (AsksInVain(b, e) && AsksMade(b) < AsksAllowed(b.phase) && (e.radio == NotFound || b.phase == Announcing))
  }

  /** What stays reported of a failed transfer: its percentage, counting the last increment if that has been reported complete. */
  function LastPercent(b: Bridge, e: Event): nat { if LastReport(b, e) then Percent(b.geo, b.increment) else b.percent }

  lemma AckEnds(b: Bridge, e: Event)
    requires b.Busy() && e.Ack?
    ensures var o := Step(b, e);
            && (o.bridge.phase == Idle <==> Ends(b, e))
            && (Ends(b, e) ==> o.bridge == if IsSuccess(b, e) then Cleared(SUCCESS, 100) else Cleared(FAIL, LastPercent(b, e)))
            && (Abort in o.frames <==> Ends(b, e) && !NotTold(b, e))
  {
    var t := e.trailing;
    if IsCurrentReport(b, e) {
      assert Step(b, e) == DoGaps(b, t, e.radio);
      if Whole(t) && Le16(t[0], t[1]) == 0 {
        assert Step(b, e) == IncrementDone(b, e.radio);
      } else if Whole(t) {
        assert Step(b, e) == MissingChunks(b, t[2..2 + Le16(t[0], t[1])]);
      }
    } else if IsCurrentOffer(b, e) {
      assert Step(b, e) == DoAccept(b, t);
      assert |t| >= 4 ==> (t[2] == 0 <==> t[2] as nat == 0);
    }
  }

  lemma PumpEnds(b: Bridge, first: Radio, second: Radio)
    requires b.phase == Blasting
    ensures var o, e := PumpQueue(b, first, second), Blast(first, second);
            && (o.bridge.phase == Idle <==> QuestionFails(b, e))
            && (QuestionFails(b, e) ==> o.bridge == Cleared(FAIL, b.percent)) && Abort !in o.frames
  {
    if b.pending != [] && first.Sent? {
      assert b.pending[1..] == [] <==> |b.pending| == 1;
    }
  }

  lemma BlastEnds(b: Bridge, e: Event)
    requires b.Busy() && e.Blast?
    ensures var o := Step(b, e);
            && (o.bridge.phase == Idle <==> Ends(b, e))
            && (Ends(b, e) ==> o.bridge == Cleared(FAIL, b.percent))
            && (Abort in o.frames <==> Ends(b, e) && !NotTold(b, e))
  {
    if b.phase == Blasting {
      var r := Rerequest(b);
      assert r.phase == Blasting && r.percent == b.percent && r.pending == b.pending;
      PumpEnds(r, e.first, e.second);
    }
  }

  lemma ControlEnds(b: Bridge, e: Event)
    requires b.Busy() && e.Control?
    ensures var o := Step(b, e);
            && (o.bridge.phase == Idle <==> Ends(b, e))
            && (Ends(b, e) ==> o.bridge == Cleared(FAIL, b.percent))
            && (Abort in o.frames <==> Ends(b, e) && !NotTold(b, e))
  {
  }

  /** A transfer is over exactly at these events; it has failed unless success is reported; and the leaf is told exactly when it does not know. */
  lemma OverIff(b: Bridge, e: Event)
    requires b.Busy()
    ensures var o := Step(b, e);
            && (o.bridge.phase == Idle <==> Ends(b, e))
            && (Ends(b, e) ==> o.bridge == if IsSuccess(b, e) then Cleared(SUCCESS, 100) else Cleared(FAIL, LastPercent(b, e)))
            && (Abort in o.frames <==> Ends(b, e) && !NotTold(b, e))
  {
    match e
    case Ack(_, _, _, _) => AckEnds(b, e);
    case Blast(_, _) => BlastEnds(b, e);
    case Control(_) => ControlEnds(b, e);
    case _ =>
  }

  // The order of the chunks.

  /** The chunks among some frames. */
  function ChunksIn(fs: seq<Frame>): seq<Chunk> {
    if fs == [] then [] else (if fs[0].Data? then [Chunk(fs[0].seqNo, fs[0].data)] else []) + ChunksIn(fs[1..])
  }

  /** What the bridge takes of an event: a chunk that is wanted and of the right length. */
  function TakenUp(b: Bridge, e: Event): seq<Chunk> {
    if e.Source? && b.phase == Blasting && e.seqNo in b.requested && 0 < b.geo.ExpectedLen(e.seqNo) == |e.data|
    then [Chunk(e.seqNo, e.data)] else []
  }

  lemma FewChunks(fs: seq<Frame>)
    ensures |fs| == 1 ==> ChunksIn(fs) == if fs[0].Data? then [Chunk(fs[0].seqNo, fs[0].data)] else []
    ensures |fs| == 2 && !fs[1].Data? ==> ChunksIn(fs) == if fs[0].Data? then [Chunk(fs[0].seqNo, fs[0].data)] else []
  {
    if |fs| == 2 { assert fs[1..] == [fs[1]]; }
  }

  lemma PumpInOrder(b: Bridge, first: Radio, second: Radio)
    requires b.phase == Blasting && PumpQueue(b, first, second).bridge.Busy()
    ensures var o := PumpQueue(b, first, second); b.pending == ChunksIn(o.frames) + o.bridge.pending
  {
    var o := PumpQueue(b, first, second);
    FewChunks(o.frames);
    if b.pending != [] && first.Sent? { assert b.pending == [b.pending[0]] + b.pending[1..]; }
  }

  /** What was queued and what comes in is what goes out and what is queued then. */
  lemma StepInOrder(b: Bridge, e: Event)
    requires b.Busy() && Step(b, e).bridge.Busy()
    ensures var o := Step(b, e); b.pending + TakenUp(b, e) == ChunksIn(o.frames) + o.bridge.pending
  {
    var o := Step(b, e);
    FewChunks(o.frames);
    match e
    case Blast(first, second) => if b.phase == Blasting { PumpInOrder(Rerequest(b), first, second); }
    case Ack(_, _, _, _) => AckKeepsQueue(b, e);
    case _ =>
  }

  lemma AckKeepsQueue(b: Bridge, e: Event)
    requires b.Busy() && e.Ack? && Step(b, e).bridge.Busy()
    ensures Step(b, e).bridge.pending == b.pending && ChunksIn(Step(b, e).frames) == []
  {
    FewChunks(Step(b, e).frames);
  }

  function BridgeAfter(b: Bridge, events: seq<Event>): Bridge {
    if events == [] then b else Step(BridgeAfter(b, events[..|events| - 1]), events[|events| - 1]).bridge
  }

  /** The transfer goes on through all of it. */
  predicate GoesOn(b: Bridge, events: seq<Event>) {
    b.Busy() && (events != [] ==> GoesOn(b, events[..|events| - 1]) && BridgeAfter(b, events).Busy())
  }

  function AllTaken(b: Bridge, events: seq<Event>): seq<Chunk> {
    if events == [] then []
    else AllTaken(b, events[..|events| - 1]) + TakenUp(BridgeAfter(b, events[..|events| - 1]), events[|events| - 1])
  }

  function AllSent(b: Bridge, events: seq<Event>): seq<Chunk> {
    if events == [] then []
    else AllSent(b, events[..|events| - 1]) + ChunksIn(Step(BridgeAfter(b, events[..|events| - 1]), events[|events| - 1]).frames)
  }

  /** Over any run of a transfer the chunks go out once each, unchanged and in the order in which they came. */
  lemma {:induction false} FirstInFirstOut(b: Bridge, events: seq<Event>)
    requires GoesOn(b, events)
    ensures b.pending + AllTaken(b, events) == AllSent(b, events) + BridgeAfter(b, events).pending
  {
    if events == [] {
      assert b.pending + [] == b.pending == [] + b.pending;
    } else {
      var front, e := events[..|events| - 1], events[|events| - 1];
      var b1 := BridgeAfter(b, front);
      FirstInFirstOut(b, front);
      StepInOrder(b1, e);
      QueueMoves(b.pending, AllTaken(b, front), TakenUp(b1, e), AllSent(b, front), b1.pending,
                 ChunksIn(Step(b1, e).frames), Step(b1, e).bridge.pending);
    }
  }

  lemma QueueMoves<T>(had: seq<T>, came: seq<T>, comes: seq<T>, went: seq<T>, queue: seq<T>, goes: seq<T>, left: seq<T>)
    requires had + came == went + queue && queue + comes == goes + left
    ensures had + (came + comes) == went + goes + left
  {
    Assoc(had, came, comes);
    Assoc(went, queue, comes);
    Assoc(went, goes, left);
  }

  // Where a question is counted from.

  lemma StartAsks(b: Bridge, e: Event, b': Bridge)
    requires e.Start? && b' == Step(b, e).bridge && b'.phase != b.phase
    ensures b'.phase == Announcing ==> b'.attempts == 1 || (b'.attempts == 0 && e.radio == NoMemory)
  {
  }

  lemma PumpAsks(b: Bridge, first: Radio, second: Radio, b': Bridge)
    requires b.phase == Blasting && b.retries == 0 && b' == PumpQueue(b, first, second).bridge
    ensures b'.phase == WaitingGaps ==> b'.retries == 1
    ensures b'.phase == WaitingGaps || b'.phase == Blasting || b'.phase == Idle
  {
  }

  lemma AckAsks(b: Bridge, e: Event, b': Bridge)
    requires e.Ack? && b' == Step(b, e).bridge && b'.phase != b.phase && Asking(b')
    ensures b'.phase == Ending && b'.attempts == 1
  {
  }

  lemma ControlAsks(b: Bridge, e: Event, b': Bridge)
    requires e.Control? && b' == Step(b, e).bridge && b'.phase != b.phase
    ensures b'.phase == Idle
  {
  }

  /** A question put for the first time has gone out once, or, if it is the announcement, not yet. */
  lemma FirstAsk(b: Bridge, e: Event, b': Bridge)
    requires b' == Step(b, e).bridge && Asking(b') && b'.phase != b.phase && (b.phase == Blasting ==> b.retries == 0)
    ensures AsksMade(b') == 1 || (b'.phase == Announcing && AsksMade(b') == 0 && e.Start? && e.radio == NoMemory)
  {
    match e
    case Start(_, _, _, _) => StartAsks(b, e, b');
    case Blast(first, second) =>
      if b.phase == Blasting {
        assert Rerequest(b).retries == 0 && Rerequest(b).phase == Blasting;
        PumpAsks(Rerequest(b), first, second, b');
      }
    case Ack(_, _, _, _) => AckAsks(b, e, b');
    case Control(_) => ControlAsks(b, e, b');
    case _ =>
  }

  lemma MissingForgets(b: Bridge, bitmap: bytes, b': Bridge)
    requires b' == MissingChunks(b, bitmap).bridge && b'.phase == Blasting
    ensures b'.history == if Gaps(bitmap, b.geo.Start(b.increment), b.geo.Size(b.increment)) == {} then b.history else []
  {
  }

  lemma DoneForgets(b: Bridge, radio: Radio, b': Bridge)
    requires b' == IncrementDone(b, radio).bridge && b'.phase == Blasting
    ensures b'.history == []
  {
  }

  /** Only a current and whole report leads from waiting to the next chunks. */
  lemma ReportLeadsOn(b: Bridge, e: Event, b': Bridge)
    requires b.phase == WaitingGaps && b' == Step(b, e).bridge && b'.phase == Blasting
    ensures IsCurrentReport(b, e) && Whole(e.trailing)
  {
    if e.Control? { ControlAsks(b, e, b'); }
  }

  /** The bitmap of a whole report. */
  function BitmapOf(t: bytes): bytes
    requires Whole(t)
  {
    t[2..2 + Le16(t[0], t[1])]
  }

  lemma ReportIs(b: Bridge, e: Event)
    requires IsCurrentReport(b, e) && Whole(e.trailing)
    ensures Step(b, e) == if BitmapOf(e.trailing) == [] then IncrementDone(b, e.radio) else MissingChunks(b, BitmapOf(e.trailing))
  {
    assert Step(b, e) == DoGaps(b, e.trailing, e.radio);
  }

  /**
   A new round or increment can be answered only for its own questions: the old ones are forgotten,
   except when a bitmap without gaps has led on.
   */
  lemma OldAnswersForgotten(b: Bridge, e: Event, b': Bridge)
    requires b.phase == WaitingGaps && b' == Step(b, e).bridge && b'.phase == Blasting
    ensures IsCurrentReport(b, e) && Whole(e.trailing)
    ensures var bitmap := BitmapOf(e.trailing);
            b'.history == if bitmap != [] && Gaps(bitmap, b.geo.Start(b.increment), b.geo.Size(b.increment)) == {} then b.history else []
  {
    ReportLeadsOn(b, e, b');
    ReportIs(b, e);
    var bitmap := BitmapOf(e.trailing);
    if bitmap == [] { DoneForgets(b, e.radio, b'); } else { MissingForgets(b, bitmap, b'); }
  }

  // The percentage.

  /** How many bytes of the file the first `k` increments hold. */
  function BytesUpto(g: Geometry, k: nat): nat { Min(g.fileSize, Min(g.Start(k), g.totalChunks) * g.chunk) }

  /** After increment `k` the report is the share of the file that is in increments up to it, rounded down, but never above 99. */
  lemma PercentIs(g: Geometry, k: nat, p: nat)
    requires Sound(g) && p == Percent(g, k)
    ensures p <= 99 && p * g.fileSize <= 100 * BytesUpto(g, k + 1)
    ensures p < 99 ==> 100 * BytesUpto(g, k + 1) < (p + 1) * g.fileSize
  {
    var done := (k + 1) * g.perIncrement * g.chunk;
    var part := Min(g.fileSize, done);
    assert part == BytesUpto(g, k + 1) by {
      if g.Start(k + 1) <= g.totalChunks {
        assert g.Start(k + 1) * g.chunk == done;
      } else {
        MulMono(g.totalChunks, g.Start(k + 1), g.chunk);
      }
    }
    var q := QuotientBounds(part * 100, g.fileSize);
    if p < q { MulMono(p, q, g.fileSize); }
    MulDist(q, 1, g.fileSize);
    assert p < 99 ==> p == q by { WholeShare(part, g.fileSize, q); }
  }

  lemma WholeShare(part: nat, n: nat, q: nat)
    requires n > 0 && part <= n && q * n <= part * 100
    ensures q <= 100
  {
    if q > 100 { MulMono(101, q, n); }
  }
}
