/**
 With a source that answers, a radio that takes every frame and a leaf that reports each increment
 complete, every accepted transfer reaches its end. From such runs follows for which geometries the
 promise that everything was sent before the end is kept.
 */
module CooperativeRuns {
  import opened Seqs
  import opened Bytes
  import opened Geometry
  import opened GapBitmap
  import opened Transfer
  import opened TransferMoves
  import opened TransferInvariants
  import opened TransferRuns
  import opened TransferTheorems

  lemma {:induction false} AfterAppend(r: Run, a: seq<Event>, b: seq<Event>)
    ensures After(After(r, a), b) == After(r, a + b)
  {
    if b == [] {
      assert a + b == a;
    } else {
      AppendLast(a, b);
      AfterAppend(r, a, b[..|b| - 1]);
    }
  }

  lemma AfterOne(r: Run, e: Event, rest: seq<Event>)
    ensures After(r, [e] + rest) == After(Next(r, e), rest)
  {
    assert [e][..0] == [];
    assert After(r, [e]) == Next(After(r, []), e);
    AfterAppend(r, [e], rest);
  }

  lemma AfterTwo(r: Run, e: Event, f: Event)
    ensures After(r, [e] + [f]) == Next(Next(r, e), f)
  {
    AfterOne(Next(r, e), f, []);
    AfterOne(r, e, [f]);
    assert [f] + [] == [f];
  }

  /** Still in the plain first round of a planned increment. */
  predicate OnTrack(r: Run, g: Geometry) {
    Tracked(r) && Transferring(r.bridge) && r.bridge.geo == g && r.bridge.round == 0
    && r.bridge.increment < g.totalIncrements
  }

  function Outstanding(b: Bridge): nat { 2 * |b.requested| + |b.pending| }

  /** One event closer to the end of the round, in the same increment. */
  predicate Closer(b: Bridge, b': Bridge) {
    && b'.geo == b.geo && b'.increment == b.increment && b'.round == 0
    && (b'.phase == WaitingGaps || (b'.phase == Blasting && Outstanding(b') < Outstanding(b)))
  }

  lemma HeadGoes(b: Bridge)
    requires b.phase == Blasting && b.round == 0 && b.pending != []
    ensures Closer(b, Step(b, Blast(Sent(0), Sent(0))).bridge)
  {
    var h := HeadSent(b);
    assert PumpQueue(b, Sent(0), Sent(0)).bridge ==
      if h.pending == [] && h.requested == {} then SendBlastComplete(h, Sent(0)).bridge else h;
  }

  lemma RoundCloses(b: Bridge)
    requires b.phase == Blasting && b.round == 0 && b.pending == [] && b.requested == {} && b.sent != {}
    ensures Closer(b, Step(b, Blast(Sent(0), Sent(0))).bridge)
  {
    assert PumpQueue(b, Sent(0), Sent(0)) == SendBlastComplete(b, Sent(0));
  }

  lemma SourceGoes(b: Bridge, s: nat, data: bytes)
    requires b.phase == Blasting && b.round == 0 && s in b.requested
    requires b.geo.ExpectedLen(s) != 0 && |data| == b.geo.ExpectedLen(s)
    ensures Closer(b, Step(b, Source(s, data)).bridge)
  {
    assert |b.requested - {s}| == |b.requested| - 1;
  }

  /** The next thing that happens in a cooperative round. */
  lemma BlastEvent(b: Bridge) returns (e: Event)
    requires Regular(b) && b.phase == Blasting && b.round == 0 && b.increment < b.geo.totalIncrements
    ensures Closer(b, Step(b, e).bridge)
  {
    e := Blast(Sent(0), Sent(0));
    if b.pending != [] {
      HeadGoes(b);
    } else if b.requested != {} {
      var s :| s in b.requested;
      e := RequestedChunk(b, s);
    } else {
      RangeBounds(b.geo, b.increment);
      IncrementShape(b.geo, b.increment);
      assert b.sent == Target(b);
      RoundCloses(b);
    }
  }

  lemma RequestedChunk(b: Bridge, s: nat) returns (e: Event)
    requires Regular(b) && b.phase == Blasting && b.round == 0 && b.increment < b.geo.totalIncrements && s in b.requested
    ensures Closer(b, Step(b, e).bridge)
  {
    assert s in Target(b);
    IncrementShape(b.geo, b.increment);
    ChunkShape(b.geo, s);
    var data := seq(b.geo.ExpectedLen(s), _ => 0);
    e := Source(s, data);
    SourceGoes(b, s, data);
  }

  /** A round runs until the bridge waits for the leaf. */
  lemma {:induction false} FinishRound(r: Run, g: Geometry) returns (events: seq<Event>)
    requires OnTrack(r, g)
    ensures OnTrack(After(r, events), g) && After(r, events).bridge.phase == WaitingGaps
    ensures After(r, events).bridge.increment == r.bridge.increment
    decreases r.bridge.phase == Blasting, Outstanding(r.bridge)
  {
    if r.bridge.phase == WaitingGaps {
      events := [];
    } else {
      var e := BlastEvent(r.bridge);
      var r' := Next(r, e);
      StepKeepsTracked(r, e);
      var rest := FinishRound(r', g);
      AfterOne(r, e, rest);
      events := [e] + rest;
    }
  }

  /** The leaf's report that an increment is complete. */
  function Complete(b: Bridge): Event
    requires b.history != []
  {
    Ack(GAPS, b.history[0], [0, 0], Sent(0))
  }

  lemma CompleteAdvances(b: Bridge)
    requires Regular(b) && b.phase == WaitingGaps
    ensures var b' := Step(b, Complete(b)).bridge;
            if b.geo.IsLast(b.increment) then b'.phase == Ending && b'.geo == b.geo
            else b'.phase == Blasting && b'.geo == b.geo && b'.round == 0 && b'.increment == b.increment + 1
  {
    NextCounts(b);
    assert Step(b, Complete(b)) == IncrementDone(b, Sent(0));
  }

  lemma {:induction false} FinishTransfer(r: Run, g: Geometry) returns (events: seq<Event>)
    requires OnTrack(r, g)
    ensures Tracked(After(r, events)) && After(r, events).bridge.phase == Ending && After(r, events).bridge.geo == g
    decreases g.totalIncrements - r.bridge.increment
  {
    var round := FinishRound(r, g);
    var r1 := After(r, round);
    var e := Complete(r1.bridge);
    var r2 := Next(r1, e);
    CompleteAdvances(r1.bridge);
    StepKeepsTracked(r1, e);
    if r2.bridge.phase == Ending {
      AfterOne(r1, e, []);
      AfterAppend(r, round, [e]);
      events := round + [e];
    } else {
      var rest := FinishTransfer(r2, g);
      AfterOne(r1, e, rest);
      AfterAppend(r, round, [e] + rest);
      events := round + ([e] + rest);
    }
  }

  lemma StartAnnounces(b: Bridge, fileSize: nat, maxPayload: nat)
    requires b.phase == Idle && 0 < fileSize <= MAX_FILE_SIZE && ClampChunk(maxPayload) >= MIN_CHUNK
    ensures var b' := Step(b, Start(fileSize, 1, maxPayload, Sent(0))).bridge;
            && b'.phase == Announcing && b'.fileSize == fileSize && b'.action == 1 && b'.announceTx == 0
            && b'.requestedChunk == ClampChunk(maxPayload)
  {
  }

  lemma AcceptStartsRound(b: Bridge, lo: byte, hi: byte, kb: byte)
    requires b.phase == Announcing && b.action == 1 && b.announceTx == 0
    requires 0 < b.fileSize <= MAX_FILE_SIZE && 0 < Le16(lo, hi) <= b.requestedChunk && kb != 0
    ensures var b' := Step(b, Ack(ACCEPT, 0, [lo, hi, kb, 1], Sent(0))).bridge;
            && b'.phase == Blasting && b'.geo == Negotiate(b.fileSize, Le16(lo, hi), kb as nat)
            && b'.round == 0 && b'.increment == 0 < b'.geo.totalIncrements
  {
    NegotiatedFacts(b.fileSize, Le16(lo, hi), kb as nat);
  }

  lemma StartedRun(r0: Run, fileSize: nat, maxPayload: nat) returns (e: Event)
    requires Tracked(r0) && r0.bridge.phase == Idle && 0 < fileSize <= MAX_FILE_SIZE && ClampChunk(maxPayload) >= MIN_CHUNK
    ensures var r := Next(r0, e);
            && Tracked(r) && r.bridge.phase == Announcing && r.bridge.fileSize == fileSize && r.bridge.action == 1
            && r.bridge.announceTx == 0 && r.bridge.requestedChunk == ClampChunk(maxPayload)
  {
    e := Start(fileSize, 1, maxPayload, Sent(0));
    StartAnnounces(r0.bridge, fileSize, maxPayload);
    IdleStepKeepsTracked(r0, e);
  }

  lemma AcceptedStep(r: Run, lo: byte, hi: byte, kb: byte) returns (e: Event)
    requires Tracked(r) && r.bridge.phase == Announcing && r.bridge.action == 1 && r.bridge.announceTx == 0
    requires 0 < Le16(lo, hi) <= r.bridge.requestedChunk && kb != 0
    ensures OnTrack(Next(r, e), Negotiate(r.bridge.fileSize, Le16(lo, hi), kb as nat))
  {
    e := Ack(ACCEPT, 0, [lo, hi, kb, 1], Sent(0));
    AcceptStartsRound(r.bridge, lo, hi, kb);
    StepKeepsTracked(r, e);
  }

  lemma AcceptedFrom(r0: Run, fileSize: nat, maxPayload: nat, lo: byte, hi: byte, kb: byte) returns (events: seq<Event>)
    requires Tracked(r0) && r0.bridge.phase == Idle && 0 < fileSize <= MAX_FILE_SIZE && kb != 0
    requires MIN_CHUNK <= ClampChunk(maxPayload) && 0 < Le16(lo, hi) <= ClampChunk(maxPayload)
    ensures OnTrack(After(r0, events), Negotiate(fileSize, Le16(lo, hi), kb as nat))
  {
    var start := StartedRun(r0, fileSize, maxPayload);
    var r1 := Next(r0, start);
    var accept := AcceptedStep(r1, lo, hi, kb);
    AfterTwo(r0, start, accept);
    events := [start] + [accept];
  }

  lemma AcceptedRun(r0: Run, fileSize: nat, maxPayload: nat, lo: byte, hi: byte, kb: byte) returns (events: seq<Event>)
    requires PowerOn(r0) && 0 < fileSize <= MAX_FILE_SIZE && MIN_CHUNK <= ClampChunk(maxPayload) && 0 < Le16(lo, hi) <= ClampChunk(maxPayload) && kb != 0
    ensures OnTrack(After(r0, events), Negotiate(fileSize, Le16(lo, hi), kb as nat))
  {
    FreshIsTracked(r0);
    events := AcceptedFrom(r0, fileSize, maxPayload, lo, hi, kb);
  }

  /** Every acceptable answer of the leaf can be followed by a run to the end. */
  lemma EndIsReachable(r0: Run, fileSize: nat, maxPayload: nat, lo: byte, hi: byte, kb: byte) returns (events: seq<Event>)
    requires PowerOn(r0) && 0 < fileSize <= MAX_FILE_SIZE && MIN_CHUNK <= ClampChunk(maxPayload) && 0 < Le16(lo, hi) <= ClampChunk(maxPayload) && kb != 0
    ensures var r := After(r0, events);
            Tracked(r) && r.bridge.phase == Ending && r.bridge.geo == Negotiate(fileSize, Le16(lo, hi), kb as nat)
  {
    var g := Negotiate(fileSize, Le16(lo, hi), kb as nat);
    var first := AcceptedRun(r0, fileSize, maxPayload, lo, hi, kb);
    var rest := FinishTransfer(After(r0, first), g);
    AfterAppend(r0, first, rest);
    events := first + rest;
  }

  /** Every run that ends a transfer with this geometry has sent the whole file. */
  ghost predicate EndMeansAll(r0: Run, g: Geometry) {
    forall events: seq<Event> ::
      var r := After(r0, events);
      r.bridge.phase == Ending && r.bridge.geo == g ==> r.delivered == Interval(0, g.totalChunks)
  }

  lemma ExactEndsAll(r0: Run, g: Geometry)
    requires PowerOn(r0) && g.Exact()
    ensures EndMeansAll(r0, g)
  {
    forall events: seq<Event>
      ensures var r := After(r0, events);
              r.bridge.phase == Ending && r.bridge.geo == g ==> r.delivered == Interval(0, g.totalChunks)
    {
      EndingMeansAllDelivered(r0, events);
    }
  }

  /** With a truncated count, a run that ends leaves out the last chunk. */
  lemma TruncatedLeavesOut(r: Run)
    requires Tracked(r) && r.bridge.phase == Ending && Sound(r.bridge.geo) && !r.bridge.geo.Exact()
    ensures r.delivered != Interval(0, r.bridge.geo.totalChunks)
  {
    var g := r.bridge.geo;
    IncrementShape(g, g.totalIncrements - 1);
    assert g.totalChunks - 1 !in r.delivered;
    assert g.totalChunks - 1 in Interval(0, g.totalChunks);
  }

  /**
   The promise is kept for exactly the files whose increments a 16-bit count can number. For every
   larger file the leaf and the source can do nothing wrong and the last chunk is still never sent.
   */
  lemma EndMeansAllIff(r0: Run, fileSize: nat, maxPayload: nat, lo: byte, hi: byte, kb: byte)
    requires PowerOn(r0) && 0 < fileSize <= MAX_FILE_SIZE && MIN_CHUNK <= ClampChunk(maxPayload) && 0 < Le16(lo, hi) <= ClampChunk(maxPayload) && kb != 0
    ensures var g := Negotiate(fileSize, Le16(lo, hi), kb as nat);
            EndMeansAll(r0, g) <==> fileSize <= 65535 * g.perIncrement * g.chunk
  {
    var g := Negotiate(fileSize, Le16(lo, hi), kb as nat);
    ExactIff(fileSize, Le16(lo, hi), kb as nat);
    if g.Exact() {
      ExactEndsAll(r0, g);
    } else {
      var events := EndIsReachable(r0, fileSize, maxPayload, lo, hi, kb);
      NegotiatedFacts(fileSize, Le16(lo, hi), kb as nat);
      TruncatedLeavesOut(After(r0, events));
    }
  }
}
