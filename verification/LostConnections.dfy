/**
 What a lost WebSocket session costs. The bridge forgets the request it waits for, the add-on gives up
 the rest of its answer, and when the client is back the bridge still asks only for what its last
 request did not ask for.
 */
module LostConnections {
  import opened Seqs
  import opened Bytes
  import opened Geometry
  import opened GapBitmap
  import opened Transfer
  import opened TransferMoves
  import opened TransferInvariants
  import opened BridgeRounds
  import opened ChunkWindow
  import opened ChunkExchange
  import opened LostBatches
  import TransferRuns
  import TransferTheorems

  // With nothing on its way.

  lemma AskingServes(src: Source, file: bytes, x: Exchange) returns (turns: seq<Turn>)
    requires Wanting(src, file, x.window, x.bridge) && x.asked == [] && x.coming == [] && !(x.bridge.requested <= x.last)
    ensures Blasts(src, file, x, turns) && Run(src, file, x, turns).bridge.requested == {}
  {
    var y := After(src, file, x, Returns);
    AskingIsUnderWay(src, file, y);
    AscendingFacts(y.bridge.requested);
    var more := CurrentIsServed(src, file, AsksAnew(y), Ascending(y.bridge.requested));
    assert After(src, file, y, Looks) == AsksAnew(y);
    var looks := [Looks] + more;
    assert looks[0] == Looks && looks[1..] == more;
    turns := [Returns] + looks;
    assert turns[0] == Returns && turns[1..] == looks;
  }

  /** With nothing on its way, what the transfer wants can still come exactly if the last request did not ask for all of it. */
  lemma AskedAgainIff(src: Source, file: bytes, x: Exchange)
    requires Wanting(src, file, x.window, x.bridge) && x.asked == [] && x.coming == []
    ensures CanBeServed(src, file, x) <==> !(x.bridge.requested <= x.last)
  {
    if x.bridge.requested <= x.last {
      var s :| s in x.bridge.requested;
      assert Arriving(src, file, x) == [];
      MissedIsNeverServed(src, file, x, s);
    } else {
      var turns := AskingServes(src, file, x);
      assert Blasts(src, file, x, turns) && Run(src, file, x, turns).bridge.requested == {};
    }
  }

  /** A session lost in the middle of an answer leaves the transfer waiting for good. */
  lemma LostMidAnswer(src: Source, file: bytes, x: Exchange, sequences: seq<nat>)
    requires UnderWay(src, file, x, [], sequences)
    ensures !CanBeServed(src, file, After(src, file, x, Drops))
  {
    AskedAgainIff(src, file, After(src, file, x, Drops));
  }

  /** A connection the bridge closes itself keeps it making requests: one made before the client is back is never made again. */
  lemma ClosedAsksInVain(src: Source, file: bytes, x: Exchange)
    requires Wanting(src, file, x.window, x.bridge) && x.heard
    ensures !CanBeServed(src, file, After(src, file, After(src, file, x, Closes), Looks))
  {
    AskedAgainIff(src, file, After(src, file, After(src, file, x, Closes), Looks));
  }

  // While the client is away.

  function Drift(b: Bridge, events: seq<Event>): Bridge
    decreases |events|
  {
    if events == [] then b else Drift(Step(b, events[0]).bridge, events[1..])
  }

  /** No chunks come, and the transfer goes on. */
  predicate Lasts(b: Bridge, events: seq<Event>)
    decreases |events|
  {
    events != [] ==>
      && !events[0].Source? && TransferRuns.Transferring(Step(b, events[0]).bridge)
      && Lasts(Step(b, events[0]).bridge, events[1..])
  }

  lemma {:induction false} DriftAppend(b: Bridge, first: seq<Event>, others: seq<Event>)
    requires Lasts(b, first) && Lasts(Drift(b, first), others)
    ensures Lasts(b, first + others) && Drift(b, first + others) == Drift(Drift(b, first), others)
    decreases |first|
  {
    if first == [] {
      assert first + others == others;
    } else {
      AppendFirst(first, others);
      DriftAppend(Step(b, first[0]).bridge, first[1..], others);
    }
  }

  predicate Steadfast(b: Bridge) { Regular(b) && TransferRuns.Transferring(b) && b.geo.Exact() }

  lemma StepKeepsSteadfast(b: Bridge, e: Event)
    requires Steadfast(b) && TransferRuns.Transferring(Step(b, e).bridge)
    ensures Steadfast(Step(b, e).bridge) && Step(b, e).bridge.geo == b.geo
  {
    TransferTheorems.EstablishedStep(b, e);
    StepKeepsRegular(b, e);
  }

  lemma {:induction false} DriftKeepsSteadfast(b: Bridge, events: seq<Event>)
    requires Steadfast(b) && Lasts(b, events)
    ensures Steadfast(Drift(b, events)) && Drift(b, events).geo == b.geo
    decreases |events|
  {
    if events != [] {
      StepKeepsSteadfast(b, events[0]);
      DriftKeepsSteadfast(Step(b, events[0]).bridge, events[1..]);
    }
  }

  /** Whatever happens while the client is away, what the transfer then wants can still come. */
  ghost predicate Survives(src: Source, file: bytes, y: Exchange) {
    forall events :: Lasts(y.bridge, events) && Drift(y.bridge, events).requested != {} ==>
      CanBeServed(src, file, y.(bridge := Drift(y.bridge, events)))
  }

  /** Whatever happens, the transfer never wants only what the last request asked for. */
  ghost predicate NeverOnly(b: Bridge, last: set<nat>) {
    forall events :: Lasts(b, events) && Drift(b, events).requested != {} ==> !(Drift(b, events).requested <= last)
  }

  /**
   What a look at the bridge tells before the session is lost: if the transfer wants something, not all
   of it was in the last request; if it wants nothing, no chunk of the increment was that a
   retransmission could still ask for, nor all of the next increment.
   */
  predicate Safe(b: Bridge, last: set<nat>) {
    if b.requested != {} then !(b.requested <= last)
    else
      var g, k := b.geo, b.increment;
      (b.round < MAX_RETRANSMIT_ROUNDS ==> last !! g.Range(k)) && (g.Range(k + 1) != {} ==> !(g.Range(k + 1) <= last))
  }

  // A transfer that wants something goes on wanting it.

  lemma WantingStays(b: Bridge, e: Event)
    requires b.phase == Blasting && b.requested != {} && !e.Source? && TransferRuns.Transferring(Step(b, e).bridge)
    ensures Step(b, e).bridge.phase == Blasting
    ensures Step(b, e).bridge.requested == b.requested && Step(b, e).bridge.increment == b.increment
  {
  }

  lemma WantingIsBlasting(b: Bridge)
    requires Steadfast(b) && b.requested != {}
    ensures b.phase == Blasting && forall s :: s in b.requested ==> s < b.geo.totalChunks
  {
    assert b.requested <= Target(b) <= b.geo.Range(b.increment);
  }

  lemma {:induction false} DriftKeepsWanting(b: Bridge, events: seq<Event>)
    requires Steadfast(b) && b.requested != {} && Lasts(b, events)
    ensures Drift(b, events).requested == b.requested
    decreases |events|
  {
    if events != [] {
      WantingIsBlasting(b);
      WantingStays(b, events[0]);
      StepKeepsSteadfast(b, events[0]);
      DriftKeepsWanting(Step(b, events[0]).bridge, events[1..]);
    }
  }

  // A transfer that wants nothing may come to want something.

  /** Where a transfer that wanted nothing of increment `k`, in round `round`, can get to. */
  predicate Reached(b: Bridge, g: Geometry, k: nat, round: nat) {
    && b.geo == g
    && (|| (b.requested == {} && b.increment == k && b.round == round)
        || (b.requested != {} && round < MAX_RETRANSMIT_ROUNDS && b.requested <= g.Range(k))
        || (b.requested == g.Range(k + 1) && (b.requested == {} ==> TransferTheorems.Stranded(b))))
  }

  lemma NextRange(g: Geometry, k: nat)
    requires Sound(g) && g.Exact() && k < g.totalIncrements
    ensures if k + 1 < g.totalIncrements then g.Range(k + 1) != {} else g.Range(k + 1) == {}
    ensures g.Range(k) !! g.Range(k + 1) && g.Range(k) != {}
  {
    IncrementShape(g, k);
    if k + 1 < g.totalIncrements { IncrementShape(g, k + 1); } else { PastTheEnd(g); }
  }

  lemma NextReached(b: Bridge, b': Bridge)
    requires Steadfast(b) && b.phase == WaitingGaps && b'.phase == Blasting && b'.geo == b.geo && b'.increment == b.increment + 1
    requires b'.round == 0 && b'.requested == b.geo.Range(b.increment + 1) && b'.sent == {} && b'.pending == []
    ensures Reached(b', b.geo, b.increment, b.round)
  {
    NextRange(b.geo, b.increment);
  }

  lemma AdvanceReached(b: Bridge, fs: seq<Frame>, b': Bridge)
    requires Steadfast(b) && Advances(b, fs, b')
    ensures Reached(b', b.geo, b.increment, b.round)
  {
    NextCounts(b);
    NextReached(b, b');
  }

  lemma SkipReached(b: Bridge, fs: seq<Frame>, b': Bridge, bitmap: bytes)
    requires Steadfast(b) && Skips(b, fs, b', bitmap)
    ensures Reached(b', b.geo, b.increment, b.round)
  {
    NextCounts(b);
    NextReached(b, b');
  }

  lemma RetransmitReached(b: Bridge, fs: seq<Frame>, b': Bridge, bitmap: bytes)
    requires Steadfast(b) && Retransmits(b, fs, b', bitmap)
    ensures Reached(b', b.geo, b.increment, b.round)
  {
    RetransmitKeepsRegular(b, fs, b', bitmap);
  }

  lemma RestingMove(m: Move, b: Bridge, fs: seq<Frame>, b': Bridge)
    requires Steadfast(b) && b.requested == {} && Moves(m, b, fs, b') && !m.Enqueue? && TransferRuns.Transferring(b')
    ensures Reached(b', b.geo, b.increment, b.round)
  {
    match m
    case Ask => AskChangesNothing(b, fs, b');
    case Advance => AdvanceReached(b, fs, b');
    case Skip(bitmap) => SkipReached(b, fs, b', bitmap);
    case Retransmit(bitmap) => RetransmitReached(b, fs, b', bitmap);
    case _ => RestingStays(m, b, fs, b');
  }

  lemma RestingStays(m: Move, b: Bridge, fs: seq<Frame>, b': Bridge)
    requires b.requested == {} && TransferRuns.Transferring(b) && Moves(m, b, fs, b') && TransferRuns.Transferring(b')
    requires m.Stay? || m.Stop? || m.Begin? || m.AnnounceAgain? || m.Accept? || m.SendHead? || m.CloseRound? || m.Finish? || m.SendLast?
    ensures b'.geo == b.geo && b'.requested == {} && b'.increment == b.increment && b'.round == b.round
  {
  }

  lemma RestingFirst(m: Move, b: Bridge, fs: seq<Frame>, mid: Bridge)
    requires Steadfast(b) && b.requested == {} && Moves(m, b, fs, mid) && (m.Stay? || m.Begin? || m.SendHead? || m.Finish?)
    ensures mid.phase == Ending || (Steadfast(mid) && mid.requested == {} && mid.geo == b.geo && mid.increment == b.increment && mid.round == b.round)
  {
    if m.SendHead? { SendHeadKeepsRegular(b, fs, mid); }
  }

  lemma EndingStaysOut(m: Move, b: Bridge, fs: seq<Frame>, b': Bridge)
    requires b.phase == Ending && Moves(m, b, fs, b')
    ensures !TransferRuns.Transferring(b')
  {
  }

  lemma RestingStep(b: Bridge, e: Event)
    requires Steadfast(b) && b.requested == {} && !e.Source? && TransferRuns.Transferring(Step(b, e).bridge)
    ensures Reached(Step(b, e).bridge, b.geo, b.increment, b.round)
  {
    var o := Step(b, e);
    var p := EventPath(b, e);
    RestingFirst(p.m1, b, p.f1, p.mid);
    if p.mid.phase == Ending {
      EndingStaysOut(p.m2, p.mid, p.f2, o.bridge);
    } else {
      RestingMove(p.m2, p.mid, p.f2, o.bridge);
    }
  }

  lemma ReachedStep(b: Bridge, e: Event, g: Geometry, k: nat, round: nat)
    requires Steadfast(b) && Reached(b, g, k, round) && !e.Source? && TransferRuns.Transferring(Step(b, e).bridge)
    ensures Reached(Step(b, e).bridge, g, k, round)
  {
    StepKeepsSteadfast(b, e);
    if b.requested != {} {
      WantingIsBlasting(b);
      WantingStays(b, e);
    } else if b.increment == k && b.round == round {
      RestingStep(b, e);
    } else {
      TransferTheorems.StrandedUntilStopped(b, e);
    }
  }

  lemma {:induction false} DriftReaches(b: Bridge, events: seq<Event>, g: Geometry, k: nat, round: nat)
    requires Steadfast(b) && Reached(b, g, k, round) && Lasts(b, events)
    ensures Reached(Drift(b, events), g, k, round)
    decreases |events|
  {
    if events != [] {
      StepKeepsSteadfast(b, events[0]);
      ReachedStep(b, events[0], g, k, round);
      DriftReaches(Step(b, events[0]).bridge, events[1..], g, k, round);
    }
  }

  lemma SafeIsNotOnly(b: Bridge, last: set<nat>, d: Bridge)
    requires b.requested == {} && Safe(b, last) && Reached(d, b.geo, b.increment, b.round) && d.requested != {}
    ensures !(d.requested <= last)
  {
    if d.requested <= b.geo.Range(b.increment) && b.round < MAX_RETRANSMIT_ROUNDS {
      var s :| s in d.requested;
      assert s !in last;
    }
  }

  lemma SafeNever(b: Bridge, last: set<nat>)
    requires Steadfast(b) && Safe(b, last)
    ensures NeverOnly(b, last)
  {
    forall events | Lasts(b, events) && Drift(b, events).requested != {}
      ensures !(Drift(b, events).requested <= last)
    {
      if b.requested != {} {
        DriftKeepsWanting(b, events);
      } else {
        DriftReaches(b, events, b.geo, b.increment, b.round);
        SafeIsNotOnly(b, last, Drift(b, events));
      }
    }
  }

  // And exactly then: what can happen to a transfer that is not safe.

  lemma BlastDrains(b: Bridge)
    requires b.phase == Blasting && b.requested == {} && (b.pending != [] || b.sent != {})
    ensures var b' := Step(b, Blast(Sent(0), Sent(0))).bridge;
            && TransferRuns.Transferring(b') && b'.requested == {} && b'.increment == b.increment && b'.round == b.round
            && (b'.phase == WaitingGaps || |b'.pending| < |b.pending|)
  {
  }

  /** What is queued goes out, and the round is closed. */
  lemma {:induction false} ToWaiting(b: Bridge) returns (events: seq<Event>)
    requires Steadfast(b) && b.requested == {} && b.increment < b.geo.totalIncrements
    ensures Lasts(b, events)
    ensures var d := Drift(b, events);
            Steadfast(d) && d.phase == WaitingGaps && d.geo == b.geo && d.increment == b.increment && d.round == b.round
    decreases b.phase == Blasting, |b.pending|
  {
    events := [];
    if b.phase == Blasting {
      var e := Blast(Sent(0), Sent(0));
      SomethingOut(b);
      BlastDrains(b);
      StepKeepsSteadfast(b, e);
      var others := ToWaiting(Step(b, e).bridge);
      events := [e] + others;
    }
  }

  lemma SomethingOut(b: Bridge)
    requires Steadfast(b) && b.phase == Blasting && b.requested == {} && b.increment < b.geo.totalIncrements
    ensures b.pending != [] || b.sent != {}
  {
    NextRange(b.geo, b.increment);
    assert Target(b) != {};
  }

  /** A bitmap that shows all of an increment but one chunk. */
  function AllBut(n: nat, i: nat): seq<nat>
    requires i < n
  {
    seq(n - 1, j requires 0 <= j => if j < i then j else j + 1)
  }

  lemma AllButHas(n: nat, i: nat, k: nat)
    requires i < n
    ensures k in AllBut(n, i) <==> k < n && k != i
  {
    if k < i { assert AllBut(n, i)[k] == k; }
    if i < k < n { assert AllBut(n, i)[k - 1] == k; }
  }

  lemma MarkedBut(n: nat, i: nat) returns (bitmap: bytes)
    requires i < n
    ensures |bitmap| == BitmapLen(n) && forall k: nat :: Marked(bitmap, k) <==> k < n && k != i
  {
    var arrivals := AllBut(n, i);
    bitmap := MarkAll(Empty(n), arrivals);
    GapsAreTheMissing(n, 0, arrivals);
    forall k: nat
      ensures Marked(bitmap, k) <==> k < n && k != i
    {
      AllButHas(n, i, k);
    }
  }

  lemma OneGap(n: nat, start: nat, i: nat) returns (bitmap: bytes)
    requires i < n
    ensures |bitmap| == BitmapLen(n) && Gaps(bitmap, start, n) == {start + i}
  {
    bitmap := MarkedBut(n, i);
    var gaps := Gaps(bitmap, start, n);
    assert Missing(bitmap, start, start + i);
    forall s | s in gaps
      ensures s == start + i
    {
      assert !Marked(bitmap, s - start) && s - start < n;
    }
  }

  lemma GapIsAsked(b: Bridge, bitmap: bytes, s: nat)
    requires b.phase == WaitingGaps && b.round < MAX_RETRANSMIT_ROUNDS
    requires Gaps(bitmap, b.geo.Start(b.increment), b.geo.Size(b.increment)) == {s}
    ensures MissingChunks(b, bitmap).bridge.phase == Blasting && MissingChunks(b, bitmap).bridge.requested == {s}
  {
  }

  lemma BitmapFits(n: nat)
    requires 0 < n < 0x1_0000
    ensures 0 < BitmapLen(n) < 0x1_0000
  {
  }

  lemma PlaceInRange(g: Geometry, k: nat, s: nat)
    requires Sound(g) && k < g.totalIncrements && s in g.Range(k)
    ensures g.Start(k) <= s < g.Start(k) + g.Size(k) && 0 < g.Size(k) < 0x1_0000
  {
    IncrementShape(g, k);
  }

  lemma GapAt(n: nat, start: nat, s: nat) returns (bitmap: bytes)
    requires start <= s < start + n && n < 0x1_0000
    ensures 0 < |bitmap| < 0x1_0000 && Gaps(bitmap, start, n) == {s}
  {
    BitmapFits(n);
    bitmap := OneGap(n, start, s - start);
  }

  lemma GapAnswer(b: Bridge, s: nat) returns (e: Event)
    requires Steadfast(b) && b.phase == WaitingGaps && b.round < MAX_RETRANSMIT_ROUNDS && s in b.geo.Range(b.increment)
    ensures !e.Source? && Step(b, e).bridge.phase == Blasting && Step(b, e).bridge.requested == {s}
  {
    PlaceInRange(b.geo, b.increment, s);
    var bitmap := GapAt(b.geo.Size(b.increment), b.geo.Start(b.increment), s);
    e := BitmapAnswer(b, bitmap);
    GapIsAsked(b, bitmap, s);
  }

  lemma BitmapAnswer(b: Bridge, bitmap: bytes) returns (e: Event)
    requires b.phase == WaitingGaps && b.history != [] && 0 < |bitmap| < 0x1_0000
    ensures !e.Source? && Step(b, e) == MissingChunks(b, bitmap)
  {
    e := Ack(GAPS, b.history[0], Carrying(bitmap), NoMemory);
    BitmapAnswered(b, b.history[0], bitmap, NoMemory);
  }

  /** While the client is away the leaf may ask for any one chunk of the increment again. */
  lemma OneAskedAgain(b: Bridge, s: nat) returns (events: seq<Event>)
    requires Steadfast(b) && b.requested == {} && b.round < MAX_RETRANSMIT_ROUNDS && s in b.geo.Range(b.increment)
    ensures Lasts(b, events) && Drift(b, events).requested == {s}
  {
    RangeIsPlanned(b);
    var first := ToWaiting(b);
    var e := GapAnswer(Drift(b, first), s);
    OneMore(Drift(b, first), e);
    DriftAppend(b, first, [e]);
    events := first + [e];
  }

  lemma OneMore(b: Bridge, e: Event)
    requires !e.Source? && TransferRuns.Transferring(Step(b, e).bridge)
    ensures Lasts(b, [e]) && Drift(b, [e]) == Step(b, e).bridge
  {
    assert [e][1..] == [];
  }

  lemma RangeIsPlanned(b: Bridge)
    requires Steadfast(b) && b.geo.Range(b.increment) != {}
    ensures b.increment < b.geo.totalIncrements
  {
  }

  /** Or the bridge goes on to the next increment. */
  lemma NextAsked(b: Bridge) returns (events: seq<Event>)
    requires Steadfast(b) && b.requested == {} && b.geo.Range(b.increment + 1) != {}
    ensures Lasts(b, events) && Drift(b, events).requested == b.geo.Range(b.increment + 1)
  {
    NextIsPlanned(b);
    var first := ToWaiting(b);
    var e := EmptyAnswer(Drift(b, first));
    OneMore(Drift(b, first), e);
    DriftAppend(b, first, [e]);
    events := first + [e];
  }

  lemma NextIsPlanned(b: Bridge)
    requires Steadfast(b) && b.geo.Range(b.increment + 1) != {}
    ensures b.increment + 1 < b.geo.totalIncrements
  {
    if b.increment < b.geo.totalIncrements {
      NextRange(b.geo, b.increment);
    } else {
      MulMono(b.geo.totalIncrements, b.increment + 1, b.geo.perIncrement);
    }
  }

  lemma EmptyAnswer(b: Bridge) returns (e: Event)
    requires Steadfast(b) && b.phase == WaitingGaps && b.increment + 1 < b.geo.totalIncrements
    ensures !e.Source? && Step(b, e).bridge.phase == Blasting && Step(b, e).bridge.requested == b.geo.Range(b.increment + 1)
  {
    e := Ack(GAPS, b.history[0], [0, 0], NoMemory);
    NextCounts(b);
    GapsAnswered(b, b.history[0], [0, 0], NoMemory);
    assert DoGaps(b, [0, 0], NoMemory) == IncrementDone(b, NoMemory);
    DoneAdvances(b);
  }

  lemma DoneAdvances(b: Bridge)
    requires b.phase == WaitingGaps && b.increment + 1 < b.geo.totalIncrements && Next16(b.increment) == b.increment + 1
    ensures var b' := IncrementDone(b, NoMemory).bridge; b'.phase == Blasting && b'.requested == b.geo.Range(b.increment + 1)
  {
  }

  lemma NeverRetransmitted(b: Bridge, last: set<nat>)
    requires Steadfast(b) && NeverOnly(b, last) && b.requested == {} && b.round < MAX_RETRANSMIT_ROUNDS
    ensures last !! b.geo.Range(b.increment)
  {
    if s :| s in last && s in b.geo.Range(b.increment) {
      var events := OneAskedAgain(b, s);
      assert Drift(b, events).requested <= last;
    }
  }

  lemma NeverNext(b: Bridge, last: set<nat>)
    requires Steadfast(b) && NeverOnly(b, last) && b.requested == {} && b.geo.Range(b.increment + 1) != {}
    ensures !(b.geo.Range(b.increment + 1) <= last)
  {
    var events := NextAsked(b);
  }

  lemma NeverSafe(b: Bridge, last: set<nat>)
    requires Steadfast(b) && NeverOnly(b, last)
    ensures Safe(b, last)
  {
    if b.requested != {} {
      assert Lasts(b, []) && Drift(b, []) == b;
    } else {
      if b.round < MAX_RETRANSMIT_ROUNDS { NeverRetransmitted(b, last); }
      if b.geo.Range(b.increment + 1) != {} { NeverNext(b, last); }
    }
  }

  // The result.

  /** The two ends agree on the job and the sizes. */
  ghost predicate Job(src: Source, file: bytes, w: Window, g: Geometry) {
    && |file| == g.fileSize && src.maxChunk == w.maxChunk == g.chunk && BatchSize(src) <= w.maxBatch
    && w.active && w.transferring && src.jobId == w.jobId
  }

  lemma SurvivesMeans(src: Source, file: bytes, y: Exchange)
    requires Job(src, file, y.window, y.bridge.geo) && Steadfast(y.bridge) && y.asked == [] && y.coming == []
    ensures Survives(src, file, y) <==> NeverOnly(y.bridge, y.last)
  {
    forall events | Lasts(y.bridge, events) && Drift(y.bridge, events).requested != {}
      ensures CanBeServed(src, file, y.(bridge := Drift(y.bridge, events))) <==> !(Drift(y.bridge, events).requested <= y.last)
    {
      DriftKeepsSteadfast(y.bridge, events);
      WantingIsBlasting(Drift(y.bridge, events));
      AskedAgainIff(src, file, y.(bridge := Drift(y.bridge, events)));
    }
  }

  /**
   At whatever moment the session is lost: the transfer survives, whatever happens until the client is
   back, if and only if it was safe just before.
   */
  lemma SurvivesIff(src: Source, file: bytes, x: Exchange)
    requires Job(src, file, x.window, x.bridge.geo) && Steadfast(x.bridge)
    ensures Survives(src, file, After(src, file, x, Drops)) <==> Safe(x.bridge, x.last)
  {
    var y := After(src, file, x, Drops);
    SurvivesMeans(src, file, y);
    if Safe(x.bridge, x.last) { SafeNever(x.bridge, x.last); }
    if NeverOnly(x.bridge, x.last) { NeverSafe(x.bridge, x.last); }
  }

  /** With all of a request delivered, the transfer is safe if the bridge has looked since, or the increment has no retransmission left. */
  lemma SafeAtRest(b: Bridge, last: set<nat>)
    requires Steadfast(b) && b.requested == {} && last <= b.geo.Range(b.increment)
    ensures Safe(b, last) <==> last == {} || b.round == MAX_RETRANSMIT_ROUNDS
  {
    var here, next := b.geo.Range(b.increment), b.geo.Range(b.increment + 1);
    InIncrement(b);
    OverlapIff(last, here, next);
  }

  lemma InIncrement(b: Bridge)
    requires Steadfast(b)
    ensures b.round <= MAX_RETRANSMIT_ROUNDS && b.geo.Range(b.increment) !! b.geo.Range(b.increment + 1)
  {
    if b.increment < b.geo.totalIncrements { NextRange(b.geo, b.increment); }
  }

  lemma OverlapIff(last: set<nat>, here: set<nat>, next: set<nat>)
    requires last <= here && here !! next
    ensures last !! here <==> last == {}
    ensures next != {} ==> !(next <= last)
  {
    if next != {} {
      var s :| s in next;
      assert s !in last;
    }
  }

  /** A look at a transfer that wants nothing makes it safe. */
  lemma LookMakesSafe(x: Exchange)
    requires x.heard && x.window.transferring && TransferRuns.Transferring(x.bridge) && x.bridge.requested == {}
    ensures Look(x).bridge == x.bridge && Safe(Look(x).bridge, Look(x).last)
  {
  }
}
