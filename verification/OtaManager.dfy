/**
 The bridge's transfer manager as it runs: fields updated in place, loops over sequence numbers, and
 the timers that decide what a tick does. Every public method is shown to be one event of the state
 machine of `Transfer`.
 */
module OtaManager {
  import opened Bytes
  import opened Geometry
  import opened GapBitmap
  import opened Transfer
  import opened TransferMoves
  import opened TransferInvariants
  import opened BridgeClock

  const DATA_HEADER: nat := 4

  /** The manager's embedded record of the increment under way. */
  datatype IncrementTracker = IncrementTracker(
    currentIncrement: nat,
    totalIncrements: nat,
    chunksPerIncrement: nat,
    chunksInLastIncrement: nat,
    totalChunks: nat,
    bufferSizeKb: nat,
    retransmitRound: nat,
    retries: nat,
    blastCompleteSentMs: nat,
    history: seq<nat>,
    gaps: set<nat>,
    requested: set<nat>,
    sent: set<nat>,
    lastRemoteMs: nat)
  {
    predicate IsLastIncrement() { currentIncrement + 1 >= totalIncrements }

    function ChunksInThisIncrement(): nat {
      if IsLastIncrement() then chunksInLastIncrement else chunksPerIncrement
    }

    function StartSeq(): nat { currentIncrement * chunksPerIncrement }

    function EndSeq(): nat { Min(StartSeq() + ChunksInThisIncrement(), totalChunks) }
  }

  /** What was asked of the leaf and what it answered, and the control frames sent for it. */
  datatype Offer = Offer(
    fileSize: nat,
    action: byte,
    requestedChunk: nat,
    negotiatedChunk: nat,
    maxPlaintext: nat,
    announceTx: nat,
    controlAttempts: nat)

  /** What the manager tells the outside of its transfer. */
  datatype Report = Report(state: Status, percent: nat)

  const CLEAR: IncrementTracker := IncrementTracker(0, 0, 0, 0, 0, MAX_INCREMENT_KB, 0, 0, 0, [], {}, {}, {}, 0)

  lemma DoneIs(b: Bridge, radio: Radio)
    ensures var pct := Percent(b.geo, b.increment);
            IncrementDone(b, radio)
            == if b.geo.IsLast(b.increment)
               then SendEnd(b.(percent := pct).(phase := Ending, attempts := 0, status := VERIFYING), radio)
               else Quiet(RequestIncrement(b.(percent := pct).(
                      phase := Blasting, retries := 0, history := [], round := 0, increment := Next16(b.increment), gaps := {})))
  {
  }

  class OtaManager {
    const config: Config

    var state: Phase
    var report: Report
    var tracker: IncrementTracker
    var pendingChunks: seq<Chunk>
    var offer: Offer

    var timers: Timers

    ghost var air: seq<Frame>  // the frames the radio took

    ghost function Geo(): Geometry
      reads this
    {
      if state == Idle || state == Announcing then NONE
      else Geometry(offer.fileSize, offer.negotiatedChunk, tracker.bufferSizeKb, tracker.chunksPerIncrement,
                    tracker.totalChunks, tracker.totalIncrements, tracker.chunksInLastIncrement)
    }

    /** The state machine's view of the manager. */
    ghost function View(): Bridge
      reads this
    {
      Bridge(state, report.state, report.percent, offer.fileSize, offer.action, offer.requestedChunk, offer.announceTx,
             offer.controlAttempts, Geo(), tracker.currentIncrement, tracker.retransmitRound, tracker.retries,
             tracker.history, tracker.gaps, tracker.requested, tracker.sent, pendingChunks)
    }

    /** Queued chunks fit into a frame, the public state follows the phase, and an idle manager's clock stands still. */
    ghost predicate Fits()
      reads this
    {
      && (state == Idle ==> Stamps() == STOPPED)
      && (state != Idle ==> offer.requestedChunk + DATA_HEADER <= offer.maxPlaintext)
      && (state == Blasting || state == WaitingGaps ==> report.state == TRANSFERRING)
      && (state != Idle && state != Announcing ==> 0 < offer.negotiatedChunk <= offer.requestedChunk)
      && (forall i :: 0 <= i < |pendingChunks| ==> |pendingChunks[i].data| <= offer.requestedChunk)
    }

    /** The manager's time stamps. */
    function Stamps(): Clock
      reads this
    {
      Clock(timers, tracker.blastCompleteSentMs, tracker.lastRemoteMs)
    }

    constructor ()
      ensures View() == Cleared(STATUS_IDLE, 0) && air == [] && Fits() && Stamps() == STOPPED && config == DEFAULT
    {
      config := DEFAULT;
      state, report, tracker, pendingChunks := Idle, Report(STATUS_IDLE, 0), CLEAR, [];
      offer, timers := Offer(0, 0, 0, 0, 0, 0, 0), ZERO;
      air := [];
    }

    /** Back to idle; the public state and percentage stay. */
    method Reset()
      modifies this
      ensures View() == Cleared(old(report.state), old(report.percent)) && Stamps() == STOPPED
      ensures air == old(air) && offer.maxPlaintext == old(offer.maxPlaintext)
    {
      state, tracker, pendingChunks := Idle, CLEAR, [];
      offer, timers := Offer(0, 0, 0, 0, offer.maxPlaintext, 0, 0), ZERO;
    }

    method FailTransfer(notify: bool)
      modifies this
      ensures View() == Fail(old(View()), notify).bridge && air == old(air) + Fail(old(View()), notify).frames
      ensures Stamps() == STOPPED
    {
      report := report.(state := FAIL);
      if notify { air := air + [Abort]; }
      Reset();
    }

    /** After the radio ran out of memory: wait longer each time, but never longer than the maximum. */
    method MarkNoMemBackoff(now: nat)
      modifies this`timers
      ensures timers == ShortOfMemory(config, old(timers), now)
    {
      var errors := (timers.consecutiveNoMemErrors + 1) % 0x100;
      var shift: nat := if errors == 0 || errors > 8 then 7 else errors - 1;
      var backoff, i := config.noMemBackoffMs, 0;
      while i < shift
        invariant i <= shift && backoff == Doubled(config.noMemBackoffMs, i)
      {
        backoff, i := 2 * backoff, i + 1;
      }
      timers := timers.(noMemBackoffUntilMs := now + Min(backoff, config.maxNoMemBackoffMs), consecutiveNoMemErrors := errors);
    }

    method ClearNoMemBackoff()
      modifies this`timers
      ensures timers == Recovered(old(timers))
    {
      timers := timers.(noMemBackoffUntilMs := 0, consecutiveNoMemErrors := 0);
    }

    method DecayNoMemBackoff()
      modifies this`timers
      ensures timers == Eased(old(timers))
    {
      if timers.consecutiveNoMemErrors > 0 {
        timers := timers.(consecutiveNoMemErrors := timers.consecutiveNoMemErrors / 2);
        if timers.consecutiveNoMemErrors == 0 { timers := timers.(noMemBackoffUntilMs := 0); }
      }
    }

    method TrySendAnnounce(now: nat, radio: Radio)
      requires state == Announcing && Fits()
      modifies this
      ensures View() == SendAnnounce(old(View()), radio).bridge && air == old(air) + SendAnnounce(old(View()), radio).frames
      ensures Fits() && Stamps() == if state == Idle then STOPPED else ControlSent(config, old(Stamps()), radio, now)
    {
      if offer.controlAttempts >= MAX_CONTROL_RETRIES {
        FailTransfer(true);
      } else if radio.NoMemory? {
        MarkNoMemBackoff(now);
      } else {
        ClearNoMemBackoff();
        if !radio.Sent? {
          FailTransfer(false);
        } else {
          air := air + [Announce(radio.tx, offer.fileSize, offer.action, offer.requestedChunk)];
          offer := offer.(announceTx := radio.tx, controlAttempts := offer.controlAttempts + 1);
          timers := timers.(lastControlSendMs := now);
        }
      }
    }

    method TrySendBlastComplete(now: nat, radio: Radio)
      requires (state == Blasting || state == WaitingGaps) && Fits()
      modifies this
      ensures View() == SendBlastComplete(old(View()), radio).bridge
      ensures air == old(air) + SendBlastComplete(old(View()), radio).frames
      ensures Fits() && Stamps() == if state == Idle then STOPPED else QuestionSent(config, old(Stamps()), radio, now)
    {
      if radio.NoMemory? {
        MarkNoMemBackoff(now);
      } else {
        ClearNoMemBackoff();
        if radio.Sent? {
          air := air + [BlastComplete(radio.tx, tracker.currentIncrement)];
          var h := tracker.history + [radio.tx];
          if |h| > HISTORY_LENGTH { h := h[1..]; }
          tracker := tracker.(history := h, blastCompleteSentMs := now, retries := tracker.retries + 1);
          state := WaitingGaps;
        } else if radio.NotFound? {
          FailTransfer(false);
        }
      }
    }

    method TrySendEnd(now: nat, radio: Radio)
      requires state == Ending && Fits()
      modifies this
      ensures View() == SendEnd(old(View()), radio).bridge
      ensures air == old(air) + SendEnd(old(View()), radio).frames
      ensures Fits() && Stamps() == if state == Idle then STOPPED else ControlSent(config, old(Stamps()), radio, now)
    {
      if offer.controlAttempts >= MAX_CONTROL_RETRIES {
        FailTransfer(true);
      } else if radio.Sent? {
        ClearNoMemBackoff();
        air := air + [End];
        offer := offer.(controlAttempts := offer.controlAttempts + 1);
        timers := timers.(lastControlSendMs := now);
      } else {
        FailTransfer(!radio.NotFound?);
      }
    }

    method PrepareTransfer(size: nat, act: byte, maxPayload: nat, now: nat)
      requires state == Idle && ClampChunk(maxPayload) >= MIN_CHUNK
      modifies this
      ensures View() == Started(size, act, maxPayload)
      ensures air == old(air) && Fits() && Stamps() == STOPPED.(timers := ZERO.(transferStartedMs := now))
    {
      Reset();
      var chunk := ClampChunk(maxPayload);
      offer := Offer(size, act, chunk, chunk, maxPayload - (HEADER_OVERHEAD - DATA_HEADER), 0, 0);
      timers := timers.(transferStartedMs := now);
      report, state := Report(START_RECEIVED, 0), Announcing;
    }

    method StartTransfer(size: nat, act: byte, maxPayload: nat, now: nat, radio: Radio) returns (ok: bool)
      requires Fits()
      modifies this
      ensures View() == DoStart(old(View()), size, act, maxPayload, radio).bridge
      ensures air == old(air) + DoStart(old(View()), size, act, maxPayload, radio).frames
      ensures Fits() && Stamps() == ClockAfter(config, old(View()), old(Stamps()), Start(size, act, maxPayload, radio), now)
      ensures ok <==> CanStart(old(View()), size, maxPayload) && state != Idle
    {
      ok := 0 < size <= MAX_FILE_SIZE && state == Idle && ClampChunk(maxPayload) >= MIN_CHUNK;
      if ok {
        PrepareTransfer(size, act, maxPayload, now);
        TrySendAnnounce(now, radio);
        ok := state != Idle;
      }
    }

    /** The numbers `lo`, ..., `hi - 1`, inserted one by one. */
    static method Sequences(lo: nat, hi: nat) returns (wanted: set<nat>)
      ensures wanted == Interval(lo, hi)
    {
      wanted := {};
      var s := lo;
      while s < hi
        invariant lo <= s && (s <= hi || s == lo)
        invariant wanted == Interval(lo, s)
      {
        IntervalSnoc(lo, s);
        wanted := wanted + {s};
        s := s + 1;
      }
    }

    /** Asks for every chunk of the increment, or for the gaps in a retransmit round. */
    method RequestIncrementChunks()
      requires state == Blasting
      modifies this`tracker
      ensures View() == RequestIncrement(old(View()))
      ensures tracker == old(tracker).(requested := tracker.requested, sent := {})
    {
      var wanted := tracker.gaps;
      if tracker.retransmitRound == 0 {
        wanted := Sequences(tracker.StartSeq(), tracker.EndSeq());
        assert wanted == Geo().Range(tracker.currentIncrement);
      }
      tracker := tracker.(requested := wanted, sent := {});
    }

    method OnSourceChunk(s: nat, data: bytes) returns (accepted: bool)
      requires Fits()
      modifies this`tracker, this`pendingChunks
      ensures View() == DoSource(old(View()), s, data)
      ensures accepted <==> View() != old(View())
      ensures Fits() && Stamps() == old(Stamps())
    {
      if state != Blasting || s !in tracker.requested {
        return false;
      }
      var expected := ExpectedChunkLen(s);
      if expected == 0 || |data| != expected {
        return false;
      }
      pendingChunks := pendingChunks + [Chunk(s, data)];
      tracker := tracker.(requested := tracker.requested - {s});
      assert s !in tracker.requested;
      return true;
    }

    function ExpectedChunkLen(s: nat): (len: nat)
      reads this
      ensures len <= offer.negotiatedChunk
      ensures state != Idle && state != Announcing ==> len == Geo().ExpectedLen(s)
    {
      if offer.negotiatedChunk == 0 || s >= tracker.totalChunks then 0
      else
        var offset := s * offer.negotiatedChunk;
        if offset >= offer.fileSize then 0 else Min(offer.fileSize - offset, offer.negotiatedChunk)
    }

    method OnSourceAbort()
      requires Fits()
      modifies this
      ensures View() == Step(old(View()), GiveUp(true)).bridge
      ensures air == old(air) + Step(old(View()), GiveUp(true)).frames
      ensures Fits() && Stamps() == STOPPED
    {
      if state != Idle { FailTransfer(true); }
    }

    method PumpBlasting()
      requires state == Blasting && report.state == TRANSFERRING
      modifies this`tracker, this`report
      ensures View() == Rerequest(old(View())) && Stamps() == old(Stamps())
    {
      if tracker.requested == {} && tracker.sent == {} && pendingChunks == [] {
        RequestIncrementChunks();
        report := report.(state := TRANSFERRING);
      }
    }

    /** Hands one chunk to the radio. The size check that would abort the transfer never fires. */
    method SendChunk(c: Chunk, now: nat, radio: Radio) returns (ok: bool)
      requires state == Blasting && Fits() && |c.data| <= offer.requestedChunk
      modifies this`timers, this`tracker, this`air
      ensures ok == radio.Sent?
      ensures tracker == old(tracker).(lastRemoteMs := tracker.lastRemoteMs)
      ensures Stamps() == ChunkSent(config, old(Stamps()), radio, now)
      ensures air == old(air) + if ok then [Data(c.seqNo, c.data)] else []
    {
      assert DATA_HEADER + |c.data| <= offer.maxPlaintext;
      ok := false;
      if radio.NoMemory? {
        MarkNoMemBackoff(now);
      } else {
        DecayNoMemBackoff();
        if radio.Sent? {
          air := air + [Data(c.seqNo, c.data)];
          timers := timers.(lastChunkSendMs := now);
          tracker := tracker.(lastRemoteMs := now);
          ok := true;
        }
      }
    }

    method PumpQueuedChunks(now: nat, first: Radio, second: Radio)
      requires state == Blasting && Fits()
      modifies this
      ensures View() == PumpQueue(old(View()), first, second).bridge
      ensures air == old(air) + PumpQueue(old(View()), first, second).frames
      ensures Fits() && Stamps() == if state == Idle then STOPPED else Pumped(config, old(View()), old(Stamps()), first, second, now)
    {
      if pendingChunks == [] {
        if tracker.requested == {} && tracker.sent != {} {
          TrySendBlastComplete(now, first);
        }
        return;
      }
      var head := pendingChunks[0];
      var ok := SendChunk(head, now, first);
      if ok {
        tracker := tracker.(sent := tracker.sent + {head.seqNo});
        pendingChunks := pendingChunks[1..];
        assert View() == HeadSent(old(View()));
        if pendingChunks == [] && tracker.requested == {} {
          TrySendBlastComplete(now, second);
        }
      }
    }

    method HandleAccept(trailing: bytes, now: nat)
      requires state == Announcing && Fits()
      modifies this
      ensures View() == DoAccept(old(View()), trailing).bridge
      ensures air == old(air) + DoAccept(old(View()), trailing).frames
      ensures Fits() && Stamps() == if state == Idle then STOPPED else old(Stamps()).(remoteMs := now)
    {
      if |trailing| < 4 {
        FailTransfer(true);
        return;
      }
      var chunk, kb := Le16(trailing[0], trailing[1]), trailing[2] as nat;
      if trailing[3] != offer.action || chunk == 0 || chunk > offer.requestedChunk || kb == 0 {
        FailTransfer(true);
        return;
      }
      TakeGeometry(chunk, kb, now);
      RequestIncrementChunks();
    }

    /** The tracker's geometry fields, each stored in its own width. */
    static method ComputeGeometry(size: nat, chunk: nat, kb: nat) returns (t: IncrementTracker)
      requires chunk > 0
      ensures t == CLEAR.(bufferSizeKb := t.bufferSizeKb, chunksPerIncrement := t.chunksPerIncrement,
                          totalChunks := t.totalChunks, totalIncrements := t.totalIncrements,
                          chunksInLastIncrement := t.chunksInLastIncrement)
      ensures Geometry(size, chunk, t.bufferSizeKb, t.chunksPerIncrement, t.totalChunks, t.totalIncrements, t.chunksInLastIncrement)
              == Negotiate(size, chunk, kb)
    {
      var effectiveKb := Min(kb, MAX_INCREMENT_KB);
      var per, chunks := PerIncrement(chunk, effectiveKb), CeilDiv(size, chunk);
      var increments := StoredIncrements(chunks, per);
      var last := StoredLast(chunks, increments, per);
      t := CLEAR.(bufferSizeKb := effectiveKb, chunksPerIncrement := per, totalChunks := chunks,
                  totalIncrements := increments, chunksInLastIncrement := last);
    }

    method TakeGeometry(chunk: nat, kb: nat, now: nat)
      requires state == Announcing && Fits() && 0 < chunk <= offer.requestedChunk
      modifies this
      ensures View() == old(View()).(phase := Blasting, status := TRANSFERRING, percent := 0, attempts := 0,
                                     geo := Negotiate(old(offer.fileSize), chunk, kb),
                                     increment := 0, round := 0, retries := 0, history := [])
      ensures air == old(air) && Fits() && Stamps() == old(Stamps()).(remoteMs := now)
    {
      var t := ComputeGeometry(offer.fileSize, chunk, kb);
      tracker := t.(gaps := tracker.gaps, requested := tracker.requested, sent := tracker.sent,
                    blastCompleteSentMs := tracker.blastCompleteSentMs, lastRemoteMs := now);
      offer := offer.(negotiatedChunk := chunk, controlAttempts := 0);
      report, state := Report(TRANSFERRING, 0), Blasting;
    }

    /** The time stamps after a report that the leaf has already been heard with: only the end of the file, if it goes out, changes them. */
    function AfterReport(c: Clock, now: nat): Clock
      reads this`state
    {
      if state == Idle then STOPPED
      else if state == Ending then c.(timers := Recovered(c.timers).(lastControlSendMs := now))
      else c
    }

    method HandleGapsAck(trailing: bytes, now: nat, radio: Radio)
      requires state == WaitingGaps && Fits()
      modifies this
      ensures View() == DoGaps(old(View()), trailing, radio).bridge
      ensures air == old(air) + DoGaps(old(View()), trailing, radio).frames
      ensures Fits() && Stamps() == AfterReport(old(Stamps()), now)
    {
      if |trailing| < 2 || |trailing| < 2 + Le16(trailing[0], trailing[1]) {
        FailTransfer(true);
      } else if Le16(trailing[0], trailing[1]) == 0 {
        FinishIncrement(now, radio);
      } else {
        TakeBitmap(trailing[2..2 + Le16(trailing[0], trailing[1])], now);
      }
    }

    method FinishIncrement(now: nat, radio: Radio)
      requires state == WaitingGaps && Fits()
      modifies this
      ensures View() == IncrementDone(old(View()), radio).bridge
      ensures air == old(air) + IncrementDone(old(View()), radio).frames
      ensures Fits() && Stamps() == AfterReport(old(Stamps()), now)
    {
      DoneIs(View(), radio);
      report := report.(percent := ReportedPercent());
      if tracker.IsLastIncrement() {
        BeginEnding(now, radio);
      } else {
        BeginIncrement([]);
      }
    }

    method BeginEnding(now: nat, radio: Radio)
      requires state == WaitingGaps && Fits()
      modifies this
      ensures View() == SendEnd(old(View()).(phase := Ending, attempts := 0, status := VERIFYING), radio).bridge
      ensures air == old(air) + SendEnd(old(View()).(phase := Ending, attempts := 0, status := VERIFYING), radio).frames
      ensures Fits() && Stamps() == AfterReport(old(Stamps()), now) && (state == Idle || state == Ending)
    {
      state, offer, report := Ending, offer.(controlAttempts := 0), report.(state := VERIFYING);
      TrySendEnd(now, radio);
    }

    /** On to the next increment, keeping `history`. */
    method BeginIncrement(history: seq<nat>)
      requires state == WaitingGaps && Fits()
      modifies this`state, this`tracker
      ensures View() == RequestIncrement(old(View()).(
                phase := Blasting, retries := 0, history := history, round := 0,
                increment := Next16(old(View()).increment), gaps := {}))
      ensures Fits() && Stamps() == old(Stamps())
    {
      tracker := tracker.(retries := 0, history := history, retransmitRound := 0,
                          currentIncrement := Next16(tracker.currentIncrement), gaps := {});
      state := Blasting;
      RequestIncrementChunks();
    }

    method BeginRetransmit(gaps: set<nat>)
      requires state == WaitingGaps && Fits()
      modifies this`state, this`tracker
      ensures View() == old(View()).(phase := Blasting, round := old(View()).round + 1, retries := 0, history := [],
                                     gaps := gaps, requested := gaps, sent := {})
      ensures Fits() && Stamps() == old(Stamps())
    {
      tracker := tracker.(retransmitRound := tracker.retransmitRound + 1, retries := 0, history := [],
                          gaps := gaps, requested := gaps, sent := {});
      state := Blasting;
    }

    function ReportedPercent(): (pct: nat)
      reads this
      ensures state != Idle && state != Announcing ==> pct == Percent(Geo(), tracker.currentIncrement)
    {
      if offer.fileSize == 0 then 0
      else
        var done := Min(offer.fileSize, (tracker.currentIncrement + 1) * tracker.chunksPerIncrement * offer.negotiatedChunk);
        var pct := Min(100, done * 100 / offer.fileSize);
        if pct >= 100 then 99 else pct
    }

    method TakeBitmap(bitmap: bytes, ghost now: nat)
      requires state == WaitingGaps && Fits()
      modifies this
      ensures View() == MissingChunks(old(View()), bitmap).bridge
      ensures air == old(air) + MissingChunks(old(View()), bitmap).frames
      ensures Fits() && Stamps() == AfterReport(old(Stamps()), now) && state != Ending
    {
      if tracker.retransmitRound >= MAX_RETRANSMIT_ROUNDS {
        FailTransfer(true);
        return;
      }
      var gaps := ReadGaps(bitmap, tracker.StartSeq(), tracker.ChunksInThisIncrement());
      if gaps == {} {
        BeginIncrement(tracker.history);
      } else {
        BeginRetransmit(gaps);
      }
    }

    /** The sequences of an increment whose bit is clear or missing. */
    static method ReadGaps(bitmap: bytes, start: nat, n: nat) returns (gaps: set<nat>)
      ensures gaps == Gaps(bitmap, start, n)
    {
      gaps := {};
      var i := 0;
      while i < n
        invariant i <= n
        invariant gaps == Gaps(bitmap, start, i)
      {
        GapsSnoc(bitmap, start, i);
        var received := i / 8 < |bitmap| && Bit(bitmap[i / 8], i % 8);
        if !received { gaps := gaps + {start + i}; }
        i := i + 1;
      }
    }

    method HandleComplete(trailing: bytes)
      requires state != Idle
      modifies this
      ensures View() == DoComplete(old(View()), trailing).bridge && Stamps() == STOPPED
      ensures air == old(air) + DoComplete(old(View()), trailing).frames
    {
      if |trailing| < 2 || trailing[0] != offer.action || trailing[1] != COMPLETE_SUCCESS {
        FailTransfer(false);
      } else {
        report := Report(SUCCESS, 100);
        Reset();
      }
    }

    /** Whether an acknowledgement is one the transfer can use: neither of an unknown kind nor stale. */
    predicate IsCurrent(kind: AckKind, ref: nat)
      reads this`state, this`offer, this`tracker
    {
      match kind
      case ACCEPT => state == Announcing ==> ref == offer.announceTx
      case GAPS => state == WaitingGaps ==> ref in tracker.history
      case OTHER => false
      case _ => true
    }

    /** An acknowledgement; `mine` says whether it is for file transfers and from this transfer's leaf. */
    method OnFileAck(mine: bool, kind: AckKind, ref: nat, trailing: bytes, now: nat, radio: Radio) returns (handled: bool)
      requires Fits()
      modifies this
      ensures Fits() && handled == (mine && old(state != Idle && IsCurrent(kind, ref)))
      ensures !mine ==> View() == old(View()) && air == old(air) && Stamps() == old(Stamps())
      ensures mine ==>
                && View() == DoAck(old(View()), kind, ref, trailing, radio).bridge
                && air == old(air) + DoAck(old(View()), kind, ref, trailing, radio).frames
                && Stamps() == ClockAfter(config, old(View()), old(Stamps()), Ack(kind, ref, trailing, radio), now)
    {
      handled := mine && state != Idle && IsCurrent(kind, ref);
      if !mine || state == Idle {
        return;
      }
      tracker := tracker.(lastRemoteMs := now);
      TakeAck(kind, ref, trailing, now, radio);
      ClockAfterAck(config, old(View()), old(Stamps()), kind, ref, trailing, radio, now, View());
    }

    method TakeAck(kind: AckKind, ref: nat, trailing: bytes, now: nat, radio: Radio)
      requires Fits() && state != Idle && tracker.lastRemoteMs == now
      modifies this
      ensures View() == DoAck(old(View()), kind, ref, trailing, radio).bridge
      ensures air == old(air) + DoAck(old(View()), kind, ref, trailing, radio).frames
      ensures Fits() && Stamps() == if state == Idle then STOPPED else Heard(old(Stamps()), old(state) != Ending && state == Ending, now)
    {
      match kind {
        case ACCEPT =>
          if state == Announcing && ref == offer.announceTx { HandleAccept(trailing, now); }
        case REJECT => FailTransfer(false);
        case GAPS =>
          if state == WaitingGaps && ref in tracker.history { HandleGapsAck(trailing, now, radio); }
        case COMPLETE => HandleComplete(trailing);
        case ABORT => FailTransfer(false);
        case OTHER =>
      }
    }

    method Loop(now: nat, reachable: bool, first: Radio, second: Radio) returns (ghost e: Event)
      requires Fits()
      modifies this
      ensures e == old(TickEvent(config, View(), Stamps(), now, reachable, first, second))
      ensures View() == Step(old(View()), e).bridge
      ensures air == old(air) + Step(old(View()), e).frames
      ensures Fits() && Stamps() == ClockAfter(config, old(View()), old(Stamps()), e, now)
    {
      e := TickEvent(config, View(), Stamps(), now, reachable, first, second);
      if state == Idle {
        return;
      }
      if !reachable {
        FailTransfer(false);
        return;
      }
      if config.globalTimeoutMs > 0 && now - timers.transferStartedMs > config.globalTimeoutMs {
        FailTransfer(true);
        return;
      }
      if now < timers.noMemBackoffUntilMs {
        return;
      }
      var silent := IsSilent(now);
      if silent {
        FailTransfer(true);
        return;
      }
      Tick(now, first, second);
    }

    method IsSilent(now: nat) returns (silent: bool)
      ensures silent == Silent(View(), Stamps(), now)
    {
      silent := false;
      if tracker.lastRemoteMs > 0 && (state == Blasting || state == WaitingGaps) {
        var limit := if state == WaitingGaps then WAITING_GAPS_TIMEOUT_MS else RADIO_SILENCE_ABORT_MS;
        silent := now - tracker.lastRemoteMs > limit;
      }
    }

    method Tick(now: nat, first: Radio, second: Radio)
      requires Fits() && state != Idle
      modifies this
      ensures var e := old(PhaseEvent(config, View(), Stamps(), now, first, second));
              && View() == Step(old(View()), e).bridge
              && air == old(air) + Step(old(View()), e).frames
              && Stamps() == ClockAfter(config, old(View()), old(Stamps()), e, now)
      ensures Fits()
    {
      match state {
        case Blasting =>
          if !CoolingDown(config, timers, now) { TickBlasting(now, first, second); }
        case WaitingGaps =>
          if tracker.blastCompleteSentMs > 0 && now - tracker.blastCompleteSentMs >= BLAST_COMPLETE_TIMEOUT_MS {
            TickWaiting(now, first);
          }
        case Announcing =>
          if offer.controlAttempts == 0 || now - timers.lastControlSendMs >= ANNOUNCE_TIMEOUT_MS { TickControl(now, first); }
        case Ending =>
          if offer.controlAttempts == 0 || now - timers.lastControlSendMs >= ANNOUNCE_TIMEOUT_MS { TickControl(now, first); }
        case Idle =>
      }
    }

    method TickBlasting(now: nat, first: Radio, second: Radio)
      requires Fits() && state == Blasting
      modifies this
      ensures View() == Step(old(View()), Blast(first, second)).bridge && air == old(air) + Step(old(View()), Blast(first, second)).frames
      ensures Fits() && Stamps() == ClockAfter(config, old(View()), old(Stamps()), Blast(first, second), now)
    {
      PumpBlasting();
      PumpQueuedChunks(now, first, second);
    }

    method TickWaiting(now: nat, radio: Radio)
      requires Fits() && state == WaitingGaps
      modifies this
      ensures View() == Step(old(View()), Control(radio)).bridge && air == old(air) + Step(old(View()), Control(radio)).frames
      ensures Fits() && Stamps() == ClockAfter(config, old(View()), old(Stamps()), Control(radio), now)
    {
      if tracker.retries >= MAX_BLAST_COMPLETE_RETRIES {
        FailTransfer(true);
      } else {
        TrySendBlastComplete(now, radio);
      }
    }

    method TickControl(now: nat, radio: Radio)
      requires Fits() && (state == Announcing || state == Ending)
      modifies this
      ensures View() == Step(old(View()), Control(radio)).bridge && air == old(air) + Step(old(View()), Control(radio)).frames
      ensures Fits() && Stamps() == ClockAfter(config, old(View()), old(Stamps()), Control(radio), now)
    {
      if state == Announcing {
        TrySendAnnounce(now, radio);
      } else {
        TrySendEnd(now, radio);
      }
    }
  }
}
