/**
 The bridge's time stamps, on values: what each event sets them to, and which event a tick of the loop
 amounts to. From the two follows when a question is put again and how soon the bridge can give up.
 */
module BridgeClock {
  import opened Bytes
  import opened Transfer
  import opened TransferMoves

  const ANNOUNCE_TIMEOUT_MS: nat := 5000
  const BLAST_COMPLETE_TIMEOUT_MS: nat := 1000
  const WAITING_GAPS_TIMEOUT_MS: nat := 45000

  datatype Config = Config(globalTimeoutMs: nat, noMemBackoffMs: nat, maxNoMemBackoffMs: nat, txCooldownMs: nat)

  const DEFAULT: Config := Config(900000, 5, 250, 2)

  /** The manager's time stamps and its memory-shortage counter. */
  datatype Timers = Timers(
    transferStartedMs: nat,
    lastControlSendMs: nat,
    lastChunkSendMs: nat,
    noMemBackoffUntilMs: nat,
    consecutiveNoMemErrors: nat)

  const ZERO: Timers := Timers(0, 0, 0, 0, 0)

  /** The timers, when the current question went out, and when the leaf was last heard of. */
  datatype Clock = Clock(timers: Timers, askedMs: nat, remoteMs: nat)

  const STOPPED: Clock := Clock(ZERO, 0, 0)

  // A radio without memory.

  function Doubled(n: nat, k: nat): nat
    decreases k
  {
    if k == 0 then n else 2 * Doubled(n, k - 1)
  }

  /** How often the wait has doubled at the so-manieth shortage in a row, counted in one byte. */
  function Doublings(errors: nat): nat { if errors == 0 || errors > 8 then 7 else errors - 1 }

  function Backoff(config: Config, errors: nat): nat {
    Min(Doubled(config.noMemBackoffMs, Doublings(errors)), config.maxNoMemBackoffMs)
  }

  function ShortOfMemory(config: Config, t: Timers, now: nat): Timers {
    var errors := (t.consecutiveNoMemErrors + 1) % 0x100;
    t.(noMemBackoffUntilMs := now + Backoff(config, errors), consecutiveNoMemErrors := errors)
  }

  function Recovered(t: Timers): Timers { t.(noMemBackoffUntilMs := 0, consecutiveNoMemErrors := 0) }

  function Eased(t: Timers): Timers {
    t.(consecutiveNoMemErrors := t.consecutiveNoMemErrors / 2,
       noMemBackoffUntilMs := if t.consecutiveNoMemErrors == 1 then 0 else t.noMemBackoffUntilMs)
  }

  lemma {:induction false} DoubledMore(n: nat, j: nat, k: nat)
    requires j <= k
    ensures Doubled(n, j) <= Doubled(n, k)
    decreases k
  {
    if j < k { DoubledMore(n, j, k - 1); }
  }

  /** As long as the counter has not gone round, waits never get shorter; they double up to the eighth, and stay within the maximum. */
  lemma BackoffGrows(config: Config, errors: nat)
    requires 0 < errors < 0xFF
    ensures Backoff(config, errors) <= Backoff(config, errors + 1) <= config.maxNoMemBackoffMs
    ensures errors < 8 ==> Backoff(config, errors + 1) == Min(2 * Backoff(config, errors), config.maxNoMemBackoffMs)
    ensures Backoff(config, 1) == Min(config.noMemBackoffMs, config.maxNoMemBackoffMs)
  {
    DoubledMore(config.noMemBackoffMs, Doublings(errors), Doublings(errors + 1));
  }

  // What events do to the clock. It stands still while there is no transfer.

  function ControlSent(config: Config, c: Clock, radio: Radio, now: nat): Clock {
    if radio.NoMemory? then c.(timers := ShortOfMemory(config, c.timers, now))
    else if radio.Sent? then c.(timers := Recovered(c.timers).(lastControlSendMs := now))
    else c.(timers := Recovered(c.timers))
  }

  function QuestionSent(config: Config, c: Clock, radio: Radio, now: nat): Clock {
    if radio.NoMemory? then c.(timers := ShortOfMemory(config, c.timers, now))
    else if radio.Sent? then c.(timers := Recovered(c.timers), askedMs := now)
    else c.(timers := Recovered(c.timers))
  }

  function ChunkSent(config: Config, c: Clock, radio: Radio, now: nat): Clock {
    if radio.NoMemory? then c.(timers := ShortOfMemory(config, c.timers, now))
    else if radio.Sent? then c.(timers := Eased(c.timers).(lastChunkSendMs := now), remoteMs := now)
    else c.(timers := Eased(c.timers))
  }

  /** After the pump: a chunk, a question, or a chunk and then a question. */
  function Pumped(config: Config, b: Bridge, c: Clock, first: Radio, second: Radio, now: nat): Clock {
    if b.pending == [] then
      if b.requested == {} && b.sent != {} then QuestionSent(config, c, first, now) else c
    else
      var c' := ChunkSent(config, c, first, now);
      if first.Sent? && |b.pending| == 1 && b.requested == {} then QuestionSent(config, c', second, now) else c'
  }

  /** After the leaf's word: it has been heard of, and if that brings on the end, that goes out now. */
  function Heard(c: Clock, ends: bool, now: nat): Clock {
    var c' := c.(remoteMs := now);
    if ends then c'.(timers := Recovered(c.timers).(lastControlSendMs := now)) else c'
  }

  function ClockAfter(config: Config, b: Bridge, c: Clock, e: Event, now: nat): Clock {
    var b' := Step(b, e).bridge;
    if !b'.Busy() then STOPPED
    else match e
      case Start(_, _, _, radio) =>
        if b.Busy() then c else ControlSent(config, STOPPED.(timers := ZERO.(transferStartedMs := now)), radio, now)
      case Ack(_, _, _, _) => Heard(c, b.phase != Ending && b'.phase == Ending, now)
      case Control(radio) =>
        if b.phase == WaitingGaps then QuestionSent(config, c, radio, now)
        else if b.phase == Blasting then c
        else ControlSent(config, c, radio, now)
      case Blast(first, second) => if b.phase == Blasting then Pumped(config, Rerequest(b), c, first, second, now) else c
      case _ => c
  }

  lemma ClockAfterAck(config: Config, b: Bridge, c: Clock, kind: AckKind, ref: nat, trailing: bytes, radio: Radio, now: nat, b': Bridge)
    requires b' == DoAck(b, kind, ref, trailing, radio).bridge
    ensures ClockAfter(config, b, c, Ack(kind, ref, trailing, radio), now)
         == if b'.Busy() then Heard(c, b.phase != Ending && b'.phase == Ending, now) else STOPPED
  {
  }

  // What a tick of the loop amounts to.

  predicate Silent(b: Bridge, c: Clock, now: nat) {
    && c.remoteMs > 0 && (b.phase == Blasting || b.phase == WaitingGaps)
    && now - c.remoteMs > if b.phase == WaitingGaps then WAITING_GAPS_TIMEOUT_MS else RADIO_SILENCE_ABORT_MS
  }

  predicate CoolingDown(config: Config, t: Timers, now: nat) {
    config.txCooldownMs > 0 && t.lastChunkSendMs > 0 && now - t.lastChunkSendMs < config.txCooldownMs
  }

  predicate Overdue(config: Config, t: Timers, now: nat) {
    config.globalTimeoutMs > 0 && now - t.transferStartedMs > config.globalTimeoutMs
  }

  function PhaseEvent(config: Config, b: Bridge, c: Clock, now: nat, first: Radio, second: Radio): Event {
    if b.phase == Blasting then (if CoolingDown(config, c.timers, now) then Stutter else Blast(first, second))
    else if b.phase == WaitingGaps then
      (if c.askedMs > 0 && now - c.askedMs >= BLAST_COMPLETE_TIMEOUT_MS then Control(first) else Stutter)
    else if b.attempts == 0 || now - c.timers.lastControlSendMs >= ANNOUNCE_TIMEOUT_MS then Control(first)
    else Stutter
  }

  function TickEvent(config: Config, b: Bridge, c: Clock, now: nat, reachable: bool, first: Radio, second: Radio): Event {
    if !b.Busy() then Stutter
    else if !reachable then GiveUp(false)
    else if Overdue(config, c.timers, now) then GiveUp(true)
    else if now < c.timers.noMemBackoffUntilMs then Stutter
    else if Silent(b, c, now) then GiveUp(true)
    else PhaseEvent(config, b, c, now, first, second)
  }

  // Ticks in a row.

  datatype Tick = Tick(now: nat, first: Radio, second: Radio)

  datatype Timed = Timed(bridge: Bridge, clock: Clock)

  function AfterTick(config: Config, s: Timed, t: Tick): Timed {
    var e := TickEvent(config, s.bridge, s.clock, t.now, true, t.first, t.second);
    Timed(Step(s.bridge, e).bridge, ClockAfter(config, s.bridge, s.clock, e, t.now))
  }

  function AfterTicks(config: Config, s: Timed, ticks: seq<Tick>): Timed {
    if ticks == [] then s else AfterTick(config, AfterTicks(config, s, ticks[..|ticks| - 1]), ticks[|ticks| - 1])
  }

  /** The radio knows the leaf, the transfer is not overdue, and the leaf has been heard of within the limit. */
  predicate Untroubled(config: Config, s: Timed, ticks: seq<Tick>) {
    forall i :: 0 <= i < |ticks| ==>
      && ticks[i].first != NotFound && ticks[i].now <= s.clock.remoteMs + WAITING_GAPS_TIMEOUT_MS
      && !Overdue(config, s.clock.timers, ticks[i].now)
  }

  /** How far a bridge that only asks again has come: each question a second after the one before. */
  predicate AskedInTime(s: Timed, s': Timed) {
    && s'.bridge.phase == WaitingGaps && s'.bridge.retries >= s.bridge.retries
    && s'.clock.remoteMs == s.clock.remoteMs && s'.clock.timers.transferStartedMs == s.clock.timers.transferStartedMs
    && s'.clock.askedMs >= s.clock.askedMs + 1000 * (s'.bridge.retries - s.bridge.retries)
  }

  lemma OneTick(config: Config, s: Timed, s1: Timed, t: Tick)
    requires AskedInTime(s, s1) && Untroubled(config, s, [t]) && s.clock.askedMs > 0
    ensures var s2 := AfterTick(config, s1, t);
            AskedInTime(s, s2)
            || (s2.bridge == Cleared(FAIL, s1.bridge.percent) && s1.bridge.retries >= 20 && t.now >= s1.clock.askedMs + 1000)
  {
    assert t == [t][0];
    assert !Overdue(config, s1.clock.timers, t.now);
    assert !Silent(s1.bridge, s1.clock, t.now);
  }

  /**
   With nothing but ticks, a bridge that has asked `k` times about a round gives it up only when it
   has asked 20 times and another second has passed, so not before `21 - k` seconds after the last
   question.
   */
  lemma {:induction false} NotTooSoon(config: Config, s: Timed, ticks: seq<Tick>)
    requires s.bridge.phase == WaitingGaps && 0 < s.bridge.retries <= 20 && s.clock.askedMs > 0 && Untroubled(config, s, ticks)
    ensures var s' := AfterTicks(config, s, ticks);
            AskedInTime(s, s')
            || (s'.bridge.phase == Idle && exists i :: 0 <= i < |ticks| && ticks[i].now >= s.clock.askedMs + 1000 * (21 - s.bridge.retries))
  {
    if ticks != [] {
      var n := |ticks| - 1;
      var s1 := AfterTicks(config, s, ticks[..n]);
      NotTooSoon(config, s, ticks[..n]);
      if AskedInTime(s, s1) {
        assert Untroubled(config, s, [ticks[n]]);
        OneTick(config, s, s1, ticks[n]);
      } else {
        var i :| 0 <= i < n && ticks[..n][i].now >= s.clock.askedMs + 1000 * (21 - s.bridge.retries);
        assert ticks[i].now >= s.clock.askedMs + 1000 * (21 - s.bridge.retries);
      }
    }
  }

  /** A question is put again at exactly the ticks a second or more after it last went out, unless the radio is to be spared. */
  lemma AskedAgainIff(config: Config, s: Timed, t: Tick)
    requires s.bridge.phase == WaitingGaps && s.bridge.retries < 20 && s.clock.askedMs > 0 && Untroubled(config, s, [t]) && t.first.Sent?
    ensures var s' := AfterTick(config, s, t);
            if t.now >= s.clock.timers.noMemBackoffUntilMs && t.now >= s.clock.askedMs + 1000
            then s'.bridge.retries == s.bridge.retries + 1 && s'.clock.askedMs == t.now
            else s' == s
  {
    assert t == [t][0];
  }

  /**
   An announcement or an end of file is put at exactly the ticks five seconds or more after it last went
   out, or at the first, if it has not gone out yet.
   */
  lemma ControlAgainIff(config: Config, s: Timed, t: Tick)
    requires (s.bridge.phase == Announcing || s.bridge.phase == Ending) && s.bridge.attempts < 3
    requires !Overdue(config, s.clock.timers, t.now) && t.now >= s.clock.timers.noMemBackoffUntilMs && t.first.Sent?
    ensures var s' := AfterTick(config, s, t);
            if s.bridge.attempts == 0 || t.now >= s.clock.timers.lastControlSendMs + 5000
            then s'.bridge.attempts == s.bridge.attempts + 1 && s'.clock.timers.lastControlSendMs == t.now
            else s' == s
  {
  }

  /**
   By default a tick gives a transfer up iff the leaf is not known any more, a quarter of an hour has
   passed, or, outside a back-off, the leaf has not been heard of for 45 seconds while its answer is
   awaited or for ten while chunks go out; the leaf is told unless it is not known.
   */
  lemma TickGivesUpIff(b: Bridge, c: Clock, now: nat, reachable: bool, first: Radio, second: Radio)
    requires b.Busy()
    ensures var e := TickEvent(DEFAULT, b, c, now, reachable, first, second);
            && (e.GiveUp? <==>
                  || !reachable || now > c.timers.transferStartedMs + 900000
                  || (now >= c.timers.noMemBackoffUntilMs && c.remoteMs > 0
                      && ((b.phase == WaitingGaps && now > c.remoteMs + 45000) || (b.phase == Blasting && now > c.remoteMs + 10000))))
            && (e.GiveUp? ==> e.notify == reachable)
  {
  }

  /**
   By default a tick that gives nothing up pumps while chunks go out, unless the last went out less than
   two milliseconds ago or the radio is to be spared.
   */
  lemma TickPumpsIff(b: Bridge, c: Clock, now: nat, first: Radio, second: Radio)
    requires b.phase == Blasting && !TickEvent(DEFAULT, b, c, now, true, first, second).GiveUp?
    ensures TickEvent(DEFAULT, b, c, now, true, first, second)
            == if now >= c.timers.noMemBackoffUntilMs && (c.timers.lastChunkSendMs == 0 || now >= c.timers.lastChunkSendMs + 2)
               then Blast(first, second) else Stutter
  {
  }

  // What the time stamps mean.

  /** An event at a time. */
  datatype Timely = Timely(e: Event, at: nat)

  function AfterEvent(config: Config, s: Timed, t: Timely): Timed {
    Timed(Step(s.bridge, t.e).bridge, ClockAfter(config, s.bridge, s.clock, t.e, t.at))
  }

  function AfterEvents(config: Config, s: Timed, ts: seq<Timely>): Timed {
    if ts == [] then s else AfterEvent(config, AfterEvents(config, s, ts[..|ts| - 1]), ts[|ts| - 1])
  }

  predicate StaysBusy(config: Config, s: Timed, ts: seq<Timely>) {
    AfterEvents(config, s, ts).bridge.Busy() && (ts != [] ==> StaysBusy(config, s, ts[..|ts| - 1]))
  }

  predicate SendsData(fs: seq<Frame>) { exists i :: 0 <= i < |fs| && fs[i].Data? }

  predicate SendsQuestion(fs: seq<Frame>) { exists i :: 0 <= i < |fs| && fs[i].BlastComplete? }

  predicate SendsControl(fs: seq<Frame>) { exists i :: 0 <= i < |fs| && (fs[i].Announce? || fs[i].End?) }

  /** What a time stamp keeps the time of. */
  datatype Mark = DataSent | QuestionPut | ControlPut | LeafHeardOf

  predicate Marks(m: Mark, b: Bridge, e: Event) {
    var fs := Step(b, e).frames;
    match m
    case DataSent => SendsData(fs)
    case QuestionPut => SendsQuestion(fs)
    case ControlPut => SendsControl(fs)
    case LeafHeardOf => SendsData(fs) || e.Ack?
  }

  function Stamp(c: Clock, m: Mark): nat {
    match m
    case DataSent => c.timers.lastChunkSendMs
    case QuestionPut => c.askedMs
    case ControlPut => c.timers.lastControlSendMs
    case LeafHeardOf => c.remoteMs
  }

  /** When it last happened. */
  function LastTime(config: Config, s: Timed, ts: seq<Timely>, m: Mark): nat {
    if ts == [] then Stamp(s.clock, m)
    else
      var front, last := ts[..|ts| - 1], ts[|ts| - 1];
      if Marks(m, AfterEvents(config, s, front).bridge, last.e) then last.at else LastTime(config, s, front, m)
  }

  lemma FramesFew(fs: seq<Frame>)
    ensures fs == [] ==> !SendsData(fs) && !SendsQuestion(fs) && !SendsControl(fs)
    ensures |fs| == 1 ==> (SendsData(fs) <==> fs[0].Data?) && (SendsQuestion(fs) <==> fs[0].BlastComplete?)
                          && (SendsControl(fs) <==> fs[0].Announce? || fs[0].End?)
    ensures |fs| == 2 ==> (SendsData(fs) <==> fs[0].Data? || fs[1].Data?) && (SendsQuestion(fs) <==> fs[0].BlastComplete? || fs[1].BlastComplete?)
                          && (SendsControl(fs) <==> fs[0].Announce? || fs[0].End? || fs[1].Announce? || fs[1].End?)
  {
    if |fs| >= 1 { assert fs[0] == fs[0]; }
    if |fs| == 2 { assert fs[1] == fs[1]; }
  }

  lemma PumpMarks(config: Config, b: Bridge, c: Clock, first: Radio, second: Radio, at: nat)
    requires b.phase == Blasting && PumpQueue(b, first, second).bridge.Busy()
    ensures var fs, c' := PumpQueue(b, first, second).frames, Pumped(config, b, c, first, second, at);
            && c'.timers.lastChunkSendMs == (if SendsData(fs) then at else c.timers.lastChunkSendMs)
            && c'.askedMs == (if SendsQuestion(fs) then at else c.askedMs)
            && c'.timers.lastControlSendMs == c.timers.lastControlSendMs && !SendsControl(fs)
            && c'.remoteMs == (if SendsData(fs) then at else c.remoteMs)
            && c'.timers.transferStartedMs == c.timers.transferStartedMs
  {
    FramesFew(PumpQueue(b, first, second).frames);
    if b.pending != [] && first.Sent? { assert b.pending[1..] == [] <==> |b.pending| == 1; }
  }

  lemma AckMarks(config: Config, s: Timed, t: Timely)
    requires s.bridge.Busy() && t.e.Ack? && AfterEvent(config, s, t).bridge.Busy()
    ensures var fs := Step(s.bridge, t.e).frames;
            && !SendsData(fs) && !SendsQuestion(fs)
            && (SendsControl(fs) <==> s.bridge.phase != Ending && AfterEvent(config, s, t).bridge.phase == Ending)
  {
    FramesFew(Step(s.bridge, t.e).frames);
  }

  /** Each event sets the stamps of what it brings about, and no others. */
  lemma EventMarks(config: Config, s: Timed, t: Timely, m: Mark)
    requires s.bridge.Busy() && AfterEvent(config, s, t).bridge.Busy()
    ensures Stamp(AfterEvent(config, s, t).clock, m) == if Marks(m, s.bridge, t.e) then t.at else Stamp(s.clock, m)
    ensures AfterEvent(config, s, t).clock.timers.transferStartedMs == s.clock.timers.transferStartedMs
  {
    FramesFew(Step(s.bridge, t.e).frames);
    match t.e
    case Ack(_, _, _, _) => AckMarks(config, s, t);
    case Blast(first, second) =>
      if s.bridge.phase == Blasting {
        assert Rerequest(s.bridge).phase == Blasting;
        PumpMarks(config, Rerequest(s.bridge), s.clock, first, second, t.at);
      }
    case _ =>
  }

  /** Over any run of a transfer, each time stamp is the time at which what it stands for last happened, and the start's stays. */
  lemma {:induction false} StampsAreTimes(config: Config, s: Timed, ts: seq<Timely>, m: Mark)
    requires StaysBusy(config, s, ts)
    ensures Stamp(AfterEvents(config, s, ts).clock, m) == LastTime(config, s, ts, m)
    ensures AfterEvents(config, s, ts).clock.timers.transferStartedMs == s.clock.timers.transferStartedMs
  {
    if ts != [] {
      var front, last := ts[..|ts| - 1], ts[|ts| - 1];
      StampsAreTimes(config, s, front, m);
      EventMarks(config, AfterEvents(config, s, front), last, m);
    }
  }

  /** A transfer's clock starts with the time of its start. */
  lemma StartSetsClock(config: Config, s: Timed, t: Timely)
    requires !s.bridge.Busy() && t.e.Start? && AfterEvent(config, s, t).bridge.Busy()
    ensures var c := AfterEvent(config, s, t).clock;
            c.timers.transferStartedMs == t.at && c.askedMs == 0 && c.remoteMs == 0 && c.timers.lastChunkSendMs == 0
            && c.timers.lastControlSendMs == if t.e.radio.Sent? then t.at else 0
  {
  }
}
