/**
 The leaf's time stamps, on values: what each frame sets them to and what a turn of its loop amounts to.
 From the two follows when a leaf gives a silent bridge up, and how it reports success before it restarts.
 */
module LeafClock {
  import opened Options
  import opened Bytes
  import opened Geometry
  import opened Transfer
  import opened Leaf

  const COMPLETE_ACK_RETRIES: int := 5
  const COMPLETE_ACK_INTERVAL_MS: int := 1000
  const RESTART_DELAY_MS: int := 250

  /** The receiver's time stamps, and what is left of its final reports. */
  datatype Timers = Timers(
    lastActivityMs: int,
    completeAcksLeft: int,
    nextCompleteAckMs: int,
    restartPending: bool,
    restartDueMs: int)

  const UNSET: Timers := Timers(0, 0, 0, false, 0)

  datatype Timed = Timed(leaf: Leaf, timers: Timers)

  /** A chunk of the current increment, with its length. */
  predicate Wanted(l: Leaf, s: nat, data: bytes) {
    l.phase == Receiving && s in l.geo.Range(l.increment) && data != [] && |data| == l.geo.ExpectedLen(s)
  }

  /** The transfer is forgotten; a restart that is due stays due. */
  function Unset(t: Timers): Timers { t.(lastActivityMs := 0, completeAcksLeft := 0, nextCompleteAckMs := 0) }

  /** A frame heard at `now`: all count as a sign of the bridge but chunks that are not wanted. */
  function Noticed(l: Leaf, t: Timers, f: Frame, now: int): Timers {
    if f.Data? && !Wanted(l, f.seqNo, f.data) then t else t.(lastActivityMs := now)
  }

  lemma ChunkNoticed(l: Leaf, t: Timers, s: nat, data: bytes, now: int)
    ensures Noticed(l, t, Data(s, data), now) == if Wanted(l, s, data) then t.(lastActivityMs := now) else t
  {
  }

  /** The timers once a frame has made `l'` of the leaf. */
  function Settled(l: Leaf, t: Timers, l': Leaf, now: int): Timers {
    if l.phase != Free && l'.phase == Free then Unset(t)
    else if l.phase != Finished && l'.phase == Finished then t.(completeAcksLeft := COMPLETE_ACK_RETRIES, nextCompleteAckMs := now)
    else t
  }

  function TimersAfter(l: Leaf, t: Timers, f: Frame, l': Leaf, now: int): Timers { Settled(l, Noticed(l, t, f, now), l', now) }

  /** What a turn of the loop amounts to at time `now`. */
  function TurnImpulse(l: Leaf, t: Timers, now: int): Option<Impulse> {
    if t.restartPending && now >= t.restartDueMs then Some(Reboot)
    else if l.phase == Finished then
      (if now - t.nextCompleteAckMs >= COMPLETE_ACK_INTERVAL_MS then Some(Repeat(t.completeAcksLeft == 1)) else None)
    else if l.phase != Free && now - t.lastActivityMs > RADIO_SILENCE_ABORT_MS then Some(Timeout(true))
    else None
  }

  function TimersAfterTurn(t: Timers, i: Option<Impulse>, now: int): Timers {
    match i
    case None => t
    case Some(Reboot) => Unset(t).(restartPending := false)
    case Some(Repeat(last)) =>
      if last then Unset(t).(restartPending := true, restartDueMs := now + RESTART_DELAY_MS)
      else t.(completeAcksLeft := t.completeAcksLeft - 1, nextCompleteAckMs := now)
    case Some(Timeout(_)) => Unset(t)
  }

  // Runs.

  /** Something that happens to the leaf at a time. */
  datatype Happening = Hears(frame: Frame, mood: Mood, at: int) | Turns(at: int)

  datatype Reaction = Reaction(after: Timed, acks: seq<AckFrame>)

  function React(s: Timed, h: Happening, maxChunk: nat): Reaction {
    match h
    case Hears(f, mood, now) =>
      var heard := Hear(s.leaf, f, maxChunk, mood);
      Reaction(Timed(heard.leaf, TimersAfter(s.leaf, s.timers, f, heard.leaf, now)), heard.acks)
    case Turns(now) =>
      var i := TurnImpulse(s.leaf, s.timers, now);
      var heard := if i.Some? then DoImpulse(s.leaf, i.value) else Heard(s.leaf, []);
      Reaction(Timed(heard.leaf, TimersAfterTurn(s.timers, i, now)), heard.acks)
  }

  function AfterAll(s: Timed, hs: seq<Happening>, maxChunk: nat): Timed {
    if hs == [] then s else React(AfterAll(s, hs[..|hs| - 1], maxChunk), hs[|hs| - 1], maxChunk).after
  }

  /** The leaf is in one transfer throughout. */
  predicate StaysIn(s: Timed, hs: seq<Happening>, maxChunk: nat) {
    && AfterAll(s, hs, maxChunk).leaf.phase != Free && AfterAll(s, hs, maxChunk).leaf.phase != Finished
    && (hs != [] ==> StaysIn(s, hs[..|hs| - 1], maxChunk))
  }

  /** The frame shows that the bridge is there: any but a chunk that is not wanted. */
  predicate IsSign(l: Leaf, h: Happening) { h.Hears? && (h.frame.Data? ==> Wanted(l, h.frame.seqNo, h.frame.data)) }

  /** When the bridge last gave a sign. */
  function LastSign(s: Timed, hs: seq<Happening>, maxChunk: nat): int {
    if hs == [] then s.timers.lastActivityMs
    else
      var front, last := hs[..|hs| - 1], hs[|hs| - 1];
      if IsSign(AfterAll(s, front, maxChunk).leaf, last) then last.at else LastSign(s, front, maxChunk)
  }

  lemma {:induction false} SignsAreNoticed(s: Timed, hs: seq<Happening>, maxChunk: nat)
    requires StaysIn(s, hs, maxChunk)
    ensures AfterAll(s, hs, maxChunk).timers.lastActivityMs == LastSign(s, hs, maxChunk)
  {
    if hs != [] {
      var front, last := hs[..|hs| - 1], hs[|hs| - 1];
      SignsAreNoticed(s, front, maxChunk);
      var s1 := AfterAll(s, front, maxChunk);
      SignNoticed(s1, last, maxChunk);
    }
  }

  lemma SignNoticed(s: Timed, h: Happening, maxChunk: nat)
    requires s.leaf.phase != Free && s.leaf.phase != Finished
    requires var l := React(s, h, maxChunk).after.leaf; l.phase != Free && l.phase != Finished
    ensures React(s, h, maxChunk).after.timers.lastActivityMs == if IsSign(s.leaf, h) then h.at else s.timers.lastActivityMs
  {
    var after := React(s, h, maxChunk).after;
    if h.Turns? {
      assert TurnImpulse(s.leaf, s.timers, h.at) == None;
    }
  }

  /** Over any run of a transfer, a turn of the loop gives the bridge up, telling it, iff its last sign is more than ten seconds old. */
  lemma {:induction false} SilenceIff(s: Timed, hs: seq<Happening>, now: int, maxChunk: nat)
    requires StaysIn(s, hs, maxChunk) && !AfterAll(s, hs, maxChunk).timers.restartPending
    ensures var before := AfterAll(s, hs, maxChunk);
            var r := React(before, Turns(now), maxChunk);
            if now - LastSign(s, hs, maxChunk) > 10000
            then r.after.leaf == Forget(before.leaf) && r.acks == [AckFrame(ABORT, before.leaf.announceTx, [0])]
            else r.after == before && r.acks == []
  {
    SignsAreNoticed(s, hs, maxChunk);
  }

  // After the end.

  predicate StaysFinished(s: Timed, hs: seq<Happening>, maxChunk: nat) {
    && AfterAll(s, hs, maxChunk).leaf.phase == Finished && !AfterAll(s, hs, maxChunk).timers.restartPending
    && (hs != [] ==> StaysFinished(s, hs[..|hs| - 1], maxChunk))
  }

  /** The times at which success has been reported, latest last. */
  function ReportTimes(s: Timed, hs: seq<Happening>, maxChunk: nat): seq<int> {
    if hs == [] then []
    else
      var before, last := AfterAll(s, hs[..|hs| - 1], maxChunk), hs[|hs| - 1];
      ReportTimes(s, hs[..|hs| - 1], maxChunk)
      + (if AckFrame(COMPLETE, before.leaf.announceTx, [before.leaf.action, COMPLETE_SUCCESS]) in React(before, last, maxChunk).acks
         then [last.at] else [])
  }

  predicate SecondsApart(from: int, times: seq<int>) {
    times == [] || (times[|times| - 1] - (if |times| == 1 then from else times[|times| - 2]) >= 1000 && SecondsApart(from, times[..|times| - 1]))
  }

  lemma FinishedReacts(s: Timed, h: Happening, maxChunk: nat)
    requires s.leaf.phase == Finished && !s.timers.restartPending
    ensures var r := React(s, h, maxChunk);
            var report := AckFrame(COMPLETE, s.leaf.announceTx, [s.leaf.action, COMPLETE_SUCCESS]);
            if h.Turns? && h.at - s.timers.nextCompleteAckMs >= 1000
            then r.acks == [report]
                 && (if s.timers.completeAcksLeft == 1
                     then r.after.leaf == Forget(s.leaf) && r.after.timers.restartPending && r.after.timers.restartDueMs == h.at + 250
                     else r.after == Timed(s.leaf, s.timers.(completeAcksLeft := s.timers.completeAcksLeft - 1, nextCompleteAckMs := h.at)))
            else report !in r.acks
                 && (if h.Hears? && h.frame == Abort then r.after.leaf == Forget(s.leaf)
                     else r.after.leaf.phase == Finished && !r.after.timers.restartPending
                          && r.after.timers == s.timers.(lastActivityMs := r.after.timers.lastActivityMs))
  {
    if h.Hears? && h.frame.Announce? { assert React(s, h, maxChunk).acks[0].kind == REJECT; }
  }

  /** After reports at these times, `left` are left, and the last was at `at`. */
  predicate Reported(from: int, times: seq<int>, left: int, at: int) {
    && |times| <= 4 && left == 5 - |times| && at == (if times == [] then from else times[|times| - 1])
    && SecondsApart(from, times)
  }

  lemma OneMoreReport(from: int, times: seq<int>, left: int, at: int, now: int)
    requires Reported(from, times, left, at) && left > 1 && now - at >= 1000
    ensures Reported(from, times + [now], left - 1, now)
  {
    var all := times + [now];
    assert all[..|all| - 1] == times;
    if times != [] { assert all[|all| - 2] == at; }
  }

  lemma ReportsSoFar(s: Timed, front: seq<Happening>, last: Happening, times: seq<int>, maxChunk: nat)
    requires ReportTimes(s, front, maxChunk) == times
    ensures var before := AfterAll(s, front, maxChunk);
            ReportTimes(s, front + [last], maxChunk)
            == if AckFrame(COMPLETE, before.leaf.announceTx, [before.leaf.action, COMPLETE_SUCCESS]) in React(before, last, maxChunk).acks
               then times + [last.at] else times
  {
    assert (front + [last])[..|front|] == front;
    assert times + [] == times;
  }

  /**
   A leaf that has been told the file has ended reports success at most once a second; of its five
   reports, as many are left as have not been made; with the fifth it forgets the transfer, and is due
   to restart a quarter of a second later (`FinishedReacts`).
   */
  lemma {:induction false} FiveReports(s: Timed, hs: seq<Happening>, maxChunk: nat)
    requires s.timers.completeAcksLeft == 5 && StaysFinished(s, hs, maxChunk)
    ensures var after := AfterAll(s, hs, maxChunk);
            Reported(s.timers.nextCompleteAckMs, ReportTimes(s, hs, maxChunk), after.timers.completeAcksLeft, after.timers.nextCompleteAckMs)
  {
    if hs != [] {
      var front, last := hs[..|hs| - 1], hs[|hs| - 1];
      FiveReports(s, front, maxChunk);
      var before, times := AfterAll(s, front, maxChunk), ReportTimes(s, front, maxChunk);
      assert hs == front + [last];
      ReportsSoFar(s, front, last, times, maxChunk);
      FinishedReacts(before, last, maxChunk);
      if last.Turns? && last.at - before.timers.nextCompleteAckMs >= 1000 {
        OneMoreReport(s.timers.nextCompleteAckMs, times, before.timers.completeAcksLeft, before.timers.nextCompleteAckMs, last.at);
      }
    }
  }

  /** A restart that is due happens at the first turn at or after its time, whatever the leaf is doing, and brings up the image staged. */
  lemma RestartsIff(s: Timed, now: int, maxChunk: nat)
    requires s.timers.restartPending
    ensures var r := React(s, Turns(now), maxChunk);
            if now >= s.timers.restartDueMs
            then r.after.leaf == Forget(s.leaf).(boot := Boot(s.leaf.boot.Next(), None)) && !r.after.timers.restartPending
            else r.after.timers.restartPending && r.after.leaf.boot.running == s.leaf.boot.running
  {
  }
}
