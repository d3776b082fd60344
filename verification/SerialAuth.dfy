/**
 Who is authenticated on the serial line. The judgement is made from outside, from the list of frames
 the bridge has handled and of the times it gave a silent client up; nothing of the session's own state
 enters into it.
 */
module SerialAuth {
  import opened Seqs
  import opened Octets
  import opened Cobs
  import opened Framing
  import opened SerialLine

  /** A frame handled at a time, or a silent client given up. */
  datatype Entry = Took(frame: octets, at: nat) | Lapsed

  type Log = seq<Entry>

  /** The frame of entry `i` is a right answer to the last challenge sent before. */
  predicate AnswersAt(log: Log, i: nat, m: Meaning)
    requires i < |log|
    decreases i, 1
  {
    log[i].Took? && m.kind(log[i].frame) == Response && m.answers(Challenges(log[..i], m), log[i].frame)
  }

  /** Somebody has answered the challenge of the time, and has neither said hello nor lapsed since. */
  predicate Proven(log: Log, m: Meaning)
    decreases |log|, 0
  {
    exists i :: 0 <= i < |log| && AnswersAt(log, i, m) && Unbroken(log, i, m)
  }

  predicate Unbroken(log: Log, i: nat, m: Meaning) {
    forall j :: i < j < |log| ==> log[j].Took? && m.kind(log[j].frame) != Hello
  }

  /** How many challenges have been sent: one on each hello, and one on each other frame of an unproven client that is no answer. */
  function Challenges(log: Log, m: Meaning): nat
    decreases |log|, 0
  {
    if log == [] then 0
    else
      var front, last := log[..|log| - 1], log[|log| - 1];
      Challenges(front, m)
      + (if last.Took? && (m.kind(last.frame) == Hello || (m.kind(last.frame) != Response && !Proven(front, m))) then 1 else 0)
  }

  predicate Agrees(s: Session, log: Log, m: Meaning) {
    && s.challenges == Challenges(log, m)
    && (s.auth == Authenticated <==> Proven(log, m))
    && (s.auth == Authenticated ==> log != [] && log[|log| - 1].Took? && log[|log| - 1].at == s.lastData)
  }

  /** One more frame. */
  lemma ProvenGrows(log: Log, e: Entry, m: Meaning)
    ensures Proven(log + [e], m)
            <==> e.Took? && m.kind(e.frame) != Hello
                 && (Proven(log, m) || (m.kind(e.frame) == Response && m.answers(Challenges(log, m), e.frame)))
  {
    var all, n := log + [e], |log|;
    assert all[..n] == log;
    assert forall i :: 0 <= i < n ==> all[..i] == log[..i];
    if Proven(log, m) && e.Took? && m.kind(e.frame) != Hello {
      var i :| 0 <= i < n && AnswersAt(log, i, m) && Unbroken(log, i, m);
      assert AnswersAt(all, i, m) && Unbroken(all, i, m);
    }
    if e.Took? && m.kind(e.frame) == Response && m.answers(Challenges(log, m), e.frame) {
      assert AnswersAt(all, n, m) && Unbroken(all, n, m);
    }
    if Proven(all, m) {
      var i :| 0 <= i <= n && AnswersAt(all, i, m) && Unbroken(all, i, m);
      if i < n {
        assert all[n] == e;
        assert AnswersAt(log, i, m) && Unbroken(log, i, m);
      }
    }
  }

  lemma FrameAgrees(s: Session, log: Log, frame: octets, m: Meaning, now: nat)
    requires Agrees(s, log, m)
    ensures Agrees(Next(s, frame, m, now), log + [Took(frame, now)], m)
  {
    var all := log + [Took(frame, now)];
    assert all[..|log|] == log;
    ProvenGrows(log, Took(frame, now), m);
  }

  lemma LapseAgrees(s: Session, log: Log, m: Meaning)
    requires Agrees(s, log, m)
    ensures Agrees(Session(WaitingHello, s.challenges, 0), log + [Lapsed], m)
  {
    assert (log + [Lapsed])[..|log|] == log;
    ProvenGrows(log, Lapsed, m);
  }

  // What the bridge does to the log.

  function Entries(frames: seq<octets>, now: nat): Log {
    seq(|frames|, i requires 0 <= i < |frames| => Took(frames[i], now))
  }

  lemma EntriesCons(frame: octets, rest: seq<octets>, now: nat)
    ensures Entries([frame] + rest, now) == [Took(frame, now)] + Entries(rest, now)
  {
  }

  lemma EntriesFirst(log: Log, frame: octets, rest: seq<octets>, now: nat)
    ensures log + [Took(frame, now)] + Entries(rest, now) == log + Entries([frame] + rest, now)
  {
    EntriesCons(frame, rest, now);
    Assoc(log, [Took(frame, now)], Entries(rest, now));
  }

  lemma {:induction false} HandledAgrees(link: Link, log: Log, m: Meaning, now: nat)
    requires Agrees(link.session, log, m)
    ensures var r := Handled(link, m, now); Agrees(r.1.session, log + Entries(r.0, now), m)
    decreases |link.rx|
  {
    if !HasZero(link.rx) {
      assert log + Entries([], now) == log;
    } else {
      var frame, rest := Content(link.rx[..FirstZero(link.rx)]), link.rx[FirstZero(link.rx) + 1..];
      if !Readable(frame, m) {
        HandledAgrees(Link(link.session, rest), log, m, now);
      } else {
        var left := Link(Next(link.session, frame, m, now), if Resets(link.session, frame, m) then [] else rest);
        FrameAgrees(link.session, log, frame, m, now);
        HandledFirst(link, frame, left, m, now);
        EntriesFirst(log, frame, Handled(left, m, now).0, now);
        HandledAgrees(left, log + [Took(frame, now)], m, now);
      }
    }
  }

  /** The last frame, if nobody has lapsed since, came at least a minute ago (on a clock of 32 bits that was not at 0 then). */
  predicate Silent(log: Log, now: nat) {
    && log != [] && log[|log| - 1].Took?
    && log[|log| - 1].at != 0 && (now - log[|log| - 1].at) % 0x1_0000_0000 >= 60000
  }

  /** The log after a turn: the frames it handled, and a lapse if a proven client has been silent. */
  function AfterEntries(log: Log, frames: seq<octets>, m: Meaning, now: nat): Log {
    var more := log + Entries(frames, now);
    if Proven(more, m) && Silent(more, now) then more + [Lapsed] else more
  }

  lemma CheckAgrees(link: Link, log: Log, m: Meaning, now: nat)
    requires Agrees(link.session, log, m)
    ensures Agrees(Checked(link, now).session, if Proven(log, m) && Silent(log, now) then log + [Lapsed] else log, m)
  {
    LapseAgrees(link.session, log, m);
  }

  lemma TurnAgrees(link: Link, log: Log, turn: Turn, m: Meaning)
    requires Agrees(link.session, log, m)
    ensures var r := AfterTurn(link, turn, m); Agrees(r.1.session, AfterEntries(log, r.0, m, turn.now), m)
  {
    var full := Link(link.session, Room(link.rx + turn.data));
    var r := Handled(full, m, turn.now);
    HandledAgrees(full, log, m, turn.now);
    CheckAgrees(r.1, log + Entries(r.0, turn.now), m, turn.now);
  }

  /** The log of some turns, from the frames they handle. */
  function LogOf(link: Link, turns: seq<Turn>, m: Meaning): Log {
    if turns == [] then []
    else
      var front := turns[..|turns| - 1];
      var last := turns[|turns| - 1];
      AfterEntries(LogOf(link, front, m), AfterTurn(HandledByTurns(link, front, m).1, last, m).0, m, last.now)
  }

  lemma {:induction false} TurnsSplit(link: Link, turns: seq<Turn>, m: Meaning)
    requires turns != []
    ensures var front, last := HandledByTurns(link, turns[..|turns| - 1], m), turns[|turns| - 1];
            var r := AfterTurn(front.1, last, m);
            HandledByTurns(link, turns, m) == (front.0 + r.0, r.1)
    decreases |turns|
  {
    var first := AfterTurn(link, turns[0], m);
    if |turns| == 1 {
      assert turns[1..] == [] && turns[..0] == [];
      assert HandledByTurns(first.1, [], m) == ([], first.1);
      assert first.0 + [] == first.0 && [] + first.0 == first.0;
    } else {
      var rest := turns[1..];
      TurnsSplit(first.1, rest, m);
      assert rest[..|rest| - 1] == turns[..|turns| - 1][1..];
      var inner := HandledByTurns(first.1, rest[..|rest| - 1], m);
      Assoc(first.0, inner.0, AfterTurn(inner.1, turns[|turns| - 1], m).0);
    }
  }

  /** The frames of a log. */
  function FramesIn(log: Log): seq<octets> {
    if log == [] then []
    else
      var last := log[|log| - 1];
      FramesIn(log[..|log| - 1]) + (if last.Took? then [last.frame] else [])
  }

  lemma FramesInSnoc(log: Log, e: Entry)
    ensures FramesIn(log + [e]) == FramesIn(log) + (if e.Took? then [e.frame] else [])
  {
    assert (log + [e])[..|log|] == log;
  }

  lemma EntriesSnoc(log: Log, front: seq<octets>, frame: octets, now: nat)
    ensures log + Entries(front + [frame], now) == log + Entries(front, now) + [Took(frame, now)]
  {
  }

  lemma {:induction false} FramesInMore(log: Log, frames: seq<octets>, now: nat)
    ensures FramesIn(log + Entries(frames, now)) == FramesIn(log) + frames
  {
    if frames == [] {
      assert log + Entries(frames, now) == log;
    } else {
      var front, last := frames[..|frames| - 1], frames[|frames| - 1];
      assert frames == front + [last];
      FramesInMore(log, front, now);
      EntriesSnoc(log, front, last, now);
      FramesInSnoc(log + Entries(front, now), Took(last, now));
      Assoc(FramesIn(log), front, [last]);
    }
  }

  lemma FramesInAfter(log: Log, frames: seq<octets>, m: Meaning, now: nat)
    ensures FramesIn(AfterEntries(log, frames, m, now)) == FramesIn(log) + frames
  {
    FramesInMore(log, frames, now);
    FramesInSnoc(log + Entries(frames, now), Lapsed);
  }

  /**
   Over any turns from the start, the session is authenticated iff one of the frames handled answered
   the challenge of its time and nobody has said hello or been silent for a minute since; and as many
   challenges have been sent as that log calls for.
   */
  lemma {:induction false} AuthenticatedIff(turns: seq<Turn>, m: Meaning)
    ensures var r, log := HandledByTurns(START, turns, m), LogOf(START, turns, m);
            && FramesIn(log) == r.0
            && (r.1.session.auth == Authenticated <==> Proven(log, m))
            && r.1.session.challenges == Challenges(log, m)
            && Agrees(r.1.session, log, m)
  {
    if turns != [] {
      var n := |turns| - 1;
      AuthenticatedIff(turns[..n], m);
      TurnsSplit(START, turns, m);
      var front := HandledByTurns(START, turns[..n], m);
      TurnAgrees(front.1, LogOf(START, turns[..n], m), turns[n], m);
      FramesInAfter(LogOf(START, turns[..n], m), AfterTurn(front.1, turns[n], m).0, m, turns[n].now);
    }
  }

  /** Without a right answer nobody is ever authenticated. */
  lemma NobodyWithoutAnswer(turns: seq<Turn>, m: Meaning)
    requires forall c: nat, frame: octets :: !m.answers(c, frame)
    ensures HandledByTurns(START, turns, m).1.session.auth != Authenticated
  {
    AuthenticatedIff(turns, m);
  }

  // An answer to an old challenge.

  lemma {:induction false} ChallengesGrow(log: Log, i: nat, m: Meaning)
    requires i <= |log|
    ensures Challenges(log[..i], m) <= Challenges(log, m)
  {
    if i < |log| {
      ChallengesGrow(log[..|log| - 1], i, m);
      assert log[..|log| - 1][..i] == log[..i];
    } else {
      assert log[..i] == log;
    }
  }

  /** After a hello no challenge of before counts any more. */
  lemma HelloIsFresh(log: Log, i: nat, j: nat, m: Meaning)
    requires i < j <= |log| && log[i].Took? && m.kind(log[i].frame) == Hello
    ensures Challenges(log[..i], m) < Challenges(log[..j], m)
  {
    ChallengesGrow(log[..j], i + 1, m);
    assert log[..j][..i + 1] == log[..i + 1];
    assert log[..i + 1][..i] == log[..i];
  }

  // The handshake.

  lemma OneFrame(link: Link, payload: octets, m: Meaning, now: nat)
    requires link.rx == [] && Readable(payload, m) && |Encoded(payload)| < MAX_RX_BUFFER
    ensures AfterTurn(link, Turn(Encoded(payload) + [0], now), m)
            == ([payload], Checked(Link(Next(link.session, payload, m, now), []), now))
  {
    var wire := Encoded(payload) + [0];
    assert link.rx + wire == wire;
    WireIsDelivered([payload]);
    assert Wire([payload]) == wire by { assert wire + [] == wire; }
    HandledIsListened(Link(link.session, wire), m, now);
    assert Kept([payload], m) == [payload] + Kept([payload][1..], m);
    TailAfterZero(Encoded(payload));
    assert [payload][1..] == [];
    assert Listen(Next(link.session, payload, m, now), [], m, now) == Hearing([], Next(link.session, payload, m, now), false);
    assert [payload] + [] == [payload];
  }

  /** A hello, and a wrong answer of a client that is not proven, make the bridge forget all that has come in behind them. */
  lemma ForgetsRest(link: Link, payload: octets, rest: octets, m: Meaning, now: nat)
    requires link.rx == [] && Readable(payload, m) && |Encoded(payload)| + 1 + |rest| <= MAX_RX_BUFFER
    requires m.kind(payload) == Hello
             || (link.session.auth != Authenticated && m.kind(payload) == Response && !m.answers(link.session.challenges, payload))
    ensures var r := AfterTurn(link, Turn(Encoded(payload) + [0] + rest, now), m);
            && r.0 == [payload] && r.1.rx == [] && r.1.session.auth != Authenticated
            && r.1.session.challenges == link.session.challenges + if m.kind(payload) == Hello then 1 else 0
  {
    var wire := Encoded(payload) + [0];
    assert link.rx + (wire + rest) == wire + rest;
    HandledIsListened(Link(link.session, wire + rest), m, now);
    FirstKept(payload, rest, m);
    ListenStops(link.session, payload, Kept(Delivered(Tail(wire) + rest), m), m, now);
    NextUnproven(link.session, payload, m, now);
  }

  lemma FirstKept(payload: octets, rest: octets, m: Meaning)
    requires Readable(payload, m)
    ensures var wire := Encoded(payload) + [0];
            Kept(Delivered(wire + rest), m) == [payload] + Kept(Delivered(Tail(wire) + rest), m)
  {
    OneDelivered(payload);
    KeptConcat(Encoded(payload) + [0], rest, m);
    assert Kept([payload], m) == [payload] + Kept([payload][1..], m);
  }

  lemma ListenStops(s: Session, payload: octets, others: seq<octets>, m: Meaning, now: nat)
    requires m.kind(payload) == Hello || (s.auth != Authenticated && m.kind(payload) == Response && !m.answers(s.challenges, payload))
    ensures Listen(s, [payload] + others, m, now) == Hearing([payload], Next(s, payload, m, now), true)
  {
  }

  lemma NextUnproven(s: Session, payload: octets, m: Meaning, now: nat)
    requires m.kind(payload) == Hello || (s.auth != Authenticated && m.kind(payload) == Response && !m.answers(s.challenges, payload))
    ensures var next := Next(s, payload, m, now);
            && next.auth != Authenticated && next.challenges == s.challenges + (if m.kind(payload) == Hello then 1 else 0)
            && Checked(Link(next, []), now) == Link(next, [])
  {
  }

  lemma OneDelivered(payload: octets)
    requires payload != []
    ensures Delivered(Encoded(payload) + [0]) == [payload]
  {
    var wire := Encoded(payload) + [0];
    WireIsDelivered([payload]);
    assert Wire([payload]) == wire by { assert wire + [] == wire; }
  }

  lemma TwoTurns(link: Link, a: Turn, b: Turn, m: Meaning)
    ensures var first := AfterTurn(link, a, m);
            var second := AfterTurn(first.1, b, m);
            HandledByTurns(link, [a, b], m) == (first.0 + second.0, second.1)
  {
    var first := AfterTurn(link, a, m);
    var second := AfterTurn(first.1, b, m);
    assert [a, b][1..] == [b] && [b][1..] == [];
    assert HandledByTurns(second.1, [], m) == ([], second.1);
    assert second.0 + [] == second.0;
    assert HandledByTurns(first.1, [b], m) == second;
  }

  lemma HelloAndAnswer(s: Session, hello: octets, answer: octets, m: Meaning, now: nat)
    requires m.kind(hello) == Hello && m.kind(answer) == Response && m.answers(s.challenges + 1, answer)
    ensures var greeted := Link(Next(s, hello, m, now), []);
            var proven := Link(Next(greeted.session, answer, m, now), []);
            Checked(greeted, now) == greeted && Checked(proven, now) == proven && proven.session.auth == Authenticated
  {
  }

  /** A client that says hello and answers the challenge it gets is authenticated, whatever the bridge has heard before. */
  lemma HandshakeWorks(link: Link, hello: octets, answer: octets, m: Meaning, now: nat)
    requires link.rx == [] && m.kind(hello) == Hello && hello != [] && |Encoded(hello)| < MAX_RX_BUFFER
    requires m.kind(answer) == Response && answer != [] && |Encoded(answer)| < MAX_RX_BUFFER
    requires m.answers(link.session.challenges + 1, answer)
    ensures var turns := [Turn(Encoded(hello) + [0], now), Turn(Encoded(answer) + [0], now)];
            var r := HandledByTurns(link, turns, m); r.0 == [hello, answer] && r.1.session.auth == Authenticated
  {
    var greeted := Link(Next(link.session, hello, m, now), []);
    HelloAndAnswer(link.session, hello, answer, m, now);
    OneFrame(link, hello, m, now);
    OneFrame(greeted, answer, m, now);
    TwoTurns(link, Turn(Encoded(hello) + [0], now), Turn(Encoded(answer) + [0], now), m);
    assert [hello] + [answer] == [hello, answer];
  }
}
