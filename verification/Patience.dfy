/**
 How long the bridge goes on asking. When nothing comes back it asks again at every timeout, and each
 of its three questions (the announcement, the end of a round, the end of the file) has its own
 limit. What it can still be told afterwards decides whether it gets on.
 */
module Patience {
  import opened Seqs
  import opened Bytes
  import opened Geometry
  import opened Transfer
  import opened TransferRuns
  import opened CooperativeRuns

  predicate Asking(b: Bridge) { b.phase == Announcing || b.phase == WaitingGaps || b.phase == Ending }

  /** How often the question has gone out. */
  function AsksMade(b: Bridge): nat { if b.phase == WaitingGaps then b.retries else b.attempts }

  function AsksAllowed(p: Phase): nat { if p == WaitingGaps then MAX_BLAST_COMPLETE_RETRIES else MAX_CONTROL_RETRIES }

  /** An answer of the radio driver after which the bridge gives the transfer up. */
  predicate Fatal(p: Phase, radio: Radio) {
    radio == NotFound || (radio == Failed && p == Announcing) || ((radio == Failed || radio == NoMemory) && p == Ending)
  }

  /** Timeouts at which nothing has come back, and what the radio made of the question each time. */
  function Ticks(radios: seq<Radio>): seq<Event> {
    if radios == [] then [] else Ticks(radios[..|radios| - 1]) + [Control(radios[|radios| - 1])]
  }

  /** The transmission counters under which the radio took frames. */
  function Taken(radios: seq<Radio>): seq<nat> {
    if radios == [] then []
    else Taken(radios[..|radios| - 1]) + (if radios[|radios| - 1].Sent? then [radios[|radios| - 1].tx] else [])
  }

  /** No answer of the radio is fatal, and whenever it is asked, the question has not gone out too often before. */
  predicate HeldOut(b: Bridge, radios: seq<Radio>) {
    && (forall i :: 0 <= i < |radios| ==> !Fatal(b.phase, radios[i]))
    && (radios != [] ==> AsksMade(b) + |Taken(radios[..|radios| - 1])| < AsksAllowed(b.phase))
  }

  /** The last numbers of a list, at most as many as the bridge remembers. */
  function Latest(s: seq<nat>): seq<nat> { if |s| <= HISTORY_LENGTH then s else s[|s| - HISTORY_LENGTH..] }

  /** `b` after asking `n` more times, nothing else having changed. */
  predicate AskedMore(b: Bridge, b': Bridge, taken: seq<nat>) {
    match b.phase
    case Announcing =>
      b' == b.(attempts := b.attempts + |taken|, announceTx := if taken == [] then b.announceTx else taken[|taken| - 1])
    case WaitingGaps => b' == b.(retries := b.retries + |taken|, history := Latest(b.history + taken))
    case _ => b' == b.(attempts := b.attempts + |taken|)
  }

  lemma {:induction false} LatestGrows(history: seq<nat>, taken: seq<nat>, tx: nat)
    ensures Remember(Latest(history + taken), tx) == Latest(history + (taken + [tx]))
  {
    Assoc(history, taken, [tx]);
  }

  lemma StillHeldOut(b: Bridge, radios: seq<Radio>)
    requires radios != [] && HeldOut(b, radios)
    ensures HeldOut(b, radios[..|radios| - 1])
  {
  }

  /** One more timeout. */
  lemma OneMoreTick(b: Bridge, b1: Bridge, taken: seq<nat>, radio: Radio)
    requires Asking(b) && AskedMore(b, b1, taken)
    ensures var b2 := Step(b1, Control(radio)).bridge;
            if !Fatal(b.phase, radio) && AsksMade(b) + |taken| < AsksAllowed(b.phase)
            then AskedMore(b, b2, taken + (if radio.Sent? then [radio.tx] else []))
            else b2 == Cleared(FAIL, b.percent)
  {
    if radio.Sent? {
      LatestGrows(b.history, taken, radio.tx);
    } else {
      assert taken + [] == taken;
    }
  }

  /** Where the bridge is after the timeouts. */
  predicate Held(b: Bridge, radios: seq<Radio>, b': Bridge) {
    if HeldOut(b, radios) then AskedMore(b, b', Taken(radios)) else b' == Cleared(FAIL, b.percent)
  }

  lemma HeldOneMore(b: Bridge, radios: seq<Radio>, b1: Bridge, b2: Bridge)
    requires Asking(b) && radios != [] && Held(b, radios[..|radios| - 1], b1)
    requires b2 == Step(b1, Control(radios[|radios| - 1])).bridge
    ensures Held(b, radios, b2)
  {
    var n := |radios| - 1;
    if HeldOut(b, radios[..n]) {
      OneMoreTick(b, b1, Taken(radios[..n]), radios[n]);
    } else if HeldOut(b, radios) {
      StillHeldOut(b, radios);
    }
  }

  /** Over any run of timeouts the bridge only asks again, or it has given up. */
  lemma {:induction false} HoldsOutIff(r: Run, radios: seq<Radio>)
    requires Asking(r.bridge) && |r.bridge.history| <= HISTORY_LENGTH
    ensures Held(r.bridge, radios, After(r, Ticks(radios)).bridge)
  {
    if radios == [] {
      assert r.bridge.history + [] == r.bridge.history;
    } else {
      var n := |radios| - 1;
      HoldsOutIff(r, radios[..n]);
      LastTick(r, radios);
      HeldOneMore(r.bridge, radios, After(r, Ticks(radios[..n])).bridge, After(r, Ticks(radios)).bridge);
    }
  }

  lemma LastTick(r: Run, radios: seq<Radio>)
    requires radios != []
    ensures var n := |radios| - 1;
            After(r, Ticks(radios)).bridge == Step(After(r, Ticks(radios[..n])).bridge, Control(radios[n])).bridge
  {
    var n := |radios| - 1;
    var front, e := Ticks(radios[..n]), Control(radios[n]);
    assert Ticks(radios) == front + [e];
    assert (front + [e])[..|front|] == front;
  }

  // What the bridge remembers.

  lemma AckRemembersFew(b: Bridge, kind: AckKind, ref: nat, trailing: bytes, radio: Radio)
    requires |b.history| <= HISTORY_LENGTH
    ensures |DoAck(b, kind, ref, trailing, radio).bridge.history| <= HISTORY_LENGTH
  {
  }

  lemma PumpRemembersFew(b: Bridge, first: Radio, second: Radio)
    requires |b.history| <= HISTORY_LENGTH
    ensures |PumpQueue(b, first, second).bridge.history| <= HISTORY_LENGTH
  {
  }

  lemma BlastRemembersFew(b: Bridge, first: Radio, second: Radio)
    requires |b.history| <= HISTORY_LENGTH
    ensures |DoBlast(b, first, second).bridge.history| <= HISTORY_LENGTH
  {
    assert Rerequest(b).history == b.history;
    PumpRemembersFew(Rerequest(b), first, second);
  }

  lemma StepRemembersFew(b: Bridge, e: Event)
    requires |b.history| <= HISTORY_LENGTH
    ensures |Step(b, e).bridge.history| <= HISTORY_LENGTH
  {
    match e
    case Ack(kind, ref, trailing, radio) => AckRemembersFew(b, kind, ref, trailing, radio);
    case Blast(first, second) => BlastRemembersFew(b, first, second);
    case _ =>
  }

  lemma {:induction false} RemembersFew(r: Run, events: seq<Event>)
    requires |r.bridge.history| <= HISTORY_LENGTH
    ensures |After(r, events).bridge.history| <= HISTORY_LENGTH
  {
    if events != [] {
      RemembersFew(r, events[..|events| - 1]);
      StepRemembersFew(After(r, events[..|events| - 1]).bridge, events[|events| - 1]);
    }
  }

  // What is left to be told.

  /** Nobody starts another transfer. */
  predicate NoStart(events: seq<Event>) { forall i :: 0 <= i < |events| ==> !events[i].Start? }

  lemma {:induction false} GivenUpForGood(r: Run, events: seq<Event>)
    requires r.bridge.phase == Idle && NoStart(events)
    ensures After(r, events) == r
  {
    if events != [] { GivenUpForGood(r, events[..|events| - 1]); }
  }

  /** From `b`'s increment on: at the next one, or at the end. */
  predicate GotOn(b: Bridge, b': Bridge) {
    if b.geo.IsLast(b.increment) then b'.phase == Ending
    else b'.phase == Blasting && b'.geo == b.geo && b'.increment == Next16(b.increment)
  }

  /** The question has been answered: the announcement accepted, the increment got past, the file confirmed. */
  predicate Answered(b: Bridge, b': Bridge) {
    match b.phase
    case Announcing => Transferring(b')
    case WaitingGaps => GotOn(b, b')
    case _ => b'.status == SUCCESS
  }

  /** After the timeouts some course of events without another start answers the question. */
  ghost predicate CanBeAnswered(r: Run, radios: seq<Radio>) {
    exists events :: NoStart(events) && Answered(r.bridge, After(After(r, Ticks(radios)), events).bridge)
  }

  lemma GivenUpIsUnanswered(r: Run, radios: seq<Radio>)
    requires Asking(r.bridge) && |r.bridge.history| <= HISTORY_LENGTH && !HeldOut(r.bridge, radios)
    ensures !CanBeAnswered(r, radios)
  {
    var r1 := After(r, Ticks(radios));
    HoldsOutIff(r, radios);
    forall events | NoStart(events)
      ensures !Answered(r.bridge, After(r1, events).bridge)
    {
      GivenUpForGood(r1, events);
    }
  }

  lemma AnsweredAtOnce(r: Run, radios: seq<Radio>, e: Event)
    requires !e.Start? && Answered(r.bridge, Step(After(r, Ticks(radios)).bridge, e).bridge)
    ensures CanBeAnswered(r, radios)
  {
    var r1 := After(r, Ticks(radios));
    assert [e][..0] == [];
    assert After(r1, [e]) == Next(After(r1, []), e) == Next(r1, e);
    assert NoStart([e]);
  }

  /** The leaf's report on an increment it has complete, as answer to the question sent under `ref`. */
  function Answer(ref: nat, tx: nat): Event { Ack(GAPS, ref, [0, 0], Sent(tx)) }

  lemma AnswerTaken(b: Bridge, ref: nat, tx: nat)
    requires b.phase == WaitingGaps
    ensures var b' := Step(b, Answer(ref, tx)).bridge; if ref in b.history then GotOn(b, b') else b' == b
  {
    assert ref in b.history ==> Step(b, Answer(ref, tx)) == IncrementDone(b, Sent(tx));
  }

  /**
   After any timeouts, the answer to a question gets the bridge past the increment iff the bridge has
   held out and the question is among the last eight that went out.
   */
  lemma AnswerHeardIff(r: Run, radios: seq<Radio>, ref: nat, tx: nat)
    requires r.bridge.phase == WaitingGaps && |r.bridge.history| <= HISTORY_LENGTH
    ensures GotOn(r.bridge, Step(After(r, Ticks(radios)).bridge, Answer(ref, tx)).bridge)
            <==> HeldOut(r.bridge, radios) && ref in Latest(r.bridge.history + Taken(radios))
  {
    HoldsOutIff(r, radios);
    var b1 := After(r, Ticks(radios)).bridge;
    if HeldOut(r.bridge, radios) { AnswerTaken(b1, ref, tx); }
  }

  lemma EventThatAnswers(b: Bridge) returns (e: Event)
    requires Asking(b) && (b.phase == WaitingGaps ==> b.history != []) && (b.phase == Announcing ==> b.requestedChunk >= MIN_CHUNK)
    ensures !e.Start? && Answered(b, Step(b, e).bridge)
  {
    if b.phase == Announcing {
      e := Ack(ACCEPT, b.announceTx, [64, 0, 8, b.action], NoMemory);
      assert Step(b, e) == DoAccept(b, [64, 0, 8, b.action]);
    } else if b.phase == WaitingGaps {
      e := Answer(b.history[0], 0);
      AnswerTaken(b, b.history[0], 0);
    } else {
      e := Ack(COMPLETE, 0, [b.action, COMPLETE_SUCCESS], NoMemory);
    }
  }

  /** Whatever the radio made of the questions, they can still be answered iff the bridge has held out. */
  lemma SurvivesIff(r: Run, radios: seq<Radio>)
    requires Asking(r.bridge) && |r.bridge.history| <= HISTORY_LENGTH
    requires r.bridge.phase == WaitingGaps ==> r.bridge.history != []
    requires r.bridge.phase == Announcing ==> r.bridge.requestedChunk >= MIN_CHUNK
    ensures CanBeAnswered(r, radios) <==> HeldOut(r.bridge, radios)
  {
    if HeldOut(r.bridge, radios) {
      HoldsOutIff(r, radios);
      var e := EventThatAnswers(After(r, Ticks(radios)).bridge);
      AnsweredAtOnce(r, radios, e);
    } else {
      GivenUpIsUnanswered(r, radios);
    }
  }

  // Lost answers.

  /** Timeouts at which the radio takes the question every time. */
  function Asked(txs: seq<nat>): (radios: seq<Radio>)
    ensures |radios| == |txs| && forall i :: 0 <= i < |txs| ==> radios[i] == Sent(txs[i])
  {
    seq(|txs|, i requires 0 <= i < |txs| => Sent(txs[i]))
  }

  lemma {:induction false} AskedTaken(txs: seq<nat>)
    ensures Taken(Asked(txs)) == txs
  {
    if txs != [] {
      var n := |txs| - 1;
      assert Asked(txs)[..n] == Asked(txs[..n]);
      AskedTaken(txs[..n]);
    }
  }

  lemma AskedHeldOutIff(b: Bridge, txs: seq<nat>)
    requires Asking(b) && AsksMade(b) == 1
    ensures HeldOut(b, Asked(txs)) <==> |txs| < AsksAllowed(b.phase)
  {
    if txs != [] {
      var n := |txs| - 1;
      assert Asked(txs)[..n] == Asked(txs[..n]);
      AskedTaken(txs[..n]);
    }
  }

  /**
   Once asked, a question survives the loss of its first `n` answers iff `n` is below 20 for the end of a
   round, and below 3 for the announcement and the end of the file.
   */
  lemma LostAnswersIff(r: Run, txs: seq<nat>)
    requires Asking(r.bridge) && AsksMade(r.bridge) == 1 && |r.bridge.history| <= HISTORY_LENGTH
    requires r.bridge.phase == WaitingGaps ==> r.bridge.history != []
    requires r.bridge.phase == Announcing ==> r.bridge.requestedChunk >= MIN_CHUNK
    ensures CanBeAnswered(r, Asked(txs)) <==> |txs| < if r.bridge.phase == WaitingGaps then 20 else 3
  {
    AskedHeldOutIff(r.bridge, txs);
    SurvivesIff(r, Asked(txs));
  }

  /** Of a round's questions, the last eight can still be answered, and no older one. */
  lemma LastEightAnswerable(r: Run, txs: seq<nat>, ref: nat, tx: nat)
    requires r.bridge.phase == WaitingGaps && r.bridge.retries == 1 && |txs| < 20 && |r.bridge.history| <= 8
    ensures var all := r.bridge.history + txs;
            GotOn(r.bridge, Step(After(r, Ticks(Asked(txs))).bridge, Answer(ref, tx)).bridge)
            <==> exists i :: |all| - 8 <= i && 0 <= i < |all| && all[i] == ref
  {
    AskedHeldOutIff(r.bridge, txs);
    AskedTaken(txs);
    AnswerHeardIff(r, Asked(txs), ref, tx);
    InLatestIff(r.bridge.history + txs, ref);
  }

  lemma InLatestIff(s: seq<nat>, x: nat)
    ensures x in Latest(s) <==> exists i :: |s| - 8 <= i && 0 <= i < |s| && s[i] == x
  {
    if x in Latest(s) {
      var k :| 0 <= k < |Latest(s)| && Latest(s)[k] == x;
      assert s[|s| - |Latest(s)| + k] == x;
    }
    if i :| |s| - 8 <= i && 0 <= i < |s| && s[i] == x {
      assert Latest(s)[i - (|s| - |Latest(s)|)] == x;
    }
  }
}
