/**
 What the loss of one acknowledgement can cost. A leaf that has written its last increment answers no
 BLAST_COMPLETE any more, so the bridge gets to the end phase only with an answer that is already on
 the air.
 */
module LostAnswers {
  import opened Bytes
  import opened Geometry
  import opened GapBitmap
  import opened Transfer
  import opened TransferMoves
  import opened Leaf
  import opened EndToEnd
  import opened SuccessfulRuns

  /** It says, of an increment the bridge remembers having asked about, that nothing is missing. */
  predicate SaysDone(a: AckFrame, history: seq<nat>) { a.kind == GAPS && a.ref in history && |a.trailing| == 2 }

  ghost predicate Answered(acks: set<AckFrame>, history: seq<nat>) { exists a :: a in acks && SaysDone(a, history) }

  /** Neither side drops the transfer for a new one: the bridge starts none, and the leaf neither forgets nor reboots. */
  predicate Patient(a: Action) {
    match a
    case BridgeActs(e, _) => !e.Start?
    case LeafHears(f, _) => f != Abort
    case LeafActs(i) => i.Repeat?
    case AcksLost(_) => true
  }

  predicate AllPatient(actions: seq<Action>) { forall i :: 0 <= i < |actions| ==> Patient(actions[i]) }

  /** The bridge has stopped, or is at its last increment without an answer to it. */
  ghost predicate Waits(b: Bridge, acks: set<AckFrame>) {
    || b.phase == Idle
    || ((b.phase == Blasting || b.phase == WaitingGaps) && b.geo.IsLast(b.increment) && !Answered(acks, b.history))
  }

  ghost predicate Doomed(s: System) { s.leaf.phase == AwaitingEnd && End !in s.air && Waits(s.bridge, s.acks) }

  /** The acknowledgements are older than the counter, and a list of gaps is as long as it says. */
  predicate Older(acks: set<AckFrame>, nextTx: nat) {
    forall a :: a in acks && a.kind == GAPS ==>
      a.ref < nextTx && |a.trailing| >= 2 && Le16(a.trailing[0], a.trailing[1]) == |a.trailing| - 2
  }

  lemma MoveKeepsWaiting(m: Move, b: Bridge, fs: seq<Frame>, b': Bridge, e: Event, acks: set<AckFrame>, lo: nat, hi: nat)
    requires Waits(b, acks) && Moves(m, b, fs, b') && Caused(m, b, e, b') && !m.Skip? && !e.Start?
    requires e.Ack? ==> AckFrame(e.kind, e.ref, e.trailing) in acks
    requires Older(acks, lo) && FreshTx(e, lo, hi)
    ensures Waits(b', acks) && End !in fs && !m.Finish?
  {
    if m.CloseRound? {
      NewNotAnswered(acks, b.history, m.tx, lo);
    } else if m.Finish? {
      assert SaysDone(AckFrame(e.kind, e.ref, e.trailing), b.history);
    }
  }

  /** A BLAST_COMPLETE sent once more has no answer yet. */
  lemma NewNotAnswered(acks: set<AckFrame>, history: seq<nat>, tx: nat, lo: nat)
    requires Older(acks, lo) && lo <= tx && !Answered(acks, history)
    ensures !Answered(acks, Remember(history, tx))
  {
    forall a | a in acks
      ensures SaysDone(a, Remember(history, tx)) ==> SaysDone(a, history)
    {
      assert a.ref in Remember(history, tx) ==> a.ref in history || a.ref == tx;
    }
  }

  lemma RightIsOlder(w: World, s: System)
    requires Right(w, s)
    ensures Older(s.acks, s.nextTx)
  {
    forall a | a in s.acks && a.kind == GAPS
      ensures a.ref < s.nextTx && |a.trailing| >= 2 && Le16(a.trailing[0], a.trailing[1]) == |a.trailing| - 2
    {
      assert AckRight(w, s, a);
    }
  }

  lemma NoSkip(w: World, s: System, m: Move, fs: seq<Frame>, b': Bridge, e: Event, nextTx: nat)
    requires Fair(w) && Right(w, s) && Enabled(w, s, BridgeActs(e, nextTx))
    requires Moves(m, s.bridge, fs, b') && Caused(m, s.bridge, e, b')
    ensures !m.Skip?
  {
    if e.Ack? { assert AckRight(w, s, AckFrame(e.kind, e.ref, e.trailing)); }
    MoveIsAllowed(w, s, m, fs, b', e, nextTx);
  }

  lemma NoEnd(f1: seq<Frame>, f2: seq<Frame>)
    requires End !in f1 && End !in f2
    ensures End !in Emitted(f1 + f2)
  {
    EmittedAppend(f1, f2);
    EmittedIsIn(f1, End);
    EmittedIsIn(f2, End);
  }

  lemma {:induction false} EmittedIsIn(fs: seq<Frame>, f: Frame)
    ensures f in Emitted(fs) ==> f in fs
  {
    if fs != [] { EmittedIsIn(fs[1..], f); }
  }

  lemma PathKeepsWaiting(p: Path, b: Bridge, o: Outcome, e: Event, acks: set<AckFrame>, lo: nat, hi: nat)
    requires Waits(b, acks) && Takes(p, b, o) && Explains(p, b, e, o.bridge) && !p.m2.Skip? && !e.Start?
    requires e.Ack? ==> AckFrame(e.kind, e.ref, e.trailing) in acks
    requires Older(acks, lo) && FreshTx(e, lo, hi)
    ensures Waits(o.bridge, acks) && End !in Emitted(o.frames)
  {
    MoveKeepsWaiting(p.m1, b, p.f1, p.mid, e, acks, lo, hi);
    MoveKeepsWaiting(p.m2, p.mid, p.f2, o.bridge, e, acks, lo, hi);
    NoEnd(p.f1, p.f2);
  }

  /** Only as the event's one move can a bitmap without gaps move the bridge on. */
  lemma SkipIsAlone(m: Move, b: Bridge, fs: seq<Frame>, mid: Bridge)
    requires (m.Stay? || m.Begin? || m.SendHead? || m.Finish?) && Moves(m, b, fs, mid) && mid.phase == WaitingGaps
    ensures mid == b
  {
  }

  lemma BridgeKeepsDoomed(w: World, s: System, e: Event, nextTx: nat)
    requires Fair(w) && Right(w, s) && Enabled(w, s, BridgeActs(e, nextTx)) && !e.Start? && Doomed(s)
    ensures Doomed(Does(w, s, BridgeActs(e, nextTx)))
  {
    RightIsOlder(w, s);
    var o := Step(s.bridge, e);
    var p := EventPath(s.bridge, e);
    if p.m2.Skip? {
      SkipIsAlone(p.m1, s.bridge, p.f1, p.mid);
      NoSkip(w, s, p.m2, p.f2, o.bridge, e, nextTx);
    }
    PathKeepsWaiting(p, s.bridge, o, e, s.acks, s.nextTx, nextTx);
  }

  /** Such a leaf says nothing about gaps. */
  lemma LeafKeepsDoomed(w: World, s: System, h: Heard, reboots: bool)
    requires Doomed(s) && h.leaf.phase == AwaitingEnd && (h.acks == [] || (|h.acks| == 1 && h.acks[0].kind != GAPS))
    ensures Doomed(LeafMoves(s, h, reboots))
  {
    EmittedOne(h.acks);
    forall a | a in s.acks + Emitted(h.acks) && SaysDone(a, s.bridge.history)
      ensures a in s.acks
    {
    }
  }

  lemma ActionKeepsDoomed(w: World, s: System, a: Action)
    requires Fair(w) && Right(w, s) && Enabled(w, s, a) && Patient(a) && Doomed(s)
    ensures Doomed(Does(w, s, a))
  {
    match a
    case BridgeActs(e, nextTx) => BridgeKeepsDoomed(w, s, e, nextTx);
    case LeafHears(f, mood) => LeafKeepsDoomed(w, s, Hear(s.leaf, f, w.maxChunk, mood), false);
    case LeafActs(i) => LeafKeepsDoomed(w, s, DoImpulse(s.leaf, i), false);
    case AcksLost(lost) =>
  }

  lemma {:induction false} RunsKeepDoomed(w: World, s: System, actions: seq<Action>)
    requires Fair(w) && Right(w, s) && AllPatient(actions) && Doomed(s)
    ensures Right(w, EndToEnd.After(w, s, actions)) && Doomed(EndToEnd.After(w, s, actions))
  {
    if actions != [] {
      var front, a := actions[..|actions| - 1], actions[|actions| - 1];
      RunsKeepDoomed(w, s, front);
      var before := EndToEnd.After(w, s, front);
      if Enabled(w, before, a) {
        ActionKeepsRight(w, before, a);
        ActionKeepsDoomed(w, before, a);
      }
    }
  }

  lemma AnswerEnds(w: World, s: System, a: AckFrame) returns (action: Action)
    requires Fair(w) && Right(w, s) && s.bridge.phase == WaitingGaps && s.bridge.geo.IsLast(s.bridge.increment)
    requires a in s.acks && SaysDone(a, s.bridge.history)
    ensures Patient(action) && EndToEnd.After(w, s, [action]).bridge.phase == Ending
  {
    RightIsOlder(w, s);
    var e := Ack(GAPS, a.ref, a.trailing, Sent(s.nextTx));
    action := BridgeActs(e, s.nextTx + 1);
    assert AckFrame(GAPS, a.ref, a.trailing) == a;
    assert Step(s.bridge, e) == IncrementDone(s.bridge, Sent(s.nextTx));
    assert [action][..0] == [];
  }

  /**
   The leaf has everything and waits for the END, none is on the air, and the bridge waits for the last
   acknowledgement. Without starting over on either side it gets to the end phase if and only if an
   acknowledgement of the last increment that it still remembers asking for has not been lost.
   */
  lemma EndsIff(w: World, s: System)
    requires Fair(w) && Right(w, s) && s.leaf.phase == AwaitingEnd && End !in s.air
    requires s.bridge.phase == WaitingGaps && s.bridge.geo.IsLast(s.bridge.increment)
    ensures (exists actions :: AllPatient(actions) && EndToEnd.After(w, s, actions).bridge.phase == Ending)
            <==> Answered(s.acks, s.bridge.history)
  {
    if Answered(s.acks, s.bridge.history) {
      var a :| a in s.acks && SaysDone(a, s.bridge.history);
      var action := AnswerEnds(w, s, a);
      assert AllPatient([action]);
    } else {
      forall actions | AllPatient(actions)
        ensures EndToEnd.After(w, s, actions).bridge.phase != Ending
      {
        RunsKeepDoomed(w, s, actions);
      }
    }
  }

  /** That a loss can cost the whole transfer happens: after a faultless run, the acknowledgements are lost just then. */
  lemma LossCanDoom(w: World, z: System) returns (s: System)
    requires Fair(w) && Initial(w, z) && w.file[0] == IMAGE_MAGIC
    ensures Live(w, z, s) && s.leaf.phase == AwaitingEnd && s.leaf.repeated == 0 && s.bridge.phase == WaitingGaps
    ensures forall actions :: AllPatient(actions) ==> EndToEnd.After(w, s, actions).bridge.phase != Ending
  {
    GeometryOf(w);
    assert EndToEnd.After(w, z, []) == z;
    var s1 := GetsGoing(w, z, z);
    var s2, last, tx := AllSent(w, z, s1, 0);
    var s3 := AnswerHeard(w, z, s2, last, tx);
    s := Act(w, z, s3, AcksLost(s3.acks));
    LiveIsRight(w, z, s);
    EndsIff(w, s);
  }
}
