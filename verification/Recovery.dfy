/**
 What bridge and leaf can make good again. Whatever has been lost so far, a transfer that neither side
 has dropped can still be brought to its end, as long as there are asks and rounds left.
 */
module Recovery {
  import opened Seqs
  import opened Bytes
  import opened Geometry
  import opened GapBitmap
  import opened Transfer
  import opened TransferMoves
  import opened TransferInvariants
  import opened TransferRuns
  import opened BridgeRounds
  import opened Leaf
  import opened EndToEnd
  import opened SuccessfulRuns
  import opened LostAnswers

  /** `s` is reached from `s0` in `n` steps, without either side starting over. */
  ghost predicate LeadsIn(w: World, s0: System, s: System, n: nat)
    decreases n
  {
    if n == 0 then s == s0
    else exists a: Action, s1: System :: LeadsIn(w, s0, s1, n - 1) && Enabled(w, s1, a) && Patient(a) && s == Does(w, s1, a)
  }

  ghost predicate Going(w: World, s0: System, s: System) {
    Fair(w) && Right(w, s) && w.file[0] == IMAGE_MAGIC && exists n: nat :: LeadsIn(w, s0, s, n)
  }

  lemma Goes(w: World, s0: System, s: System, a: Action) returns (s': System)
    requires Going(w, s0, s) && Enabled(w, s, a) && Patient(a)
    ensures s' == Does(w, s, a) && Going(w, s0, s')
  {
    s' := Does(w, s, a);
    ActionKeepsRight(w, s, a);
    var n: nat :| LeadsIn(w, s0, s, n);
    assert LeadsIn(w, s0, s', n + 1);
  }

  lemma Started(w: World, s: System)
    requires Fair(w) && Right(w, s) && w.file[0] == IMAGE_MAGIC
    ensures Going(w, s, s)
  {
    assert LeadsIn(w, s, s, 0);
  }

  lemma {:induction false} ActionsOf(w: World, s0: System, s: System, n: nat) returns (actions: seq<Action>)
    requires LeadsIn(w, s0, s, n)
    ensures AllPatient(actions) && EndToEnd.After(w, s0, actions) == s
    decreases n
  {
    actions := [];
    if n > 0 {
      var a: Action, s1: System :| LeadsIn(w, s0, s1, n - 1) && Enabled(w, s1, a) && Patient(a) && s == Does(w, s1, a);
      var front := ActionsOf(w, s0, s1, n - 1);
      actions := front + [a];
      AfterOneMore(w, s0, front, a);
    }
  }

  lemma AfterOneMore(w: World, s: System, front: seq<Action>, a: Action)
    requires Enabled(w, EndToEnd.After(w, s, front), a)
    ensures EndToEnd.After(w, s, front + [a]) == Does(w, EndToEnd.After(w, s, front), a)
  {
    assert (front + [a])[..|front|] == front;
  }

  lemma ActionsGoing(w: World, s0: System, s: System) returns (actions: seq<Action>)
    requires Going(w, s0, s)
    ensures AllPatient(actions) && EndToEnd.After(w, s0, actions) == s
  {
    var n: nat :| LeadsIn(w, s0, s, n);
    actions := ActionsOf(w, s0, s, n);
  }

  lemma BridgeGoes(w: World, s0: System, s: System, e: Event) returns (s': System)
    requires Going(w, s0, s) && !e.Start?
    requires forall tx: nat :: Offers(e, tx) ==> tx == s.nextTx
    requires e.Source? ==> e.data == Slice(w.geo, w.file, e.seqNo)
    requires e.Ack? ==> AckFrame(e.kind, e.ref, e.trailing) in s.acks
    ensures Going(w, s0, s') && s'.leaf == s.leaf && s'.acks == s.acks && s'.nextTx == s.nextTx + 1
    ensures s'.bridge == Step(s.bridge, e).bridge && s'.air == s.air + Emitted(Step(s.bridge, e).frames)
  {
    s' := Goes(w, s0, s, BridgeActs(e, s.nextTx + 1));
  }

  lemma LeafGoes(w: World, s0: System, s: System, f: Frame, mood: Mood) returns (s': System)
    requires Going(w, s0, s) && f in s.air && f != Abort
    ensures Going(w, s0, s') && s'.bridge == s.bridge && s'.air == s.air
    ensures s'.leaf == Hear(s.leaf, f, w.maxChunk, mood).leaf && s'.acks == s.acks + Emitted(Hear(s.leaf, f, w.maxChunk, mood).acks)
  {
    s' := Goes(w, s0, s, LeafHears(f, mood));
  }

  /** The bridge is at increment `k`, which the leaf is at, or has in flash already. */
  ghost predicate Behind(w: World, s: System, k: nat) {
    && Transferring(s.bridge) && s.bridge.geo == w.geo && s.bridge.increment == k
    && s.leaf.phase == Receiving && s.leaf.geo == w.geo && k <= s.leaf.increment < w.geo.totalIncrements
  }

  /** The bridge waits for the answer to an ask that is on the air. */
  ghost predicate AskedFor(s: System, tx: nat, k: nat) {
    s.bridge.phase == WaitingGaps && tx in s.bridge.history && BlastComplete(tx, k) in s.air
  }

  /** The chunks are in the leaf's buffer, or not needed any more. */
  predicate Has(l: Leaf, k: nat, chunks: set<nat>) {
    l.increment == k ==> forall q :: q in chunks ==> l.geo.Start(k) <= q && q - l.geo.Start(k) in l.slots
  }

  /** The leaf is where it was, with nothing lost from its buffer. */
  predicate Grown(l: Leaf, l': Leaf) {
    l' == l.(slots := l'.slots, bitmap := l'.bitmap) && l.slots.Keys <= l'.slots.Keys
  }

  // Chunks.

  lemma PlaceOf(g: Geometry, k: nat, q: nat)
    requires Sound(g) && g.Exact() && k < g.totalIncrements && q in g.Range(k)
    ensures g.Start(k) <= q < g.totalChunks && g.perIncrement > 0 && q % g.perIncrement == q - g.Start(k) < g.Size(k)
  {
    ExactShape(g, k);
    PositionInIncrement(k, g.perIncrement, q - g.Start(k));
  }

  lemma RangesApart(g: Geometry, k: nat, j: nat, q: nat)
    requires Sound(g) && g.Exact() && k < j < g.totalIncrements && q in g.Range(k)
    ensures q !in g.Range(j)
  {
    ExactShape(g, k);
    MulMono(k + 1, j, g.perIncrement);
    MulDist(k, 1, g.perIncrement);
  }

  /** A leaf that hears a chunk of the bridge's increment has it then, or has it in flash. */
  lemma ChunkIsHad(w: World, l: Leaf, k: nat, q: nat)
    requires Sound(w.geo) && w.geo.Exact() && |w.file| == w.geo.fileSize && k < w.geo.totalIncrements && q in w.geo.Range(k)
    requires l.phase == Receiving && l.geo == w.geo && k <= l.increment < w.geo.totalIncrements
    ensures var l' := DoData(l, q, Slice(w.geo, w.file, q)); Grown(l, l') && Has(l', k, {q})
  {
    PlaceOf(w.geo, k, q);
    SliceLength(w.geo, w.file, q);
    if k < l.increment { RangesApart(w.geo, k, l.increment, q); }
  }

  lemma HasMore(l: Leaf, l': Leaf, k: nat, a: set<nat>, b: set<nat>)
    requires Grown(l, l') && Has(l, k, a) && Has(l', k, b)
    ensures Has(l', k, a + b)
  {
  }

  lemma WantsInRange(w: World, s: System, k: nat)
    requires Fair(w) && Right(w, s) && Behind(w, s, k)
    ensures s.bridge.requested <= w.geo.Range(k) && Queued(s.bridge.pending) <= w.geo.Range(k) && Sound(w.geo)
    ensures s.bridge.phase == Blasting && s.bridge.requested == {} && s.bridge.pending == [] ==> s.bridge.sent != {}
  {
    ExactShape(w.geo, k);
    RangeBounds(w.geo, k);
  }

  /** The source brings one of the chunks wanted. */
  lemma ChunkSupplied(w: World, s0: System, s: System, k: nat, q: nat) returns (s': System)
    requires Going(w, s0, s) && Behind(w, s, k) && s.bridge.phase == Blasting && q in s.bridge.requested
    ensures Going(w, s0, s') && Behind(w, s', k) && s'.bridge.phase == Blasting && s'.leaf == s.leaf
    ensures s'.bridge.requested == s.bridge.requested - {q} && |s'.bridge.pending| == |s.bridge.pending| + 1
    ensures Queued(s'.bridge.pending) == Queued(s.bridge.pending) + {q} && s'.bridge.round == s.bridge.round
  {
    WantsInRange(w, s, k);
    PlaceOf(w.geo, k, q);
    SliceLength(w.geo, w.file, q);
    var data := Slice(w.geo, w.file, q);
    QueuedAppend(s.bridge.pending, Chunk(q, data));
    s' := BridgeGoes(w, s0, s, Source(q, data));
  }

  lemma PumpedHead(b: Bridge, tx: nat)
    requires b.phase == Blasting && b.requested == {} && b.pending != []
    ensures var o := Step(b, Blast(Sent(tx), Sent(tx)));
            var d := Data(b.pending[0].seqNo, b.pending[0].data);
            && o.bridge.geo == b.geo && o.bridge.increment == b.increment && o.bridge.round == b.round && o.bridge.requested == {}
            && d in Emitted(o.frames)
            && (if |b.pending| == 1 then
                  o.bridge.phase == WaitingGaps && tx in o.bridge.history && o.bridge.pending == []
                  && BlastComplete(tx, b.increment) in Emitted(o.frames)
                else o.bridge.phase == Blasting && o.bridge.pending == b.pending[1..])
  {
    var o := Step(b, Blast(Sent(tx), Sent(tx)));
    EmittedFew(o.frames);
    LastRemembered(b.history, tx);
    var d := Data(b.pending[0].seqNo, b.pending[0].data);
    if |b.pending| == 1 {
      assert o.frames == [d] + [BlastComplete(tx, b.increment)] == [d, BlastComplete(tx, b.increment)];
    } else {
      assert o.frames == [d];
    }
  }

  lemma PumpedClose(b: Bridge, tx: nat)
    requires b.phase == Blasting && b.requested == {} && b.pending == [] && b.sent != {}
    ensures var o := Step(b, Blast(Sent(tx), Sent(tx)));
            && o.bridge.geo == b.geo && o.bridge.increment == b.increment && o.bridge.round == b.round
            && o.bridge.phase == WaitingGaps && tx in o.bridge.history && BlastComplete(tx, b.increment) in Emitted(o.frames)
  {
    var o := Step(b, Blast(Sent(tx), Sent(tx)));
    assert o.frames == [BlastComplete(tx, b.increment)];
    EmittedFew(o.frames);
    LastRemembered(b.history, tx);
  }

  lemma HeadIsRight(w: World, s: System, k: nat)
    requires Fair(w) && Right(w, s) && Behind(w, s, k) && s.bridge.pending != []
    ensures var c := s.bridge.pending[0]; c.seqNo in w.geo.Range(k) && c.data == Slice(w.geo, w.file, c.seqNo)
  {
    WantsInRange(w, s, k);
    assert s.bridge.pending[0] in s.bridge.pending && s.bridge.pending[0].seqNo in Queued(s.bridge.pending);
  }

  lemma HeadSentOut(w: World, s0: System, s: System, k: nat) returns (s': System, tx: nat)
    requires Going(w, s0, s) && Behind(w, s, k) && s.bridge.phase == Blasting && s.bridge.requested == {} && s.bridge.pending != []
    ensures Going(w, s0, s') && Behind(w, s', k) && s'.leaf == s.leaf && s'.bridge.round == s.bridge.round && s'.bridge.requested == {}
    ensures Data(s.bridge.pending[0].seqNo, s.bridge.pending[0].data) in s'.air
    ensures if |s.bridge.pending| == 1 then AskedFor(s', tx, k) && s'.bridge.pending == []
            else s'.bridge.phase == Blasting && s'.bridge.pending == s.bridge.pending[1..]
  {
    tx := s.nextTx;
    PumpedHead(s.bridge, tx);
    s' := BridgeGoes(w, s0, s, Blast(Sent(tx), Sent(tx)));
  }

  lemma ChunkIsHeard(w: World, s0: System, s: System, k: nat, q: nat) returns (s': System)
    requires Going(w, s0, s) && Behind(w, s, k) && q in w.geo.Range(k) && Data(q, Slice(w.geo, w.file, q)) in s.air
    ensures Going(w, s0, s') && Behind(w, s', k) && Grown(s.leaf, s'.leaf) && Has(s'.leaf, k, {q})
    ensures s'.bridge == s.bridge && s'.air == s.air
  {
    ChunkIsHad(w, s.leaf, k, q);
    s' := LeafGoes(w, s0, s, Data(q, Slice(w.geo, w.file, q)), EASY);
  }

  /** One queued chunk goes out and is heard; after the last one the bridge asks. */
  lemma ChunkPumped(w: World, s0: System, s: System, k: nat) returns (s': System, tx: nat)
    requires Going(w, s0, s) && Behind(w, s, k) && s.bridge.phase == Blasting && s.bridge.requested == {} && s.bridge.pending != []
    ensures Going(w, s0, s') && SentAndHeard(w, s, s', k, {s.bridge.pending[0].seqNo}) && s'.bridge.requested == {}
    ensures if |s.bridge.pending| == 1 then AskedFor(s', tx, k) && s'.bridge.pending == []
            else s'.bridge.phase == Blasting && s'.bridge.pending == s.bridge.pending[1..]
  {
    HeadIsRight(w, s, k);
    var s1;
    s1, tx := HeadSentOut(w, s0, s, k);
    s' := ChunkIsHeard(w, s0, s1, k, s.bridge.pending[0].seqNo);
  }

  lemma RoundClosed(w: World, s0: System, s: System, k: nat) returns (s': System, tx: nat)
    requires Going(w, s0, s) && Behind(w, s, k) && s.bridge.phase == Blasting && s.bridge.requested == {} && s.bridge.pending == []
    ensures Going(w, s0, s') && Behind(w, s', k) && s'.leaf == s.leaf && s'.bridge.round == s.bridge.round && AskedFor(s', tx, k)
  {
    tx := s.nextTx;
    WantsInRange(w, s, k);
    PumpedClose(s.bridge, tx);
    s' := BridgeGoes(w, s0, s, Blast(Sent(tx), Sent(tx)));
  }

  lemma GrownTwice(a: Leaf, b: Leaf, c: Leaf)
    requires Grown(a, b) && Grown(b, c)
    ensures Grown(a, c)
  {
  }

  /** What has come of a stretch of the bridge's queue. */
  ghost predicate SentAndHeard(w: World, s: System, s': System, k: nat, chunks: set<nat>) {
    Behind(w, s', k) && Grown(s.leaf, s'.leaf) && Has(s'.leaf, k, chunks) && s'.bridge.round == s.bridge.round
  }

  lemma SentAndHeardTwice(w: World, s: System, s1: System, s2: System, k: nat, a: set<nat>, b: set<nat>)
    requires SentAndHeard(w, s, s1, k, a) && SentAndHeard(w, s1, s2, k, b)
    ensures SentAndHeard(w, s, s2, k, a + b)
  {
    GrownTwice(s.leaf, s1.leaf, s2.leaf);
    HasMore(s1.leaf, s2.leaf, k, a, b);
  }

  /** The queue's head goes out, and the rest of it as `s2` says. */
  ghost predicate HeadThenRest(w: World, s: System, s1: System, s2: System, k: nat) {
    && s.bridge.pending != [] && SentAndHeard(w, s, s1, k, {s.bridge.pending[0].seqNo})
    && SentAndHeard(w, s1, s2, k, Queued(s.bridge.pending[1..]))
  }

  lemma WholeQueue(w: World, s: System, s1: System, s2: System, k: nat)
    requires HeadThenRest(w, s, s1, s2, k)
    ensures SentAndHeard(w, s, s2, k, Queued(s.bridge.pending))
  {
    var pending := s.bridge.pending;
    QueuedHead(pending);
    SentAndHeardTwice(w, s, s1, s2, k, {pending[0].seqNo}, Queued(pending[1..]));
  }

  lemma QueueEnds(w: World, s: System, s1: System, k: nat)
    requires |s.bridge.pending| == 1 && SentAndHeard(w, s, s1, k, {s.bridge.pending[0].seqNo})
    ensures SentAndHeard(w, s, s1, k, Queued(s.bridge.pending))
  {
    QueuedHead(s.bridge.pending);
  }

  /** The queue is sent out and heard, and the bridge asks. */
  lemma {:induction false} QueueFinished(w: World, s0: System, s: System, k: nat) returns (s': System, tx: nat)
    requires Going(w, s0, s) && Behind(w, s, k) && s.bridge.phase == Blasting && s.bridge.requested == {} && s.bridge.pending != []
    ensures Going(w, s0, s') && AskedFor(s', tx, k) && SentAndHeard(w, s, s', k, Queued(s.bridge.pending))
    decreases |s.bridge.pending|
  {
    var s1, tx1 := ChunkPumped(w, s0, s, k);
    if |s.bridge.pending| == 1 {
      s', tx := s1, tx1;
      QueueEnds(w, s, s', k);
    } else {
      s', tx := QueueFinished(w, s0, s1, k);
      WholeQueue(w, s, s1, s', k);
    }
  }

  lemma QueuedHead(pending: seq<Chunk>)
    requires pending != []
    ensures Queued(pending) == {pending[0].seqNo} + Queued(pending[1..]) && (|pending| == 1 ==> Queued(pending[1..]) == {})
  {
  }

  /** The source brings everything that is wanted. */
  lemma {:induction false} RoundSupplied(w: World, s0: System, s: System, k: nat) returns (s': System)
    requires Going(w, s0, s) && Behind(w, s, k) && s.bridge.phase == Blasting
    ensures Going(w, s0, s') && Behind(w, s', k) && s'.bridge.phase == Blasting && s'.leaf == s.leaf
    ensures s'.bridge.requested == {} && Queued(s'.bridge.pending) == s.bridge.requested + Queued(s.bridge.pending)
    ensures s'.bridge.round == s.bridge.round
    decreases |s.bridge.requested|
  {
    s' := s;
    if s.bridge.requested != {} {
      var q :| q in s.bridge.requested;
      var s1 := ChunkSupplied(w, s0, s, k, q);
      TakenOut(s.bridge.requested, q, Queued(s.bridge.pending));
      s' := RoundSupplied(w, s0, s1, k);
    }
  }

  lemma TakenOut(a: set<nat>, q: nat, b: set<nat>)
    requires q in a
    ensures |a - {q}| < |a| && (a - {q}) + (b + {q}) == a + b
  {
  }

  /** The round is finished: everything it was still to send has been heard, and the bridge asks. */
  lemma RoundFinished(w: World, s0: System, s: System, k: nat) returns (s': System, tx: nat)
    requires Going(w, s0, s) && Behind(w, s, k) && s.bridge.phase == Blasting
    ensures Going(w, s0, s') && Behind(w, s', k) && Grown(s.leaf, s'.leaf) && s'.bridge.round == s.bridge.round && AskedFor(s', tx, k)
    ensures Has(s'.leaf, k, s.bridge.requested + Queued(s.bridge.pending))
  {
    var s1 := RoundSupplied(w, s0, s, k);
    if s1.bridge.pending != [] {
      s', tx := QueueFinished(w, s0, s1, k);
    } else {
      s', tx := RoundClosed(w, s0, s1, k);
    }
  }

  // Answers.

  lemma AllHadIsComplete(w: World, l: Leaf, k: nat)
    requires Sound(w.geo) && w.geo.Exact() && |w.file| == w.geo.fileSize && LeafRight(l, w.geo, w.file)
    requires l.phase == Receiving && l.increment == k < w.geo.totalIncrements
    requires forall i: nat :: i < w.geo.Size(k) ==> i in l.slots
    ensures Complete(l)
  {
    AllSlots(l.slots, w.geo.Size(k));
  }

  /** A complete increment goes to a willing flash. */
  lemma WillingWrite(w: World, l: Leaf, tx: nat)
    requires Sound(w.geo) && w.geo.Exact() && |w.file| == w.geo.fileSize && LeafRight(l, w.geo, w.file)
    requires l.phase == Receiving && Complete(l) && w.file[0] == IMAGE_MAGIC
    ensures var h := DoBlastComplete(l, tx, l.increment, Flash(w.geo.Size(l.increment), 0));
            && h.acks == [GapsAck(tx, [])] && h.leaf.repeated == l.repeated
            && if w.geo.IsLast(l.increment) then h.leaf.phase == AwaitingEnd
               else h.leaf.phase == Receiving && h.leaf.geo == w.geo && h.leaf.increment == l.increment + 1 && h.leaf.round == 0
  {
    var g, k := w.geo, l.increment;
    WillingPass(g, w.file, k, l.slots, l.image);
    assert Write(l.image, Parts(g, k, l.slots), Flash(g.Size(k), 0)).again == 0;
    WriteIncrementGoes(l, tx, Flash(g.Size(k), 0));
  }

  lemma WriteIncrementGoes(l: Leaf, tx: nat, flash: Flash)
    requires l.phase == Receiving && Complete(l)
    requires var a := Write(l.image, Parts(l.geo, l.increment, l.slots), flash); a.all && a.again == 0
    ensures var h := DoBlastComplete(l, tx, l.increment, flash);
            && h.acks == [GapsAck(tx, [])] && h.leaf.repeated == l.repeated
            && if l.geo.IsLast(l.increment) then h.leaf.phase == AwaitingEnd
               else h.leaf.phase == Receiving && h.leaf.geo == l.geo && h.leaf.increment == l.increment + 1 && h.leaf.round == 0
  {
  }

  lemma WillingPass(g: Geometry, file: bytes, k: nat, slots: map<nat, bytes>, image: bytes)
    requires Sound(g) && g.Exact() && |file| == g.fileSize && file[0] == IMAGE_MAGIC && k < g.totalIncrements
    requires SlotsRight(g, file, k, slots) && |slots| == g.Size(k) && (image == [] ==> Prefix(g, file, k) == [])
    ensures WritePass(image, Parts(g, k, slots), g.Size(k)).all
  {
    var parts := Parts(g, k, slots);
    forall i | 0 <= i < |parts|
      ensures parts[i] != []
    {
      PartsAreChunks(g, file, k, slots, i);
      SliceNotEmpty(g, file, k, i);
    }
    if parts != [] && image == [] {
      PartsAreChunks(g, file, k, slots, 0);
      FirstByte(g, file, k);
    }
    PassAllIff(image, parts, g.Size(k));
  }

  /** The leaf answers that it has the increment. */
  lemma SaidDone(w: World, s0: System, s: System, k: nat, tx: nat) returns (s': System)
    requires Going(w, s0, s) && Behind(w, s, k) && AskedFor(s, tx, k) && (k < s.leaf.increment || Complete(s.leaf))
    ensures Going(w, s0, s') && s'.bridge == s.bridge && GapsAck(tx, []) in s'.acks && s'.leaf.repeated == s.leaf.repeated
    ensures if k == s.leaf.increment && w.geo.IsLast(k) then s'.leaf.phase == AwaitingEnd
            else s'.leaf.phase == Receiving && s'.leaf.geo == w.geo && k < s'.leaf.increment
  {
    if k == s.leaf.increment { WillingWrite(w, s.leaf, tx); }
    EmittedFew([GapsAck(tx, [])]);
    s' := LeafGoes(w, s0, s, BlastComplete(tx, k), Mood(true, Flash(w.geo.Size(k), 0), COMPLETE_SUCCESS));
  }

  lemma NextCountsHere(w: World, s: System, k: nat)
    requires Fair(w) && Right(w, s) && s.bridge.phase == WaitingGaps && s.bridge.geo == w.geo && s.bridge.increment == k
    ensures Next16(k) == k + 1 && s.bridge.pending == []
  {
    NextCounts(s.bridge);
  }

  lemma DoneIsTaken(b: Bridge, k: nat, tx: nat, radio: Radio)
    requires b.phase == WaitingGaps && b.increment == k && tx in b.history && b.pending == [] && Next16(k) == k + 1 && radio.Sent?
    ensures var o := Step(b, Ack(GAPS, tx, GapsAck(tx, []).trailing, radio));
            if b.geo.IsLast(k) then o.bridge.phase == Ending && o.frames == [End]
            else o.bridge.phase == Blasting && o.bridge.geo == b.geo && o.bridge.increment == k + 1 && o.bridge.round == 0 && o.bridge.sent == {}
  {
    LoHi(0);
    GapsAnswered(b, tx, GapsAck(tx, []).trailing, radio);
    assert DoGaps(b, GapsAck(tx, []).trailing, radio) == IncrementDone(b, radio);
  }

  /** In the first round of an increment, with nothing of it sent. */
  ghost predicate AtStart(w: World, s: System, k: nat) {
    Behind(w, s, k) && s.bridge.phase == Blasting && s.bridge.round == 0 && s.bridge.sent == {}
  }

  /** All of the increment is then still to be sent. */
  lemma AllToSend(w: World, s: System, k: nat)
    requires Right(w, s) && AtStart(w, s, k)
    ensures s.bridge.requested + Queued(s.bridge.pending) == w.geo.Range(k)
  {
  }

  /** Everything is in flash, and the END is on the air. */
  ghost predicate AtEnd(w: World, s: System) {
    s.bridge.phase == Ending && s.leaf.phase == AwaitingEnd && End in s.air
  }

  /** Past increment `k`. */
  ghost predicate Past(w: World, s: System, k: nat) { if w.geo.IsLast(k) then AtEnd(w, s) else AtStart(w, s, k + 1) }

  lemma DoneTaken(w: World, s0: System, s: System, k: nat, tx: nat) returns (s': System)
    requires Going(w, s0, s) && s.bridge.phase == WaitingGaps && s.bridge.geo == w.geo && s.bridge.increment == k < w.geo.totalIncrements
    requires tx in s.bridge.history && GapsAck(tx, []) in s.acks
    requires if s.leaf.phase == AwaitingEnd then w.geo.IsLast(k)
             else s.leaf.phase == Receiving && s.leaf.geo == w.geo && k < s.leaf.increment < w.geo.totalIncrements
    ensures Going(w, s0, s') && s'.leaf == s.leaf
    ensures Past(w, s', k)
  {
    var a, radio := GapsAck(tx, []), Sent(s.nextTx);
    NextCountsHere(w, s, k);
    DoneIsTaken(s.bridge, k, tx, radio);
    EmittedFew([End]);
    assert AckFrame(GAPS, tx, a.trailing) == a;
    s' := BridgeGoes(w, s0, s, Ack(GAPS, tx, a.trailing, radio));
  }

  /** An ask for an increment the leaf has, or has all chunks of, gets the bridge past it. */
  lemma AskMovesOn(w: World, s0: System, s: System, k: nat, tx: nat) returns (s': System)
    requires Going(w, s0, s) && Behind(w, s, k) && AskedFor(s, tx, k) && (k < s.leaf.increment || Complete(s.leaf))
    ensures Going(w, s0, s') && s'.leaf.repeated == s.leaf.repeated
    ensures Past(w, s', k)
  {
    var s1 := SaidDone(w, s0, s, k, tx);
    s' := DoneTaken(w, s0, s1, k, tx);
  }

  /** A whole increment, from its start. */
  lemma IncrementGoes(w: World, s0: System, s: System, k: nat) returns (s': System)
    requires Going(w, s0, s) && AtStart(w, s, k)
    ensures Going(w, s0, s') && s'.leaf.repeated == s.leaf.repeated
    ensures Past(w, s', k)
  {
    AllToSend(w, s, k);
    var s1, tx := RoundFinished(w, s0, s, k);
    if k == s1.leaf.increment { WholeIncrementHad(w, s1, k); }
    s' := AskMovesOn(w, s0, s1, k, tx);
  }

  lemma WholeIncrementHad(w: World, s: System, k: nat)
    requires Fair(w) && Right(w, s) && Behind(w, s, k) && k == s.leaf.increment && Has(s.leaf, k, w.geo.Range(k))
    ensures Complete(s.leaf)
  {
    WholeRangeHad(w, s.leaf, k);
    AllHadIsComplete(w, s.leaf, k);
  }

  lemma WholeRangeHad(w: World, l: Leaf, k: nat)
    requires Sound(w.geo) && w.geo.Exact() && k < w.geo.totalIncrements && l.geo == w.geo && l.increment == k
    requires Has(l, k, w.geo.Range(k))
    ensures forall i: nat :: i < w.geo.Size(k) ==> i in l.slots
  {
    ExactShape(w.geo, k);
    forall i: nat | i < w.geo.Size(k)
      ensures i in l.slots
    {
      assert w.geo.Start(k) + i in w.geo.Range(k);
    }
  }

  ghost predicate PastStage(w: World, s0: System, s: System, k: nat, repeated: nat) {
    Going(w, s0, s) && Past(w, s, k) && s.leaf.repeated == repeated
  }

  lemma NextStage(w: World, s0: System, s: System, k: nat, repeated: nat) returns (s': System)
    requires PastStage(w, s0, s, k, repeated) && k + 1 < w.geo.totalIncrements
    ensures PastStage(w, s0, s', k + 1, repeated)
  {
    s' := IncrementGoes(w, s0, s, k + 1);
  }

  lemma {:induction false} LastStage(w: World, s0: System, s: System, k: nat, last: nat, repeated: nat) returns (s': System)
    requires PastStage(w, s0, s, k, repeated) && k <= last < w.geo.totalIncrements
    ensures PastStage(w, s0, s', last, repeated)
    decreases last - k
  {
    if k == last {
      s' := s;
    } else {
      var s1 := NextStage(w, s0, s, k, repeated);
      s' := LastStage(w, s0, s1, k + 1, last, repeated);
    }
  }

  lemma AllIncrementsGo(w: World, s0: System, s: System, k: nat) returns (s': System)
    requires Going(w, s0, s) && Past(w, s, k) && k < w.geo.totalIncrements
    ensures Going(w, s0, s') && AtEnd(w, s') && s'.leaf.repeated == s.leaf.repeated
  {
    s' := LastStage(w, s0, s, k, w.geo.totalIncrements - 1, s.leaf.repeated);
  }

  // From anywhere.

  lemma SentAgain(b: Bridge, tx: nat)
    requires b.phase == WaitingGaps && b.retries < MAX_BLAST_COMPLETE_RETRIES
    ensures var o := Step(b, Control(Sent(tx)));
            && o.bridge.phase == WaitingGaps && tx in o.bridge.history && o.frames == [BlastComplete(tx, b.increment)]
            && o.bridge.geo == b.geo && o.bridge.increment == b.increment && o.bridge.round == b.round
  {
    LastRemembered(b.history, tx);
  }

  lemma AsksAgain(w: World, s0: System, s: System, k: nat) returns (s': System, tx: nat)
    requires Going(w, s0, s) && Behind(w, s, k) && s.bridge.phase == WaitingGaps && s.bridge.retries < MAX_BLAST_COMPLETE_RETRIES
    ensures Going(w, s0, s') && Behind(w, s', k) && s'.leaf == s.leaf && s'.bridge.round == s.bridge.round && AskedFor(s', tx, k)
  {
    tx := s.nextTx;
    SentAgain(s.bridge, tx);
    EmittedFew([BlastComplete(tx, k)]);
    s' := BridgeGoes(w, s0, s, Control(Sent(tx)));
  }

  /**
   A leaf that is ahead of the bridge: its answer was lost. Whatever acknowledgements are lost on top of
   that, the bridge can ask once more, and gets to its next increment.
   */
  lemma LostAnswerIsRepeated(w: World, s: System, lost: set<AckFrame>) returns (actions: seq<Action>)
    requires Fair(w) && Right(w, s) && w.file[0] == IMAGE_MAGIC
    requires s.bridge.phase == WaitingGaps && s.bridge.retries < MAX_BLAST_COMPLETE_RETRIES
    requires s.leaf.phase == Receiving && s.bridge.increment < s.leaf.increment
    ensures var s' := EndToEnd.After(w, s.(acks := s.acks - lost), actions);
            AllPatient(actions) && s'.bridge.phase == Blasting && s'.bridge.increment == s.bridge.increment + 1 && s'.leaf.phase == Receiving
  {
    var k, s0 := s.bridge.increment, s.(acks := s.acks - lost);
    LossKeepsRight(w, s, lost);
    Started(w, s0);
    var s1, tx := AsksAgain(w, s0, s0, k);
    var s2 := AskMovesOn(w, s0, s1, k, tx);
    actions := ActionsGoing(w, s0, s2);
  }

  /** The chunks of increment `k` that the leaf's buffer lacks. */
  ghost predicate IsMissing(l: Leaf, q: nat) {
    l.geo.Start(l.increment) <= q < l.geo.Start(l.increment) + l.geo.Size(l.increment) && q - l.geo.Start(l.increment) !in l.slots
  }

  /** The leaf says what it lacks. */
  lemma SaidMissing(w: World, s0: System, s: System, k: nat, tx: nat) returns (s': System)
    requires Going(w, s0, s) && Behind(w, s, k) && AskedFor(s, tx, k) && k == s.leaf.increment && !Complete(s.leaf)
    requires s.leaf.round < MAX_RETRANSMIT_ROUNDS
    ensures Going(w, s0, s') && Behind(w, s', k) && s'.bridge == s.bridge && s'.leaf == s.leaf.(round := s.leaf.round + 1)
    ensures GapsAck(tx, s.leaf.bitmap) in s'.acks
  {
    EmittedFew([GapsAck(tx, s.leaf.bitmap)]);
    s' := LeafGoes(w, s0, s, BlastComplete(tx, k), EASY);
  }

  lemma BitmapShows(g: Geometry, l: Leaf, gaps: set<nat>)
    requires l.geo == g && BitmapRight(g, l.increment, l.slots, l.bitmap)
    requires gaps == Gaps(l.bitmap, g.Start(l.increment), g.Size(l.increment))
    ensures forall q: nat :: q in gaps <==> IsMissing(l, q)
  {
    forall q: nat
      ensures q in gaps <==> IsMissing(l, q)
    {
      BitmapShowsOne(g, l, q);
    }
  }

  lemma BitmapShowsOne(g: Geometry, l: Leaf, q: nat)
    requires l.geo == g && BitmapRight(g, l.increment, l.slots, l.bitmap)
    ensures q in Gaps(l.bitmap, g.Start(l.increment), g.Size(l.increment)) <==> IsMissing(l, q)
  {
    GapIs(l.bitmap, l.slots, g.Start(l.increment), g.Size(l.increment), q);
  }

  lemma GapIs(bitmap: bytes, slots: map<nat, bytes>, start: nat, n: nat, q: nat)
    requires forall i: nat :: Marked(bitmap, i) <==> i in slots
    ensures q in Gaps(bitmap, start, n) <==> start <= q < start + n && q - start !in slots
  {
    var gaps := Gaps(bitmap, start, n);
    assert q in gaps <==> q < start + n && Missing(bitmap, start, q);
    if start <= q {
      var i: nat := q - start;
      assert Marked(bitmap, i) <==> i in slots;
    }
  }

  lemma CarriedBitmap(tx: nat, bitmap: bytes)
    requires |bitmap| < 0x1_0000
    ensures var t := GapsAck(tx, bitmap).trailing; |t| == 2 + |bitmap| && Le16(t[0], t[1]) == |bitmap| && t[2..2 + |bitmap|] == bitmap
  {
    LoHi(|bitmap|);
    AppendedSuffix([Lo(|bitmap|), Hi(|bitmap|)], bitmap);
  }

  lemma GapsAreAsked(b: Bridge, tx: nat, bitmap: bytes, radio: Radio)
    requires b.phase == WaitingGaps && tx in b.history && 0 < |bitmap| < 0x1_0000 && b.round < MAX_RETRANSMIT_ROUNDS && b.pending == []
    requires Gaps(bitmap, b.geo.Start(b.increment), b.geo.Size(b.increment)) != {}
    ensures var o := Step(b, Ack(GAPS, tx, GapsAck(tx, bitmap).trailing, radio));
            && o.frames == [] && o.bridge.phase == Blasting && o.bridge.geo == b.geo && o.bridge.increment == b.increment
            && o.bridge.requested == Gaps(bitmap, b.geo.Start(b.increment), b.geo.Size(b.increment)) && o.bridge.pending == []
  {
    CarriedBitmap(tx, bitmap);
    GapsAnswered(b, tx, GapsAck(tx, bitmap).trailing, radio);
    BitmapIn(b, GapsAck(tx, bitmap).trailing, bitmap, radio);
  }

  /** The bridge asks the source for exactly what the leaf lacks. */
  lemma MissingTaken(w: World, s0: System, s: System, k: nat, tx: nat) returns (s': System)
    requires Going(w, s0, s) && Behind(w, s, k) && s.bridge.phase == WaitingGaps && tx in s.bridge.history
    requires k == s.leaf.increment && !Complete(s.leaf) && GapsAck(tx, s.leaf.bitmap) in s.acks && s.bridge.round < MAX_RETRANSMIT_ROUNDS
    ensures Going(w, s0, s') && Behind(w, s', k) && s'.leaf == s.leaf && s'.bridge.phase == Blasting
    ensures forall q: nat :: q in s'.bridge.requested <==> IsMissing(s.leaf, q)
  {
    var a := GapsAck(tx, s.leaf.bitmap);
    IncompleteShows(s.leaf, w.geo, w.file);
    NextCountsHere(w, s, k);
    GapsAreAsked(s.bridge, tx, s.leaf.bitmap, NoMemory);
    assert AckFrame(GAPS, tx, a.trailing) == a;
    s' := BridgeGoes(w, s0, s, Ack(GAPS, tx, a.trailing, NoMemory));
    BitmapShows(w.geo, s.leaf, s'.bridge.requested);
  }

  lemma MissingFilled(w: World, l: Leaf, l': Leaf, k: nat, asked: set<nat>)
    requires l.geo == w.geo && l.increment == k && Grown(l, l') && Has(l', k, asked)
    requires forall q: nat :: IsMissing(l, q) ==> q in asked
    ensures forall i: nat :: i < w.geo.Size(k) ==> i in l'.slots
  {
    forall i: nat | i < w.geo.Size(k)
      ensures i in l'.slots
    {
      var q := w.geo.Start(k) + i;
      if i !in l.slots { assert IsMissing(l, q); }
    }
  }

  /** One retransmit round, and the leaf has the whole increment. */
  lemma GapsFilled(w: World, s0: System, s: System, k: nat, tx: nat) returns (s': System, tx': nat)
    requires Going(w, s0, s) && Behind(w, s, k) && AskedFor(s, tx, k) && k == s.leaf.increment && !Complete(s.leaf)
    requires s.leaf.round < MAX_RETRANSMIT_ROUNDS && s.bridge.round < MAX_RETRANSMIT_ROUNDS
    ensures Going(w, s0, s') && Behind(w, s', k) && AskedFor(s', tx', k) && Complete(s'.leaf) && s'.leaf.repeated == s.leaf.repeated
    ensures s'.leaf.increment == k
  {
    var s1 := SaidMissing(w, s0, s, k, tx);
    var s2 := MissingTaken(w, s0, s1, k, tx);
    s', tx' := RoundFinished(w, s0, s2, k);
    HasPart(s'.leaf, k, s2.bridge.requested, Queued(s2.bridge.pending));
    FilledIsComplete(w, s1.leaf, s', k, s2.bridge.requested);
  }

  lemma FilledIsComplete(w: World, l: Leaf, s: System, k: nat, asked: set<nat>)
    requires Fair(w) && Right(w, s) && Behind(w, s, k)
    requires l.geo == w.geo && l.increment == k && Grown(l, s.leaf) && Has(s.leaf, k, asked)
    requires forall q: nat :: IsMissing(l, q) ==> q in asked
    ensures Complete(s.leaf)
  {
    MissingFilled(w, l, s.leaf, k, asked);
    AllHadIsComplete(w, s.leaf, k);
  }

  lemma HasPart(l: Leaf, k: nat, a: set<nat>, b: set<nat>)
    requires Has(l, k, a + b)
    ensures Has(l, k, a)
  {
  }

  /** What is left of the limits: one more ask, and one more round if the leaf still lacks something. */
  ghost predicate NotUsedUp(s: System) {
    && (s.bridge.phase == WaitingGaps ==> s.bridge.retries < MAX_BLAST_COMPLETE_RETRIES)
    && (s.bridge.increment == s.leaf.increment && !Complete(s.leaf) ==>
          s.bridge.round < MAX_RETRANSMIT_ROUNDS && s.leaf.round < MAX_RETRANSMIT_ROUNDS)
  }

  lemma IncrementResumed(w: World, s0: System, s: System, k: nat) returns (s': System)
    requires Going(w, s0, s) && Behind(w, s, k) && NotUsedUp(s)
    ensures Going(w, s0, s') && s'.leaf.repeated == s.leaf.repeated
    ensures Past(w, s', k)
  {
    var s1, tx;
    if s.bridge.phase == Blasting {
      s1, tx := RoundFinished(w, s0, s, k);
    } else {
      s1, tx := AsksAgain(w, s0, s, k);
    }
    if k == s1.leaf.increment && !Complete(s1.leaf) {
      StillIncomplete(w, s.leaf, s1.leaf);
      var s2, tx2 := GapsFilled(w, s0, s1, k, tx);
      s' := AskMovesOn(w, s0, s2, k, tx2);
    } else {
      s' := AskMovesOn(w, s0, s1, k, tx);
    }
  }

  lemma StillIncomplete(w: World, l: Leaf, l': Leaf)
    requires |w.file| == w.geo.fileSize && LeafRight(l, w.geo, w.file) && LeafRight(l', w.geo, w.file)
    requires l.phase == Receiving && Grown(l, l') && !Complete(l')
    ensures !Complete(l)
  {
    if Complete(l) {
      KeysFill(l.slots, l.geo.Size(l.increment));
      AllSlots(l'.slots, l.geo.Size(l.increment));
    }
  }

  /**
   From wherever losses have brought a transfer, with the leaf still receiving and not behind the bridge
   and the limits not used up, it can be brought to its end without either side starting over: the leaf
   then holds every increment and hears the END, and no byte has been written twice on the way.
   */
  lemma ResumesFromAnywhere(w: World, s: System) returns (actions: seq<Action>)
    requires Fair(w) && Right(w, s) && w.file[0] == IMAGE_MAGIC && Transferring(s.bridge)
    requires s.leaf.phase == Receiving && s.bridge.increment <= s.leaf.increment && NotUsedUp(s)
    ensures var s' := EndToEnd.After(w, s, actions);
            && AllPatient(actions) && AtEnd(w, s') && Done(s'.leaf) == w.geo.totalIncrements && s'.leaf.repeated == s.leaf.repeated
  {
    Started(w, s);
    IsBehind(w, s);
    var s' := Resumed(w, s, s, s.bridge.increment);
    EndMeansDone(w, s');
    actions := ActionsGoing(w, s, s');
  }

  lemma IsBehind(w: World, s: System)
    requires Fair(w) && Right(w, s) && Transferring(s.bridge) && s.leaf.phase == Receiving && s.bridge.increment <= s.leaf.increment
    ensures Behind(w, s, s.bridge.increment)
  {
  }

  lemma EndMeansDone(w: World, s: System)
    requires Right(w, s) && s.leaf.phase == AwaitingEnd
    ensures Done(s.leaf) == w.geo.totalIncrements
  {
  }

  lemma Resumed(w: World, s0: System, s: System, k: nat) returns (s': System)
    requires Going(w, s0, s) && Behind(w, s, k) && NotUsedUp(s)
    ensures Going(w, s0, s') && AtEnd(w, s') && s'.leaf.repeated == s.leaf.repeated
  {
    var s1 := IncrementResumed(w, s0, s, k);
    s' := AllIncrementsGo(w, s0, s1, k);
  }

  // The beginning and the end.

  lemma AnnouncedAgain(w: World, s0: System, s: System) returns (s': System, f: Frame)
    requires Going(w, s0, s) && s.bridge.phase == Announcing && s.bridge.attempts < MAX_CONTROL_RETRIES
    ensures Going(w, s0, s') && s'.leaf == s.leaf && s'.bridge.phase == Announcing && f in s'.air
    ensures f == Announce(s'.bridge.announceTx, |w.file|, w.action, w.requested)
  {
    var tx := s.nextTx;
    f := Announce(tx, |w.file|, w.action, w.requested);
    assert Step(s.bridge, Control(Sent(tx))).frames == [f];
    EmittedFew([f]);
    s' := BridgeGoes(w, s0, s, Control(Sent(tx)));
  }

  /** A leaf that is free accepts, and one that has accepted before accepts again. */
  lemma AnnouncementAccepted(w: World, s0: System, s: System, f: Frame) returns (s': System)
    requires Going(w, s0, s) && s.bridge.phase == Announcing && f in s.air
    requires f == Announce(s.bridge.announceTx, |w.file|, w.action, w.requested)
    requires s.leaf.phase == Free || s.leaf.phase == Receiving
    ensures Going(w, s0, s') && s'.bridge == s.bridge && s'.leaf.phase == Receiving && s'.leaf.geo == w.geo
    ensures s'.leaf.announceTx == f.tx && s'.leaf.action == w.action && AcceptAck(s'.leaf) in s'.acks
    ensures s'.leaf.repeated == if s.leaf.phase == Free then 0 else s.leaf.repeated
  {
    GeometryOf(w);
    var h := DoAnnounce(s.leaf, f, w.maxChunk, true);
    assert h.acks == [AcceptAck(h.leaf)];
    EmittedFew(h.acks);
    s' := LeafGoes(w, s0, s, f, EASY);
  }

  lemma AcceptanceTold(w: World, l: Leaf)
    requires Fair(w) && l.geo == w.geo && l.action == w.action
    ensures var a := AcceptAck(l);
            && a.kind == ACCEPT && a.ref == l.announceTx && |a.trailing| == 4 && a.trailing[3] == w.action
            && Le16(a.trailing[0], a.trailing[1]) == w.geo.chunk && a.trailing[2] as nat == MAX_INCREMENT_KB
            && w.geo.chunk <= w.requested && Sound(w.geo) && w.geo == Negotiate(|w.file|, w.geo.chunk, MAX_INCREMENT_KB)
  {
    GeometryOf(w);
    LoHi(w.geo.chunk);
  }

  lemma AcceptanceTaken(w: World, s0: System, s: System) returns (s': System)
    requires Going(w, s0, s) && s.bridge.phase == Announcing && s.leaf.phase == Receiving && s.leaf.geo == w.geo
    requires s.leaf.announceTx == s.bridge.announceTx && s.leaf.action == w.action && AcceptAck(s.leaf) in s.acks
    ensures Going(w, s0, s') && s'.leaf == s.leaf && AtStart(w, s', 0)
  {
    var a := AcceptAck(s.leaf);
    AcceptanceTold(w, s.leaf);
    BridgeAccepts(s.bridge, w.geo, a.ref, a.trailing);
    assert AckFrame(ACCEPT, a.ref, a.trailing) == a;
    s' := BridgeGoes(w, s0, s, Ack(ACCEPT, a.ref, a.trailing, NoMemory));
  }

  /** A transfer whose announcements or acceptances have been lost can be brought to its end while the bridge may announce once more. */
  lemma StartsFromAnywhere(w: World, s: System) returns (actions: seq<Action>)
    requires Fair(w) && Right(w, s) && w.file[0] == IMAGE_MAGIC
    requires s.bridge.phase == Announcing && s.bridge.attempts < MAX_CONTROL_RETRIES && s.leaf.phase in {Free, Receiving}
    ensures var s' := EndToEnd.After(w, s, actions);
            AllPatient(actions) && AtEnd(w, s') && s'.leaf.repeated == if s.leaf.phase == Free then 0 else s.leaf.repeated
  {
    Started(w, s);
    var s1, f := AnnouncedAgain(w, s, s);
    var s2 := AnnouncementAccepted(w, s, s1, f);
    var s3 := AcceptanceTaken(w, s, s2);
    var s4 := IncrementGoes(w, s, s3, 0);
    var s' := AllIncrementsGo(w, s, s4, 0);
    actions := ActionsGoing(w, s, s');
  }

  /** With the whole file in flash once, the END, the leaf's checks and its report make the transfer a success. */
  lemma EndSucceeds(w: World, s: System) returns (actions: seq<Action>)
    requires Fair(w) && Right(w, s) && w.file[0] == IMAGE_MAGIC && AtEnd(w, s) && s.leaf.repeated == 0
    ensures var s' := EndToEnd.After(w, s, actions);
            AllPatient(actions) && s'.bridge == Cleared(SUCCESS, 100) && s'.leaf.boot.Next() == w.file
  {
    Started(w, s);
    InstalledIff(s.leaf, COMPLETE_SUCCESS, w.geo, w.file);
    var s1 := LeafGoes(w, s, s, End, EASY);
    var a := CompleteAck(s1.leaf, COMPLETE_SUCCESS);
    EmittedFew([a]);
    var s2 := Goes(w, s, s1, LeafActs(Repeat(false)));
    assert AckFrame(COMPLETE, a.ref, a.trailing) == a;
    var s3 := BridgeGoes(w, s, s2, Ack(COMPLETE, a.ref, a.trailing, NoMemory));
    actions := ActionsGoing(w, s, s3);
  }
}
