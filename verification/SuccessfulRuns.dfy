/**
 The results about bridge and leaf together are not empty: over a radio that delivers, with a flash
 driver that takes every write, the transfer of every file that begins like an image succeeds.
 */
module SuccessfulRuns {
  import opened Options
  import opened Bytes
  import opened Geometry
  import opened GapBitmap
  import opened Transfer
  import opened TransferMoves
  import opened TransferInvariants
  import opened TransferRuns
  import opened Leaf
  import opened BridgeRounds
  import opened EndToEnd

  /** `s` is reached from `z`, where nothing has happened yet, without a reboot onto a new image. */
  ghost predicate Live(w: World, z: System, s: System) {
    && Fair(w) && Sound(w.geo) && |w.file| == w.geo.fileSize && Initial(w, z)
    && !s.seen.adopted && exists actions: seq<Action> :: EndToEnd.After(w, z, actions) == s
  }

  lemma LiveIsRight(w: World, z: System, s: System)
    requires Live(w, z, s)
    ensures Right(w, s)
  {
    var actions :| EndToEnd.After(w, z, actions) == s;
    RunsAreRight(w, z, actions);
  }

  lemma Act(w: World, z: System, s: System, a: Action) returns (s': System)
    requires Live(w, z, s) && Enabled(w, s, a) && a != LeafActs(Reboot)
    ensures s' == Does(w, s, a) && Live(w, z, s')
  {
    s' := Does(w, s, a);
    var actions :| EndToEnd.After(w, z, actions) == s;
    assert (actions + [a])[..|actions|] == actions;
    assert EndToEnd.After(w, z, actions + [a]) == s';
  }

  /** There are files to transfer, and places to begin. */
  lemma Possible() returns (w: World, z: System)
    ensures Fair(w) && Initial(w, z) && !Stale(w) && w.file[0] == IMAGE_MAGIC
  {
    var g := Negotiate(1, MIN_CHUNK, MAX_INCREMENT_KB);
    w := World([IMAGE_MAGIC], 1, MIN_CHUNK, MIN_CHUNK, g, [], {});
    ExactIff(1, MIN_CHUNK, MAX_INCREMENT_KB);
    NegotiatedFacts(1, MIN_CHUNK, MAX_INCREMENT_KB);
    MulMono(1, g.perIncrement, MIN_CHUNK);
    var leaf := Leaf(Free, 0, NONE, 0, 0, map[], [], 0, [], 0, [], Boot([], None));
    z := System(Cleared(STATUS_IDLE, 0), leaf, {}, {}, 0, 0, false, Seen(false, false, false));
  }

  // The leaf alone.

  /** The first `n` chunks of increment `k` are in the buffer. */
  predicate LeafAt(l: Leaf, g: Geometry, k: nat, n: nat) {
    l.phase == Receiving && l.geo == g && l.increment == k && l.slots.Keys == Interval(0, n) && l.repeated == 0
  }

  lemma NextSlot(g: Geometry, k: nat, n: nat)
    requires Sound(g) && g.Exact() && k < g.totalIncrements && n < g.Size(k)
    ensures g.Start(k) + n in g.Range(k) && (g.Start(k) + n) % g.perIncrement == n && g.perIncrement > 0
  {
    ExactShape(g, k);
    PositionInIncrement(k, g.perIncrement, n);
  }

  lemma LeafTakes(l: Leaf, g: Geometry, k: nat, n: nat, s: nat, data: bytes)
    requires LeafAt(l, g, k, n) && s in g.Range(k) && g.perIncrement > 0 && s % g.perIncrement == n
    requires |data| == g.ExpectedLen(s) > 0
    ensures LeafAt(DoData(l, s, data), g, k, n + 1)
  {
    IntervalSnoc(0, n);
    assert n !in l.slots.Keys;
    assert l.slots[n := data].Keys == l.slots.Keys + {n};
  }

  lemma FirstByte(g: Geometry, file: bytes, k: nat)
    requires Sound(g) && g.Exact() && |file| == g.fileSize && k < g.totalIncrements && Prefix(g, file, k) == []
    requires Slice(g, file, g.Start(k)) != []
    ensures Slice(g, file, g.Start(k))[0] == file[0]
  {
    ExactShape(g, k);
  }

  /** A full buffer goes to a willing flash in one pass. */
  lemma LeafWrites(l: Leaf, tx: nat, g: Geometry, file: bytes, k: nat)
    requires Sound(g) && g.Exact() && |file| == g.fileSize && file[0] == IMAGE_MAGIC && k < g.totalIncrements
    requires LeafRight(l, g, file) && LeafAt(l, g, k, g.Size(k))
    ensures var h := DoBlastComplete(l, tx, k, Flash(g.Size(k), 0));
            && h.acks == [GapsAck(tx, [])] && h.leaf.repeated == 0
            && if g.IsLast(k) then h.leaf.phase == AwaitingEnd else LeafAt(h.leaf, g, k + 1, 0)
  {
    var parts := Parts(g, k, l.slots);
    assert |l.slots| == |l.slots.Keys| == g.Size(k);
    assert ImageRight(l.image, 0, Prefix(g, file, k));
    WholePass(l.image, g, file, k, l.slots);
    assert Write(l.image, parts, Flash(g.Size(k), 0)) == Attempt(WritePass(l.image, parts, g.Size(k)).image, 0, true);
  }

  lemma WholePass(image: bytes, g: Geometry, file: bytes, k: nat, slots: map<nat, bytes>)
    requires Sound(g) && g.Exact() && |file| == g.fileSize && file[0] == IMAGE_MAGIC && k < g.totalIncrements
    requires SlotsRight(g, file, k, slots) && |slots| == g.Size(k) && image == Prefix(g, file, k)
    ensures WritePass(image, Parts(g, k, slots), g.Size(k)).all
  {
    var parts := Parts(g, k, slots);
    forall i | 0 <= i < |parts|
      ensures parts[i] != []
    {
      PartsAreChunks(g, file, k, slots, i);
      SliceNotEmpty(g, file, k, i);
    }
    if parts != [] && image == [] {
      PartsAreChunks(g, file, k, slots, 0);
      FirstByte(g, file, k);
    }
    PassAllIff(image, parts, g.Size(k));
  }

  // Together.

  predicate Together(w: World, s: System, k: nat, n: nat) {
    var g := w.geo;
    && k < g.totalIncrements && BridgeAt(s.bridge, g, k, g.Start(k), g.Start(k) + n, g.End(k)) && LeafAt(s.leaf, g, k, n)
  }

  predicate Asked(w: World, s: System, k: nat, tx: nat) {
    && k < w.geo.totalIncrements && BridgeWaits(s.bridge, w.geo, k, tx) && LeafAt(s.leaf, w.geo, k, w.geo.Size(k))
    && BlastComplete(tx, k) in s.air
  }

  lemma BridgeDoes(w: World, z: System, s: System, e: Event) returns (s': System)
    requires Live(w, z, s) && !e.Start? && !Restarts(s.bridge, e)
    requires forall tx: nat :: Offers(e, tx) ==> tx == s.nextTx
    requires e.Source? ==> e.data == Slice(w.geo, w.file, e.seqNo)
    requires e.Ack? ==> AckFrame(e.kind, e.ref, e.trailing) in s.acks
    ensures Live(w, z, s') && s'.leaf == s.leaf && s'.acks == s.acks
    ensures s'.bridge == Step(s.bridge, e).bridge && s'.air == s.air + Emitted(Step(s.bridge, e).frames)
  {
    s' := Act(w, z, s, BridgeActs(e, s.nextTx + 1));
  }

  lemma LeafDoes(w: World, z: System, s: System, f: Frame, mood: Mood) returns (s': System)
    requires Live(w, z, s) && f in s.air
    ensures Live(w, z, s') && s'.bridge == s.bridge && s'.air == s.air
    ensures s'.leaf == Hear(s.leaf, f, w.maxChunk, mood).leaf && s'.acks == s.acks + Emitted(Hear(s.leaf, f, w.maxChunk, mood).acks)
  {
    s' := Act(w, z, s, LeafHears(f, mood));
  }

  const EASY: Mood := Mood(true, Flash(0, 0), COMPLETE_SUCCESS)

  lemma Supplied(w: World, z: System, s: System, q: nat, hi: nat, data: bytes) returns (s': System)
    requires Live(w, z, s) && s.bridge.phase == Blasting && s.bridge.pending == []
    requires s.bridge.requested == Interval(q, hi) && q < hi
    requires data == Slice(w.geo, w.file, q) && |data| == s.bridge.geo.ExpectedLen(q) > 0
    ensures Live(w, z, s') && s'.leaf == s.leaf
    ensures s'.bridge == s.bridge.(pending := [Chunk(q, data)], requested := Interval(q + 1, hi))
    ensures End in s'.air ==> End in s.air
  {
    SourceAnswers(s.bridge, q, hi, data);
    s' := BridgeDoes(w, z, s, Source(q, data));
  }

  lemma BlastEmits(b: Bridge, b1: Bridge, g: Geometry, k: nat, lo: nat, q: nat, hi: nat, data: bytes, tx: nat)
    requires BridgeAt(b, g, k, lo, q, hi) && lo <= q < hi
    requires b1 == b.(pending := [Chunk(q, data)], requested := Interval(q + 1, hi))
    ensures var o := Step(b1, Blast(Sent(tx), Sent(tx)));
            && Data(q, data) in Emitted(o.frames) && End !in Emitted(o.frames)
            && if q + 1 < hi then BridgeAt(o.bridge, g, k, lo, q + 1, hi)
               else BridgeWaits(o.bridge, g, k, tx) && BlastComplete(tx, k) in Emitted(o.frames)
  {
    ChunkLeaves(b, g, k, lo, q, hi, data, tx);
    EmittedFew(Step(b1, Blast(Sent(tx), Sent(tx))).frames);
  }

  lemma Blasted(w: World, z: System, s: System, b: Bridge, k: nat, lo: nat, q: nat, hi: nat, data: bytes) returns (s': System)
    requires Live(w, z, s) && BridgeAt(b, w.geo, k, lo, q, hi) && lo <= q < hi
    requires s.bridge == b.(pending := [Chunk(q, data)], requested := Interval(q + 1, hi))
    ensures Live(w, z, s') && s'.leaf == s.leaf && Data(q, data) in s'.air
    ensures if q + 1 < hi then BridgeAt(s'.bridge, w.geo, k, lo, q + 1, hi)
            else BridgeWaits(s'.bridge, w.geo, k, s.nextTx) && BlastComplete(s.nextTx, k) in s'.air
    ensures End in s'.air ==> End in s.air
  {
    BlastEmits(b, s.bridge, w.geo, k, lo, q, hi, data, s.nextTx);
    s' := BridgeDoes(w, z, s, Blast(Sent(s.nextTx), Sent(s.nextTx)));
  }

  lemma EmittedFew<T>(fs: seq<T>)
    ensures |fs| == 1 ==> Emitted(fs) == {fs[0]}
    ensures |fs| == 2 ==> Emitted(fs) == {fs[0], fs[1]}
  {
    if fs != [] && fs[1..] != [] { assert Emitted(fs[1..]) == {fs[1]} + Emitted(fs[1..][1..]); }
  }

  lemma ChunkSent(w: World, z: System, s: System, k: nat, lo: nat, q: nat, hi: nat, data: bytes) returns (s': System, tx: nat)
    requires Live(w, z, s) && BridgeAt(s.bridge, w.geo, k, lo, q, hi) && lo <= q < hi
    requires data == Slice(w.geo, w.file, q) && |data| == w.geo.ExpectedLen(q) > 0
    ensures Live(w, z, s') && s'.leaf == s.leaf && Data(q, data) in s'.air
    ensures if q + 1 < hi then BridgeAt(s'.bridge, w.geo, k, lo, q + 1, hi)
            else BridgeWaits(s'.bridge, w.geo, k, tx) && BlastComplete(tx, k) in s'.air
    ensures End in s'.air ==> End in s.air
  {
    var s1 := Supplied(w, z, s, q, hi, data);
    tx := s1.nextTx;
    s' := Blasted(w, z, s1, s.bridge, k, lo, q, hi, data);
  }

  lemma ChunkHeard(w: World, z: System, s: System, k: nat, n: nat, q: nat, data: bytes) returns (s': System)
    requires Live(w, z, s) && Data(q, data) in s.air && LeafAt(s.leaf, w.geo, k, n)
    requires q in w.geo.Range(k) && w.geo.perIncrement > 0 && q % w.geo.perIncrement == n
    requires |data| == w.geo.ExpectedLen(q) > 0
    ensures Live(w, z, s') && s'.bridge == s.bridge && s'.air == s.air && LeafAt(s'.leaf, w.geo, k, n + 1)
    ensures End in s'.air ==> End in s.air
  {
    LeafTakes(s.leaf, w.geo, k, n, q, data);
    s' := LeafDoes(w, z, s, Data(q, data), EASY);
  }

  lemma ChunkPlace(g: Geometry, k: nat, n: nat, q: nat)
    requires Sound(g) && g.Exact() && k < g.totalIncrements && n < g.Size(k) && q == g.Start(k) + n
    ensures q in g.Range(k) && g.perIncrement > 0 && q % g.perIncrement == n
    ensures g.Start(k) <= q < g.End(k) <= g.totalChunks && (q + 1 < g.End(k) <==> n + 1 < g.Size(k))
  {
    ExactShape(g, k);
    NextSlot(g, k, n);
  }

  lemma ChunkArrivesAt(w: World, z: System, s: System, k: nat, n: nat, lo: nat, q: nat, hi: nat, data: bytes) returns (s': System, tx: nat)
    requires Live(w, z, s) && BridgeAt(s.bridge, w.geo, k, lo, q, hi) && LeafAt(s.leaf, w.geo, k, n) && lo <= q < hi
    requires q in w.geo.Range(k) && w.geo.perIncrement > 0 && q % w.geo.perIncrement == n
    requires data == Slice(w.geo, w.file, q) && |data| == w.geo.ExpectedLen(q) > 0
    ensures Live(w, z, s') && LeafAt(s'.leaf, w.geo, k, n + 1)
    ensures if q + 1 < hi then BridgeAt(s'.bridge, w.geo, k, lo, q + 1, hi)
            else BridgeWaits(s'.bridge, w.geo, k, tx) && BlastComplete(tx, k) in s'.air
    ensures End in s'.air ==> End in s.air
  {
    var s1;
    s1, tx := ChunkSent(w, z, s, k, lo, q, hi, data);
    s' := ChunkHeard(w, z, s1, k, n, q, data);
  }

  lemma TogetherNext(w: World, s: System, k: nat, n: nat, q: nat, tx: nat)
    requires Sound(w.geo) && w.geo.Exact() && k < w.geo.totalIncrements && n < w.geo.Size(k) && q == w.geo.Start(k) + n
    requires LeafAt(s.leaf, w.geo, k, n + 1)
    requires if q + 1 < w.geo.End(k) then BridgeAt(s.bridge, w.geo, k, w.geo.Start(k), q + 1, w.geo.End(k))
             else BridgeWaits(s.bridge, w.geo, k, tx) && BlastComplete(tx, k) in s.air
    ensures if n + 1 < w.geo.Size(k) then Together(w, s, k, n + 1) else Asked(w, s, k, tx)
  {
    ExactShape(w.geo, k);
  }

  /** The next chunk goes from the source to the leaf's buffer. */
  lemma ChunkArrives(w: World, z: System, s: System, k: nat, n: nat) returns (s': System, tx: nat)
    requires Live(w, z, s) && Together(w, s, k, n) && n < w.geo.Size(k)
    ensures Live(w, z, s')
    ensures if n + 1 < w.geo.Size(k) then Together(w, s', k, n + 1) else Asked(w, s', k, tx)
    ensures End in s'.air ==> End in s.air
  {
    var q := w.geo.Start(k) + n;
    ChunkPlace(w.geo, k, n, q);
    SliceLength(w.geo, w.file, q);
    s', tx := ChunkArrivesAt(w, z, s, k, n, w.geo.Start(k), q, w.geo.End(k), Slice(w.geo, w.file, q));
    TogetherNext(w, s', k, n, q, tx);
  }

  lemma {:induction false} IncrementArrives(w: World, z: System, s: System, k: nat, n: nat) returns (s': System, tx: nat)
    requires Live(w, z, s) && Together(w, s, k, n) && n < w.geo.Size(k)
    ensures Live(w, z, s') && Asked(w, s', k, tx)
    ensures End in s'.air ==> End in s.air
    decreases w.geo.Size(k) - n
  {
    s', tx := ChunkArrives(w, z, s, k, n);
    if n + 1 < w.geo.Size(k) {
      var s1 := s';
      s', tx := IncrementArrives(w, z, s1, k, n + 1);
    }
  }

  /** Everything is in flash and the bridge has said so. */
  predicate Ended(w: World, s: System) {
    s.bridge.phase == Ending && s.leaf.phase == AwaitingEnd && s.leaf.repeated == 0 && End in s.air
  }

  lemma AnswerHeard(w: World, z: System, s: System, k: nat, tx: nat) returns (s': System)
    requires Live(w, z, s) && Asked(w, s, k, tx) && w.file[0] == IMAGE_MAGIC
    ensures Live(w, z, s') && s'.bridge == s.bridge && s'.air == s.air && GapsAck(tx, []) in s'.acks
    ensures s'.leaf.repeated == 0
    ensures if w.geo.IsLast(k) then s'.leaf.phase == AwaitingEnd else LeafAt(s'.leaf, w.geo, k + 1, 0)
    ensures End in s'.air ==> End in s.air
  {
    LiveIsRight(w, z, s);
    LeafWrites(s.leaf, tx, w.geo, w.file, k);
    EmittedOne([GapsAck(tx, [])]);
    s' := LeafDoes(w, z, s, BlastComplete(tx, k), Mood(true, Flash(w.geo.Size(k), 0), COMPLETE_SUCCESS));
  }

  lemma AnswerTaken(w: World, z: System, s: System, k: nat, tx: nat) returns (s': System)
    requires Live(w, z, s) && BridgeWaits(s.bridge, w.geo, k, tx) && GapsAck(tx, []) in s.acks
    ensures Live(w, z, s') && s'.leaf == s.leaf
    ensures if w.geo.IsLast(k) then s'.bridge.phase == Ending && End in s'.air
            else BridgeAt(s'.bridge, w.geo, k + 1, w.geo.Start(k + 1), w.geo.Start(k + 1), w.geo.End(k + 1)) && s'.air == s.air
  {
    LiveIsRight(w, z, s);
    var t := GapsAck(tx, []).trailing;
    LoHi(0);
    BridgeAdvances(s.bridge, w.geo, k, tx, t, Sent(s.nextTx));
    EmittedOne([End]);
    assert AckFrame(GAPS, tx, t) == GapsAck(tx, []);
    s' := BridgeDoes(w, z, s, Ack(GAPS, tx, t, Sent(s.nextTx)));
  }

  lemma IncrementDoneTogether(w: World, z: System, s: System, k: nat, tx: nat) returns (s': System)
    requires Live(w, z, s) && Asked(w, s, k, tx) && w.file[0] == IMAGE_MAGIC
    ensures Live(w, z, s')
    ensures if w.geo.IsLast(k) then Ended(w, s') else Together(w, s', k + 1, 0) && (End in s'.air ==> End in s.air)
  {
    var s1 := AnswerHeard(w, z, s, k, tx);
    s' := AnswerTaken(w, z, s1, k, tx);
  }

  lemma {:induction false} AllSent(w: World, z: System, s: System, k: nat) returns (s': System, last: nat, tx: nat)
    requires Live(w, z, s) && Together(w, s, k, 0) && w.file[0] == IMAGE_MAGIC
    ensures Live(w, z, s') && Asked(w, s', last, tx) && w.geo.IsLast(last)
    ensures End in s'.air ==> End in s.air
    decreases w.geo.totalIncrements - k
  {
    ExactShape(w.geo, k);
    s', tx := IncrementArrives(w, z, s, k, 0);
    last := k;
    if !w.geo.IsLast(k) {
      var s1 := IncrementDoneTogether(w, z, s', k, tx);
      s', last, tx := AllSent(w, z, s1, k + 1);
    }
  }

  lemma AllIncrements(w: World, z: System, s: System, k: nat) returns (s': System)
    requires Live(w, z, s) && Together(w, s, k, 0) && w.file[0] == IMAGE_MAGIC
    ensures Live(w, z, s') && Ended(w, s')
  {
    var s1, last, tx := AllSent(w, z, s, k);
    s' := IncrementDoneTogether(w, z, s1, last, tx);
  }

  // The beginning and the end.

  lemma Announced(w: World, z: System, s: System) returns (s': System)
    requires Live(w, z, s) && s.bridge.phase == Idle
    ensures Live(w, z, s') && s'.leaf == s.leaf && s'.acks == s.acks && s'.seen == s.seen
    ensures s'.bridge.phase == Announcing && s'.bridge.announceTx == s.nextTx && s'.bridge.pending == []
    ensures Announce(s.nextTx, |w.file|, w.action, w.requested) in s'.air
    ensures End in s'.air ==> End in s.air
  {
    LiveIsRight(w, z, s);
    var tx := s.nextTx;
    var e := Start(|w.file|, w.action, w.requested + HEADER_OVERHEAD, Sent(tx));
    var o := Step(s.bridge, e);
    assert o.frames == [Announce(tx, |w.file|, w.action, w.requested)];
    EmittedOne(o.frames);
    s' := Act(w, z, s, BridgeActs(e, tx + 1));
  }

  lemma AnnouncementHeard(w: World, z: System, s: System, tx: nat) returns (s': System, a: AckFrame)
    requires Live(w, z, s) && s.leaf.phase == Free && Announce(tx, |w.file|, w.action, w.requested) in s.air
    ensures Live(w, z, s') && s'.bridge == s.bridge && s'.acks >= s.acks && LeafAt(s'.leaf, w.geo, 0, 0)
    ensures s'.leaf.image == [] && s'.leaf.boot.staged == None
    ensures a in s'.acks && a.kind == ACCEPT && a.ref == tx && |a.trailing| == 4 && a.trailing[3] == w.action
    ensures End in s'.air ==> End in s.air
  {
    LiveIsRight(w, z, s);
    var f := Announce(tx, |w.file|, w.action, w.requested);
    var h := DoAnnounce(s.leaf, f, w.maxChunk, true);
    a := AcceptAck(h.leaf);
    assert h.acks == [a] && LeafAt(h.leaf, w.geo, 0, 0);
    EmittedOne([a]);
    s' := LeafDoes(w, z, s, f, EASY);
  }

  lemma AcceptHeard(w: World, z: System, s: System, a: AckFrame) returns (s': System)
    requires Live(w, z, s) && s.bridge.phase == Announcing && LeafAt(s.leaf, w.geo, 0, 0) && s.bridge.pending == []
    requires a in s.acks && a.kind == ACCEPT && a.ref == s.bridge.announceTx && |a.trailing| == 4 && a.trailing[3] == w.action
    ensures Live(w, z, s') && Together(w, s', 0, 0)
    ensures End in s'.air ==> End in s.air
  {
    LiveIsRight(w, z, s);
    GeometryOf(w);
    assert AckRight(w, s, a);
    BridgeAccepts(s.bridge, w.geo, a.ref, a.trailing);
    assert AckFrame(ACCEPT, a.ref, a.trailing) == a;
    s' := BridgeDoes(w, z, s, Ack(ACCEPT, a.ref, a.trailing, NoMemory));
  }

  lemma Installed(w: World, z: System, s: System) returns (s': System)
    requires Live(w, z, s) && Ended(w, s)
    ensures Live(w, z, s') && s'.bridge == s.bridge && s'.leaf.phase == Finished
  {
    LiveIsRight(w, z, s);
    InstalledIff(s.leaf, COMPLETE_SUCCESS, w.geo, w.file);
    s' := LeafDoes(w, z, s, End, EASY);
  }

  lemma Reported(w: World, z: System, s: System, last: bool) returns (s': System)
    requires Live(w, z, s) && s.leaf.phase == Finished
    ensures Live(w, z, s') && s'.bridge == s.bridge && s'.air == s.air && s'.nextTx == s.nextTx
    ensures s'.leaf == (if last then Forget(s.leaf) else s.leaf)
    ensures CompleteAck(s.leaf, COMPLETE_SUCCESS) in s'.acks && ReportsSuccess(w, CompleteAck(s.leaf, COMPLETE_SUCCESS))
  {
    LiveIsRight(w, z, s);
    EmittedOne([CompleteAck(s.leaf, COMPLETE_SUCCESS)]);
    s' := Act(w, z, s, LeafActs(Repeat(last)));
  }

  /** A report of success is believed whenever the bridge is busy. */
  lemma Believed(w: World, z: System, s: System, a: AckFrame) returns (s': System)
    requires Live(w, z, s) && s.bridge.Busy() && a in s.acks && ReportsSuccess(w, a)
    ensures Live(w, z, s') && s'.bridge == Cleared(SUCCESS, 100) && s'.leaf == s.leaf && s'.seen == s.seen
  {
    LiveIsRight(w, z, s);
    assert AckFrame(COMPLETE, a.ref, a.trailing) == a;
    s' := Act(w, z, s, BridgeActs(Ack(COMPLETE, a.ref, a.trailing, NoMemory), s.nextTx));
  }

  lemma GetsGoing(w: World, z: System, s0: System) returns (s: System)
    requires Live(w, z, s0) && s0.bridge.phase == Idle && s0.leaf.phase == Free
    ensures Live(w, z, s) && Together(w, s, 0, 0)
    ensures End in s.air ==> End in s0.air
  {
    var s1 := Announced(w, z, s0);
    var s2, a := AnnouncementHeard(w, z, s1, s0.nextTx);
    s := AcceptHeard(w, z, s2, a);
  }

  /** A run to where the leaf has found the file good and the bridge waits for its report. */
  lemma GoodEnd(w: World, z: System) returns (s: System)
    requires Fair(w) && Initial(w, z) && w.file[0] == IMAGE_MAGIC
    ensures Live(w, z, s) && s.bridge.phase == Ending && s.leaf.phase == Finished
  {
    GeometryOf(w);
    assert EndToEnd.After(w, z, []) == z;
    var s1 := GetsGoing(w, z, z);
    var s2 := AllIncrements(w, z, s1, 0);
    s := Installed(w, z, s2);
  }

  /** Some run ends in a report of success, with the file about to be booted. */
  lemma SuccessIsReachable(w: World, z: System) returns (actions: seq<Action>)
    requires Fair(w) && Initial(w, z) && w.file[0] == IMAGE_MAGIC
    ensures var s := EndToEnd.After(w, z, actions); s.bridge == Cleared(SUCCESS, 100) && s.leaf.boot.Next() == w.file
  {
    var s1 := GoodEnd(w, z);
    LiveIsRight(w, z, s1);
    var s2 := Reported(w, z, s1, false);
    var s3 := Believed(w, z, s2, CompleteAck(s1.leaf, COMPLETE_SUCCESS));
    actions :| EndToEnd.After(w, z, actions) == s3;
  }

  /** A report of success can be reached exactly if the file begins with the image magic, or an old report is on the air. */
  lemma TransferableIff(w: World, z: System)
    requires Fair(w) && Initial(w, z)
    ensures (exists actions: seq<Action> :: EndToEnd.After(w, z, actions).bridge.status == SUCCESS)
            <==> w.file[0] == IMAGE_MAGIC || Stale(w)
  {
    if w.file[0] == IMAGE_MAGIC { var actions := SuccessIsReachable(w, z); }
    if Stale(w) { var actions := OldReportBelieved(w, z); }
    if actions: seq<Action> :| EndToEnd.After(w, z, actions).bridge.status == SUCCESS { RunsAreRight(w, z, actions); }
  }

  // Where a report of success does not mean what it says.

  lemma OldReportBelieved(w: World, z: System) returns (actions: seq<Action>)
    requires Fair(w) && Initial(w, z) && Stale(w)
    ensures var s := EndToEnd.After(w, z, actions); s.bridge.status == SUCCESS && !s.seen.ended && s.leaf == z.leaf
  {
    GeometryOf(w);
    assert EndToEnd.After(w, z, []) == z;
    var a :| a in w.leftOver && ReportsSuccess(w, a);
    var s1 := Announced(w, z, z);
    var s2 := Believed(w, z, s1, a);
    actions :| EndToEnd.After(w, z, actions) == s2;
  }

  /**
   Two files in turn: that success is reported only for a file the leaf has found good is true of all
   runs if and only if no report of success for an earlier file, with the same action, is left over.
   */
  lemma TrustworthyIff(w: World, z: System)
    requires Fair(w) && Initial(w, z)
    ensures (forall actions: seq<Action> ::
               var s := EndToEnd.After(w, z, actions); s.bridge.status == SUCCESS ==> s.seen.ended) <==> !Stale(w)
  {
    if Stale(w) {
      var actions := OldReportBelieved(w, z);
      var s := EndToEnd.After(w, z, actions);
      assert s.bridge.status == SUCCESS && !s.seen.ended;
    } else {
      forall actions: seq<Action>
        ensures var s := EndToEnd.After(w, z, actions); s.bridge.status == SUCCESS ==> s.seen.ended
      {
        SuccessMeansInstalled(w, z, actions);
      }
    }
  }

  lemma BridgeGivesUp(w: World, z: System, s: System) returns (s': System)
    requires Live(w, z, s) && s.bridge.Busy()
    ensures Live(w, z, s') && s'.bridge.phase == Idle && s'.leaf == s.leaf && s'.acks == s.acks && Abort in s'.air && s'.seen == s.seen
  {
    var o := Step(s.bridge, GiveUp(true));
    assert o.frames == [Abort];
    EmittedOne(o.frames);
    s' := Act(w, z, s, BridgeActs(GiveUp(true), s.nextTx));
  }

  /** Told to abort before it has rebooted, the leaf takes up a new announcement, which erases what it had staged. */
  lemma StartedOver(w: World, z: System, s: System) returns (s': System)
    requires Live(w, z, s) && s.bridge.phase == Idle && s.leaf.phase == Finished && Abort in s.air
    ensures Live(w, z, s') && s'.bridge.Busy() && s'.acks >= s.acks
    ensures LeafAt(s'.leaf, w.geo, 0, 0) && s'.leaf.image == [] && s'.leaf.boot.staged == None
  {
    var s1 := LeafDoes(w, z, s, Abort, EASY);
    var s2 := Announced(w, z, s1);
    var a;
    s', a := AnnouncementHeard(w, z, s2, s1.nextTx);
  }

  lemma NotBooted(w: World, z: System, s: System)
    requires Live(w, z, s) && LeafAt(s.leaf, w.geo, 0, 0) && s.leaf.boot.staged == None
    ensures s.leaf.slots == map[] && s.leaf.boot == Boot(w.before, None)
  {
    LiveIsRight(w, z, s);
    assert s.leaf.slots.Keys == {};
  }

  /**
   After a good END and its first report, bridge and leaf start over before the leaf has rebooted; then
   the report arrives. The bridge reports success, and the leaf is at the beginning of a transfer and
   would boot what it ran before.
   */
  lemma SuccessWithoutImage(w: World, z: System) returns (actions: seq<Action>)
    requires Fair(w) && Initial(w, z) && w.file[0] == IMAGE_MAGIC
    ensures var s := EndToEnd.After(w, z, actions);
            && s.bridge == Cleared(SUCCESS, 100)
            && s.leaf.phase == Receiving && s.leaf.image == [] && s.leaf.slots == map[] && s.leaf.boot == Boot(w.before, None)
  {
    var s1 := GoodEnd(w, z);
    var a := CompleteAck(s1.leaf, COMPLETE_SUCCESS);
    var s2 := Reported(w, z, s1, false);
    var s3 := BridgeGivesUp(w, z, s2);
    var s4 := StartedOver(w, z, s3);
    NotBooted(w, z, s4);
    var s5 := Believed(w, z, s4, a);
    actions :| EndToEnd.After(w, z, actions) == s5;
  }
}
