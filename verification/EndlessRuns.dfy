/**
 For which geometries a transfer's work is bounded. A file with more increments than 16 bits can
 number lets a leaf that answers every increment with a full bitmap, which skips the test for the last
 increment, keep the bridge going round: after increment 65535 comes increment 0 again.
 */
module EndlessRuns {
  import opened Seqs
  import opened Bytes
  import opened Geometry
  import opened GapBitmap
  import opened Transfer
  import opened TransferMoves
  import opened TransferInvariants
  import opened TransferRuns
  import opened TransferTheorems
  import opened CooperativeRuns
  import opened BridgeRounds

  /** More increments than the number can count. */
  predicate Truncated(g: Geometry) { Sound(g) && !g.Exact() && 65535 * g.perIncrement < g.totalChunks }

  predicate Fresh(b: Bridge, g: Geometry, k: nat) {
    k <= 0xFFFF && BridgeAt(b, g, k, g.Start(k), g.Start(k), g.End(k))
  }

  // A full bitmap.

  const ALL: byte := 0xFF

  lemma AllBits(k: nat)
    requires k < 8
    ensures Bit(ALL, k)
  {
  }

  function Full(n: nat): bytes { seq(BitmapLen(n), _ => ALL) }

  lemma FullShowsNoGap(n: nat, start: nat)
    ensures Gaps(Full(n), start, n) == {}
  {
    forall i: nat | i < n
      ensures Marked(Full(n), i)
    {
      AllBits(i % 8);
    }
  }

  lemma FullAnswerSkips(b: Bridge, g: Geometry, k: nat, tx: nat)
    requires BridgeWaits(b, g, k, tx) && k <= 0xFFFF && 0 < g.Size(k) < 0x1_0000
    ensures var o := Step(b, Ack(GAPS, tx, Carrying(Full(g.Size(k))), NoMemory));
            Fresh(o.bridge, g, Next16(k)) && o.frames == []
  {
    BitmapAnswered(b, tx, Full(g.Size(k)), NoMemory);
    FullSkips(b, g, k, tx);
  }

  lemma FullSkips(b: Bridge, g: Geometry, k: nat, tx: nat)
    requires BridgeWaits(b, g, k, tx) && k <= 0xFFFF
    ensures var o := MissingChunks(b, Full(g.Size(k))); Fresh(o.bridge, g, Next16(k)) && o.frames == []
  {
    FullShowsNoGap(g.Size(k), g.Start(k));
  }

  // One increment.

  lemma RangeHasChunks(g: Geometry, k: nat)
    requires Truncated(g) && k <= 0xFFFF
    ensures g.Start(k) < g.End(k) <= g.totalChunks && 0 < g.Size(k) < 0x1_0000
  {
    MulMono(k, 65535, g.perIncrement);
  }

  lemma ChunkIsExpected(g: Geometry, s: nat)
    requires Sound(g) && s < g.totalChunks
    ensures g.ExpectedLen(s) > 0
  {
    MulMono(s, g.totalChunks - 1, g.chunk);
  }

  lemma NextIs(r: Run, e: Event)
    requires r.bridge.Busy() && Established(Step(r.bridge, e).bridge)
    ensures Next(r, e).bridge == Step(r.bridge, e).bridge && Next(r, e).plan == Step(r.bridge, e).bridge.geo
    ensures Next(r, e).dataFrames == r.dataFrames + CountData(Step(r.bridge, e).frames)
  {
  }

  lemma OneData(s: nat, data: bytes, tx: nat, k: nat)
    ensures CountData([Data(s, data)]) == 1 && CountData([Data(s, data), BlastComplete(tx, k)]) == 1
  {
    assert [Data(s, data)][1..] == [];
    assert [Data(s, data), BlastComplete(tx, k)][1..] == [BlastComplete(tx, k)] && [BlastComplete(tx, k)][1..] == [];
  }

  /** One chunk, from the source to the radio. */
  lemma ChunkSent(r: Run, g: Geometry, k: nat, lo: nat, s: nat, hi: nat) returns (events: seq<Event>)
    requires Sound(g) && BridgeAt(r.bridge, g, k, lo, s, hi) && lo <= s < hi <= g.totalChunks
    ensures var r' := After(r, events);
            && r'.plan == g && r'.dataFrames == r.dataFrames + 1
            && (if s + 1 < hi then BridgeAt(r'.bridge, g, k, lo, s + 1, hi) else BridgeWaits(r'.bridge, g, k, 0))
  {
    ChunkIsExpected(g, s);
    var data: bytes := seq(g.ExpectedLen(s), _ => 0);
    var e1, e2 := Source(s, data), Blast(Sent(0), Sent(0));
    SourceAnswers(r.bridge, s, hi, data);
    NextIs(r, e1);
    ChunkLeaves(r.bridge, g, k, lo, s, hi, data, 0);
    OneData(s, data, 0, k);
    NextIs(Next(r, e1), e2);
    AfterTwo(r, e1, e2);
    events := [e1] + [e2];
  }

  lemma {:induction false} IncrementSent(r: Run, g: Geometry, k: nat, lo: nat, s: nat, hi: nat) returns (events: seq<Event>)
    requires Sound(g) && BridgeAt(r.bridge, g, k, lo, s, hi) && lo <= s < hi <= g.totalChunks
    ensures var r' := After(r, events); r'.plan == g && r'.dataFrames > r.dataFrames && BridgeWaits(r'.bridge, g, k, 0)
    decreases hi - s
  {
    events := ChunkSent(r, g, k, lo, s, hi);
    if s + 1 < hi {
      var others := IncrementSent(After(r, events), g, k, lo, s + 1, hi);
      AfterAppend(r, events, others);
      events := events + others;
    }
  }

  /** A whole increment, answered with a full bitmap: the next one begins, whether there is one or not. */
  lemma GoesOn(r: Run, g: Geometry, k: nat) returns (events: seq<Event>)
    requires Truncated(g) && Fresh(r.bridge, g, k)
    ensures var r' := After(r, events); r'.plan == g && r'.dataFrames > r.dataFrames && Fresh(r'.bridge, g, Next16(k))
  {
    RangeHasChunks(g, k);
    events := IncrementSent(r, g, k, g.Start(k), g.Start(k), g.End(k));
    var e := Ack(GAPS, 0, Carrying(Full(g.Size(k))), NoMemory);
    FullAnswerSkips(After(r, events).bridge, g, k, 0);
    NextIs(After(r, events), e);
    AfterOne(After(r, events), e, []);
    AfterAppend(r, events, [e]);
    events := events + [e];
  }

  lemma {:induction false} GoesOnFor(r: Run, g: Geometry, k: nat, n: nat) returns (events: seq<Event>)
    requires Truncated(g) && Fresh(r.bridge, g, k) && r.plan == g
    ensures After(r, events).plan == g && After(r, events).dataFrames >= r.dataFrames + n
    decreases n
  {
    events := [];
    if n > 0 {
      events := GoesOn(r, g, k);
      var others := GoesOnFor(After(r, events), g, Next16(k), n - 1);
      AfterAppend(r, events, others);
      events := events + others;
    }
  }

  // The result.

  lemma AcceptIsFresh(b: Bridge, lo: byte, hi: byte, kb: byte)
    requires b.phase == Announcing && b.action == 1 && b.announceTx == 0 && b.pending == []
    requires 0 < Le16(lo, hi) <= b.requestedChunk && kb != 0
    ensures Fresh(Step(b, Ack(ACCEPT, 0, [lo, hi, kb, 1], Sent(0))).bridge, Negotiate(b.fileSize, Le16(lo, hi), kb as nat), 0)
  {
  }

  lemma AcceptedFresh(r0: Run, fileSize: nat, maxPayload: nat, lo: byte, hi: byte, kb: byte) returns (events: seq<Event>)
    requires PowerOn(r0) && 0 < fileSize <= MAX_FILE_SIZE && MIN_CHUNK <= ClampChunk(maxPayload) && 0 < Le16(lo, hi) <= ClampChunk(maxPayload) && kb != 0
    ensures var g := Negotiate(fileSize, Le16(lo, hi), kb as nat);
            Fresh(After(r0, events).bridge, g, 0) && After(r0, events).plan == g
  {
    FreshIsTracked(r0);
    var start := StartedRun(r0, fileSize, maxPayload);
    var r1 := Next(r0, start);
    var accept := Ack(ACCEPT, 0, [lo, hi, kb, 1], Sent(0));
    AcceptIsFresh(r1.bridge, lo, hi, kb);
    NextIs(r1, accept);
    AfterTwo(r0, start, accept);
    events := [start] + [accept];
  }

  /** There is a number of data frames that no run of a transfer with this geometry exceeds. */
  ghost predicate WorkBounded(r0: Run, g: Geometry) {
    exists n: nat :: NeverMore(r0, g, n)
  }

  ghost predicate NeverMore(r0: Run, g: Geometry, n: nat) {
    forall events: seq<Event> :: After(r0, events).plan == g ==> After(r0, events).dataFrames <= n
  }

  lemma ExactIsBounded(r0: Run, g: Geometry)
    requires PowerOn(r0) && g.Exact()
    ensures NeverMore(r0, g, 11 * g.totalChunks)
  {
    forall events: seq<Event> | After(r0, events).plan == g
      ensures After(r0, events).dataFrames <= 11 * g.totalChunks
    {
      WorkIsBounded(r0, events);
    }
  }

  /** The data frames of a transfer are bounded exactly for the files whose increments a 16-bit number can count; then eleven for each chunk suffice. */
  lemma WorkIsBoundedIff(r0: Run, fileSize: nat, maxPayload: nat, lo: byte, hi: byte, kb: byte)
    requires PowerOn(r0) && 0 < fileSize <= MAX_FILE_SIZE && MIN_CHUNK <= ClampChunk(maxPayload) && 0 < Le16(lo, hi) <= ClampChunk(maxPayload) && kb != 0
    ensures var g := Negotiate(fileSize, Le16(lo, hi), kb as nat);
            WorkBounded(r0, g) <==> fileSize <= 65535 * g.perIncrement * g.chunk
  {
    var g := Negotiate(fileSize, Le16(lo, hi), kb as nat);
    ExactIff(fileSize, Le16(lo, hi), kb as nat);
    if g.Exact() {
      ExactIsBounded(r0, g);
    } else {
      NotExactIsTruncated(fileSize, Le16(lo, hi), kb as nat);
      forall n: nat
        ensures !NeverMore(r0, g, n)
      {
        var events := AcceptedFresh(r0, fileSize, maxPayload, lo, hi, kb);
        var others := GoesOnFor(After(r0, events), g, 0, n + 1);
        AfterAppend(r0, events, others);
        assert After(r0, events + others).plan == g && After(r0, events + others).dataFrames > n;
      }
    }
  }

  lemma NotExactIsTruncated(fileSize: nat, chunk: nat, kb: nat)
    requires chunk > 0 && 0 < fileSize <= MAX_FILE_SIZE && !Negotiate(fileSize, chunk, kb).Exact()
    ensures Truncated(Negotiate(fileSize, chunk, kb))
  {
    var g := Negotiate(fileSize, chunk, kb);
    NegotiatedFacts(fileSize, chunk, kb);
    CeilDivAtMost(g.totalChunks, g.perIncrement, 65535);
  }
}
