/** The plain first round of an increment, chunk by chunk, with a source that answers and a radio that takes every frame. */
module BridgeRounds {
  import opened Bytes
  import opened Geometry
  import opened GapBitmap
  import opened Transfer
  import opened TransferMoves

  /** Of increment `k`, which ends before chunk `hi`, the chunks from `lo` to before `s` have been sent, and nothing is queued. */
  predicate BridgeAt(b: Bridge, g: Geometry, k: nat, lo: nat, s: nat, hi: nat) {
    && b.phase == Blasting && b.geo == g && b.increment == k && b.round == 0 && b.pending == []
    && b.requested == Interval(s, hi) && b.sent == Interval(lo, s)
  }

  predicate BridgeWaits(b: Bridge, g: Geometry, k: nat, tx: nat) {
    b.phase == WaitingGaps && b.geo == g && b.increment == k && b.round == 0 && tx in b.history && b.pending == []
  }

  lemma IntervalFirst(s: nat, hi: nat)
    requires s < hi
    ensures s in Interval(s, hi) && Interval(s, hi) - {s} == Interval(s + 1, hi)
    ensures Interval(s + 1, hi) == {} <==> s + 1 == hi
  {
    if s + 1 < hi { assert s + 1 in Interval(s + 1, hi); }
  }

  lemma SourceAnswers(b: Bridge, s: nat, hi: nat, data: bytes)
    requires b.phase == Blasting && b.pending == [] && b.requested == Interval(s, hi) && s < hi
    requires |data| == b.geo.ExpectedLen(s) > 0
    ensures Step(b, Source(s, data)) == Quiet(b.(pending := [Chunk(s, data)], requested := Interval(s + 1, hi)))
  {
    IntervalFirst(s, hi);
    assert [] + [Chunk(s, data)] == [Chunk(s, data)];
  }

  lemma OnlyChunkPumped(b: Bridge, c: Chunk, tx: nat)
    requires b.phase == Blasting && b.pending == [c]
    ensures var h := b.(sent := b.sent + {c.seqNo}, pending := []);
            Step(b, Blast(Sent(tx), Sent(tx)))
            == if b.requested == {} then Outcome(SendBlastComplete(h, Sent(tx)).bridge, [Data(c.seqNo, c.data), BlastComplete(tx, b.increment)])
               else Outcome(h, [Data(c.seqNo, c.data)])
  {
    assert HeadSent(b) == b.(sent := b.sent + {c.seqNo}, pending := []);
    assert [Data(c.seqNo, c.data)] + [BlastComplete(tx, b.increment)] == [Data(c.seqNo, c.data), BlastComplete(tx, b.increment)];
  }

  lemma ChunkLeaves(b: Bridge, g: Geometry, k: nat, lo: nat, s: nat, hi: nat, data: bytes, tx: nat)
    requires BridgeAt(b, g, k, lo, s, hi) && lo <= s < hi
    ensures var b1 := b.(pending := [Chunk(s, data)], requested := Interval(s + 1, hi));
            var o := Step(b1, Blast(Sent(tx), Sent(tx)));
            if s + 1 < hi then BridgeAt(o.bridge, g, k, lo, s + 1, hi) && o.frames == [Data(s, data)]
            else BridgeWaits(o.bridge, g, k, tx) && o.frames == [Data(s, data), BlastComplete(tx, k)]
  {
    var b1 := b.(pending := [Chunk(s, data)], requested := Interval(s + 1, hi));
    OnlyChunkPumped(b1, Chunk(s, data), tx);
    IntervalFirst(s, hi);
    IntervalSnoc(lo, s);
    LastRemembered(b.history, tx);
  }

  lemma LastRemembered(history: seq<nat>, tx: nat)
    ensures tx in Remember(history, tx)
  {
    var h := history + [tx];
    assert h[|h| - 1] == tx;
    if |h| > HISTORY_LENGTH { assert h[1..][|h| - 2] == tx; }
  }

  lemma BridgeAdvances(b: Bridge, g: Geometry, k: nat, tx: nat, trailing: bytes, radio: Radio)
    requires BridgeWaits(b, g, k, tx) && g.totalIncrements <= 0xFFFF
    requires |trailing| == 2 && Le16(trailing[0], trailing[1]) == 0 && radio.Sent?
    ensures var o := Step(b, Ack(GAPS, tx, trailing, radio));
            if g.IsLast(k) then o.bridge.phase == Ending && o.frames == [End]
            else BridgeAt(o.bridge, g, k + 1, g.Start(k + 1), g.Start(k + 1), g.End(k + 1)) && o.frames == []
  {
    assert Step(b, Ack(GAPS, tx, trailing, radio)) == IncrementDone(b, radio);
    DoneIs(b, g, k, radio);
  }

  lemma DoneIs(b: Bridge, g: Geometry, k: nat, radio: Radio)
    requires b.phase == WaitingGaps && b.geo == g && b.increment == k && b.pending == [] && radio.Sent? && g.totalIncrements <= 0xFFFF
    ensures var o := IncrementDone(b, radio);
            if g.IsLast(k) then o.bridge.phase == Ending && o.frames == [End]
            else BridgeAt(o.bridge, g, k + 1, g.Start(k + 1), g.Start(k + 1), g.End(k + 1)) && o.frames == []
  {
  }

  lemma BridgeAccepts(b: Bridge, g: Geometry, tx: nat, trailing: bytes)
    requires b.phase == Announcing && b.announceTx == tx && |trailing| == 4 && Sound(g)
    requires Le16(trailing[0], trailing[1]) == g.chunk <= b.requestedChunk && trailing[2] as nat == MAX_INCREMENT_KB
    requires trailing[3] == b.action && g == Negotiate(b.fileSize, g.chunk, MAX_INCREMENT_KB)
    requires b.pending == []
    ensures var o := Step(b, Ack(ACCEPT, tx, trailing, NoMemory));
            BridgeAt(o.bridge, g, 0, g.Start(0), g.Start(0), g.End(0)) && o.frames == []
  {
  }

  // Answers with a bitmap.

  lemma LowHigh(n: nat)
    requires n < 0x1_0000
    ensures Le16(ByteOf(n % 0x100), ByteOf(n / 0x100)) == n
  {
  }

  /** The trailing bytes of an acknowledgement with this bitmap. */
  function Carrying(bitmap: bytes): (t: bytes)
    requires |bitmap| < 0x1_0000
    ensures |t| == 2 + |bitmap|
  {
    [ByteOf(|bitmap| % 0x100), ByteOf(|bitmap| / 0x100)] + bitmap
  }

  lemma CarriedIs(bitmap: bytes)
    requires |bitmap| < 0x1_0000
    ensures var t := Carrying(bitmap); Le16(t[0], t[1]) == |bitmap| && t[2..2 + |bitmap|] == bitmap
  {
    LowHigh(|bitmap|);
  }

  lemma BitmapAnswered(b: Bridge, tx: nat, bitmap: bytes, radio: Radio)
    requires b.phase == WaitingGaps && tx in b.history && 0 < |bitmap| < 0x1_0000
    ensures Step(b, Ack(GAPS, tx, Carrying(bitmap), radio)) == MissingChunks(b, bitmap)
  {
    CarriedIs(bitmap);
    GapsAnswered(b, tx, Carrying(bitmap), radio);
    BitmapIn(b, Carrying(bitmap), bitmap, radio);
  }

  lemma GapsAnswered(b: Bridge, tx: nat, t: bytes, radio: Radio)
    requires b.phase == WaitingGaps && tx in b.history
    ensures Step(b, Ack(GAPS, tx, t, radio)) == DoGaps(b, t, radio)
  {
  }

  lemma BitmapIn(b: Bridge, t: bytes, bitmap: bytes, radio: Radio)
    requires bitmap != [] && |t| == 2 + |bitmap| && Le16(t[0], t[1]) == |bitmap| && t[2..2 + |bitmap|] == bitmap
    ensures DoGaps(b, t, radio) == MissingChunks(b, bitmap)
  {
  }
}
