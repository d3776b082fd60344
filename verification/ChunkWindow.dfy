/**
 The window between the add-on, which cuts a request for chunks into batches, and the bridge, which
 admits a chunk only while it is pending, at the right offset and with the right CRC, and hands it
 to the transfer.
 */
module ChunkWindow {
  import opened Seqs
  import opened Octets
  import opened Bytes
  import opened Geometry
  import opened Transfer
  import opened TransferInvariants
  import opened Crc32

  const LAST_CHUNK: nat := 1
  const DASH: octet := 45
  const DIGIT_ZERO: octet := 48

  datatype WireChunk = WireChunk(sequence: nat, offset: nat, payload: bytes, flags: nat, crc32: word)

  datatype Batch = Batch(jobId: octets, requestId: octets, chunks: seq<WireChunk>)

  /** A request for chunks, as it travels to the add-on. */
  datatype Request = Request(requestId: octets, sequences: seq<nat>)

  /** What the bridge knows of its job, of the requests it has made, and of the one it waits for. */
  datatype Window = Window(
    active: bool,
    jobId: octets,
    transferring: bool,
    requestId: octets,
    pending: set<nat>,
    requests: nat,
    maxChunk: nat,
    maxBatch: nat)

  datatype Verdict = TAKEN | NO_JOB | STALE | TOO_LARGE | INVALID

  datatype Result = Result(window: Window, bridge: Bridge, frames: seq<Frame>, verdict: Verdict)

  // The bridge.

  predicate Admissible(w: Window, c: WireChunk) {
    && c.sequence in w.pending && c.payload != [] && |c.payload| <= w.maxChunk
    && c.offset == c.sequence * w.maxChunk && c.flags <= LAST_CHUNK && Crc(c.payload) == c.crc32
  }

  predicate Injectable(w: Window, b: Bridge, c: WireChunk) {
    w.transferring && DoSource(b, c.sequence, c.payload) != b
  }

  function Drop(w: Window, s: nat): Window {
    var pending := w.pending - {s};
    w.(pending := pending, requestId := if pending == {} then [] else w.requestId)
  }

  function AbortJob(w: Window, b: Bridge, verdict: Verdict): Result {
    var o := Step(b, GiveUp(true));
    Result(w.(active := false, transferring := false), o.bridge, o.frames, verdict)
  }

  predicate Fit(w: Window, b: Bridge, c: WireChunk) { Admissible(w, c) && Injectable(w, b, c) }

  function TakeChunks(w: Window, b: Bridge, chunks: seq<WireChunk>): Result
    decreases |chunks|
  {
    if chunks == [] then Result(w, b, [], TAKEN)
    else if !Fit(w, b, chunks[0]) then AbortJob(w, b, INVALID)
    else TakeChunks(Drop(w, chunks[0].sequence), DoSource(b, chunks[0].sequence, chunks[0].payload), chunks[1..])
  }

  /** Requests are numbered, and carry their job's name. */
  function RequestName(jobId: octets, n: nat): octets { jobId + [DASH] + Decimal(n) }

  function Decimal(n: nat): octets {
    if n < 10 then [DIGIT_ZERO + n] else Decimal(n / 10) + [DIGIT_ZERO + n % 10]
  }

  ghost predicate IsLeast(s: set<nat>, m: nat) { m in s && forall x :: x in s ==> m <= x }

  lemma {:induction false} HasLeast(s: set<nat>)
    requires s != {}
    ensures exists m :: IsLeast(s, m)
  {
    var x :| x in s;
    var rest := s - {x};
    assert s == rest + {x};
    if rest != {} {
      HasLeast(rest);
      var m :| IsLeast(rest, m);
      assert IsLeast(s, if x < m then x else m);
    } else {
      assert IsLeast(s, x);
    }
  }

  ghost function Least(s: set<nat>): (m: nat)
    requires s != {}
    ensures IsLeast(s, m)
  {
    HasLeast(s);
    var m :| IsLeast(s, m);
    m
  }

  /** The members of a set in ascending order. */
  ghost function Ascending(s: set<nat>): seq<nat> {
    if s == {} then [] else [Least(s)] + Ascending(s - {Least(s)})
  }

  /** Asking again for all that the transfer wants: a new request replaces the one waited for. */
  function Resend(w: Window, b: Bridge): Window {
    if w.transferring && b.requested != {} then
      w.(requests := w.requests + 1, requestId := RequestName(w.jobId, w.requests + 1), pending := b.requested)
    else w
  }

  /** What then goes out to the add-on. */
  ghost function Asked(w: Window, b: Bridge): seq<Request> {
    if w.transferring && b.requested != {} then [Request(RequestName(w.jobId, w.requests + 1), Ascending(b.requested))] else []
  }

  /** A batch that does not answer the request waited for is not looked at, but makes the bridge ask again. */
  function Take(w: Window, b: Bridge, batch: Batch): Result {
    if !w.active || batch.jobId != w.jobId then Result(w, b, [], NO_JOB)
    else if batch.requestId != w.requestId then Result(Resend(w, b), b, [], STALE)
    else Answer(w, b, batch.chunks)
  }

  function Answer(w: Window, b: Bridge, chunks: seq<WireChunk>): Result {
    if |chunks| > w.maxBatch then AbortJob(w, b, TOO_LARGE) else TakeChunks(w, b, chunks)
  }

  lemma {:induction false} AnswerIsCurrent(w: Window, b: Bridge, chunks: seq<WireChunk>)
    ensures TakeChunks(w, b, chunks).verdict in {TAKEN, INVALID}
    decreases |chunks|
  {
    if chunks != [] { AnswerIsCurrent(Drop(w, chunks[0].sequence), DoSource(b, chunks[0].sequence, chunks[0].payload), chunks[1..]); }
  }

  /** One chunk more, of those from the `i`th on. */
  lemma TakeNext(w: Window, b: Bridge, chunks: seq<WireChunk>, i: nat)
    requires i < |chunks|
    ensures var c := chunks[i];
            TakeChunks(w, b, chunks[i..])
            == if Fit(w, b, c) then TakeChunks(Drop(w, c.sequence), DoSource(b, c.sequence, c.payload), chunks[i + 1..])
               else AbortJob(w, b, INVALID)
  {
    NextSuffix(chunks, i);
  }

  /** Batches one after the other, up to the first that is not taken. */
  function TakeAll(w: Window, b: Bridge, batches: seq<Batch>): Result
    decreases |batches|
  {
    if batches == [] then Result(w, b, [], TAKEN)
    else
      var r := Take(w, b, batches[0]);
      if r.verdict != TAKEN then r else TakeAll(r.window, r.bridge, batches[1..])
  }

  // The add-on.

  datatype Source = Source(jobId: octets, maxChunk: nat, totalChunks: nat, maxBatch: nat)

  /** A read of up to `n` bytes at an offset, shorter at the end of the file. */
  function ReadAt(file: bytes, offset: nat, n: nat): bytes {
    if offset >= |file| then [] else file[offset..Min(|file|, offset + n)]
  }

  function BuildChunk(src: Source, file: bytes, s: nat): WireChunk {
    var payload := ReadAt(file, s * src.maxChunk, src.maxChunk);
    WireChunk(s, s * src.maxChunk, payload, if src.totalChunks != 0 && s == src.totalChunks - 1 then LAST_CHUNK else 0, Crc(payload))
  }

  function BuildChunks(src: Source, file: bytes, sequences: seq<nat>): seq<WireChunk> {
    seq(|sequences|, i requires 0 <= i < |sequences| => BuildChunk(src, file, sequences[i]))
  }

  function BatchSize(src: Source): (n: nat)
    ensures n > 0
  {
    if src.maxBatch > 1 then src.maxBatch else 1
  }

  function Batches(src: Source, requestId: octets, file: bytes, sequences: seq<nat>): seq<Batch>
    decreases |sequences|
  {
    if sequences == [] then []
    else
      var n := if BatchSize(src) < |sequences| then BatchSize(src) else |sequences|;
      [Batch(src.jobId, requestId, BuildChunks(src, file, sequences[..n]))] + Batches(src, requestId, file, sequences[n..])
  }

  method BuildChunkFromFile(src: Source, file: bytes, s: nat) returns (c: WireChunk)
    ensures c == BuildChunk(src, file, s)
  {
    var offset := s * src.maxChunk;
    var payload := ReadAt(file, offset, src.maxChunk);
    var flags := if src.totalChunks != 0 && s == src.totalChunks - 1 then LAST_CHUNK else 0;
    var crc := Crc32Bytes(payload);
    return WireChunk(s, offset, payload, flags, crc);
  }

  method BuildBatch(src: Source, file: bytes, sequences: seq<nat>) returns (chunks: seq<WireChunk>)
    ensures chunks == BuildChunks(src, file, sequences)
  {
    chunks := [];
    for i := 0 to |sequences|
      invariant |chunks| == i && forall j :: 0 <= j < i ==> chunks[j] == BuildChunk(src, file, sequences[j])
    {
      var c := BuildChunkFromFile(src, file, sequences[i]);
      chunks := chunks + [c];
    }
  }

  lemma {:induction false} BatchesFrom(src: Source, requestId: octets, file: bytes, sequences: seq<nat>, start: nat)
    requires start < |sequences|
    ensures var end := Min(start + BatchSize(src), |sequences|);
            Batches(src, requestId, file, sequences[start..])
            == [Batch(src.jobId, requestId, BuildChunks(src, file, sequences[start..end]))] + Batches(src, requestId, file, sequences[end..])
  {
    var rest := sequences[start..];
    var n := if BatchSize(src) < |rest| then BatchSize(src) else |rest|;
    assert rest[..n] == sequences[start..start + n];
    assert rest[n..] == sequences[start + n..];
  }

  /** Sends the requested chunks, in batches of the agreed size. */
  method SendChunks(src: Source, requestId: octets, sequences: seq<nat>, file: bytes) returns (batches: seq<Batch>)
    ensures batches == if src.jobId == [] then [] else Batches(src, requestId, file, sequences)
  {
    batches := [];
    if src.jobId == [] {
      return;
    }
    var size, start := BatchSize(src), 0;
    assert sequences[0..] == sequences;
    while start < |sequences|
      invariant start <= |sequences|
      invariant batches + Batches(src, requestId, file, sequences[start..]) == Batches(src, requestId, file, sequences)
    {
      BatchesFrom(src, requestId, file, sequences, start);
      var end := Min(start + size, |sequences|);
      var chunks := BuildBatch(src, file, sequences[start..end]);
      Assoc(batches, [Batch(src.jobId, requestId, chunks)], Batches(src, requestId, file, sequences[end..]));
      batches := batches + [Batch(src.jobId, requestId, chunks)];
      start := end;
    }
  }

  // When a batch is taken.

  function Sequences(chunks: seq<WireChunk>): set<nat> {
    if chunks == [] then {} else {chunks[0].sequence} + Sequences(chunks[1..])
  }

  /** The transfer with some chunks queued. */
  function Queued(b: Bridge, chunks: seq<Chunk>, sequences: set<nat>): Bridge {
    b.(pending := b.pending + chunks, requested := b.requested - sequences)
  }

  lemma QueuedTwice(b: Bridge, first: seq<Chunk>, others: seq<Chunk>, x: set<nat>, y: set<nat>)
    ensures Queued(Queued(b, first, x), others, y) == Queued(b, first + others, x + y)
  {
    Assoc(b.pending, first, others);
    assert b.requested - x - y == b.requested - (x + y);
  }

  predicate AllDifferent(chunks: seq<WireChunk>) {
    chunks != [] ==> chunks[0].sequence !in Sequences(chunks[1..]) && AllDifferent(chunks[1..])
  }

  /** The chunks as the transfer queues them. */
  function Queue(chunks: seq<WireChunk>): seq<Chunk> {
    if chunks == [] then [] else [Chunk(chunks[0].sequence, chunks[0].payload)] + Queue(chunks[1..])
  }

  lemma InjectableIff(w: Window, b: Bridge, c: WireChunk)
    ensures Injectable(w, b, c) <==>
              && w.transferring && b.phase == Blasting && c.sequence in b.requested
              && b.geo.ExpectedLen(c.sequence) != 0 && |c.payload| == b.geo.ExpectedLen(c.sequence)
    ensures Injectable(w, b, c) ==>
              DoSource(b, c.sequence, c.payload)
              == b.(pending := b.pending + [Chunk(c.sequence, c.payload)], requested := b.requested - {c.sequence})
  {
  }

  /** Once a chunk is taken, what fitted still fits, except for that chunk's own sequence. */
  lemma FitAfter(w: Window, b: Bridge, taken: WireChunk, c: WireChunk)
    requires Fit(w, b, taken)
    ensures Fit(Drop(w, taken.sequence), DoSource(b, taken.sequence, taken.payload), c)
            <==> Fit(w, b, c) && c.sequence != taken.sequence
  {
    InjectableIff(w, b, taken);
    InjectableIff(w, b, c);
    InjectableIff(Drop(w, taken.sequence), DoSource(b, taken.sequence, taken.payload), c);
  }

  predicate AllFit(w: Window, b: Bridge, chunks: seq<WireChunk>) {
    forall i :: 0 <= i < |chunks| ==> Fit(w, b, chunks[i])
  }

  lemma {:induction false} InSequences(chunks: seq<WireChunk>, s: nat)
    ensures s in Sequences(chunks) <==> exists i :: 0 <= i < |chunks| && chunks[i].sequence == s
  {
    if chunks != [] {
      InSequences(chunks[1..], s);
      if s in Sequences(chunks[1..]) {
        var i :| 0 <= i < |chunks[1..]| && chunks[1..][i].sequence == s;
        assert chunks[i + 1].sequence == s;
      }
      if i :| 0 <= i < |chunks| && chunks[i].sequence == s {
        assert i > 0 ==> chunks[1..][i - 1].sequence == s;
      }
    }
  }

  lemma RestFits(w: Window, b: Bridge, chunks: seq<WireChunk>)
    requires chunks != [] && Fit(w, b, chunks[0])
    ensures AllFit(Drop(w, chunks[0].sequence), DoSource(b, chunks[0].sequence, chunks[0].payload), chunks[1..])
            <==> AllFit(w, b, chunks[1..]) && chunks[0].sequence !in Sequences(chunks[1..])
  {
    InSequences(chunks[1..], chunks[0].sequence);
    forall i | 0 <= i < |chunks[1..]|
      ensures Fit(Drop(w, chunks[0].sequence), DoSource(b, chunks[0].sequence, chunks[0].payload), chunks[1..][i])
              <==> Fit(w, b, chunks[1..][i]) && chunks[1..][i].sequence != chunks[0].sequence
    {
      FitAfter(w, b, chunks[0], chunks[1..][i]);
    }
  }

  /** Chunks are taken, each of them once, if and only if every one fits and no sequence comes twice. */
  lemma {:induction false} TakenIff(w: Window, b: Bridge, chunks: seq<WireChunk>)
    ensures TakeChunks(w, b, chunks).verdict == TAKEN <==> AllFit(w, b, chunks) && AllDifferent(chunks)
    decreases |chunks|
  {
    if chunks != [] && Fit(w, b, chunks[0]) {
      RestFits(w, b, chunks);
      TakenIff(Drop(w, chunks[0].sequence), DoSource(b, chunks[0].sequence, chunks[0].payload), chunks[1..]);
      assert AllFit(w, b, chunks) <==> AllFit(w, b, chunks[1..]) by {
        assert forall i :: 1 <= i < |chunks| ==> chunks[i] == chunks[1..][i - 1];
      }
    }
  }

  /** What taking chunks does: they are queued in their order, and neither side waits for them any more. */
  lemma {:induction false} TakenEffect(w: Window, b: Bridge, chunks: seq<WireChunk>)
    requires TakeChunks(w, b, chunks).verdict == TAKEN
    ensures var r := TakeChunks(w, b, chunks);
            && r.frames == []
            && r.bridge == Queued(b, Queue(chunks), Sequences(chunks))
            && r.window == w.(pending := w.pending - Sequences(chunks),
                              requestId := if chunks != [] && w.pending <= Sequences(chunks) then [] else w.requestId)
    decreases |chunks|
  {
    if chunks == [] {
      assert b.pending + [] == b.pending && b.requested - {} == b.requested && w.pending - {} == w.pending;
    } else {
      var c, w', b' := chunks[0], Drop(w, chunks[0].sequence), DoSource(b, chunks[0].sequence, chunks[0].payload);
      InjectableIff(w, b, c);
      TakenEffect(w', b', chunks[1..]);
      QueuedTwice(b, [Chunk(c.sequence, c.payload)], Queue(chunks[1..]), {c.sequence}, Sequences(chunks[1..]));
      PendingAfter(w.pending, c.sequence, Sequences(chunks[1..]));
    }
  }

  lemma PendingAfter(pending: set<nat>, s: nat, others: set<nat>)
    ensures pending - {s} - others == pending - ({s} + others)
    ensures pending - {s} == {} ==> pending <= {s} + others
    ensures pending - {s} <= others <==> pending <= {s} + others
  {
  }

  // A whole request.

  function Elements(sequences: seq<nat>): set<nat> {
    if sequences == [] then {} else {sequences[0]} + Elements(sequences[1..])
  }

  predicate Different(sequences: seq<nat>) {
    sequences != [] ==> sequences[0] !in Elements(sequences[1..]) && Different(sequences[1..])
  }

  /** In ascending order every member of a set comes exactly once. */
  lemma {:induction false} AscendingFacts(s: set<nat>)
    ensures Elements(Ascending(s)) == s && Different(Ascending(s)) && (Ascending(s) == [] <==> s == {})
  {
    if s != {} {
      AscendingFacts(s - {Least(s)});
      assert Ascending(s)[1..] == Ascending(s - {Least(s)});
    }
  }

  /** The file's chunks as the transfer queues them. */
  function Injected(g: Geometry, file: bytes, sequences: seq<nat>): seq<Chunk>
    requires |file| == g.fileSize
  {
    if sequences == [] then [] else [Chunk(sequences[0], Slice(g, file, sequences[0]))] + Injected(g, file, sequences[1..])
  }

  /** The two ends and the transfer agree on the job, the request, the sizes, and what is still to come. */
  predicate Agreed(src: Source, w: Window, b: Bridge, file: bytes, requestId: octets, sequences: seq<nat>) {
    && Sound(b.geo) && |file| == b.geo.fileSize && b.phase == Blasting
    && src.maxChunk == w.maxChunk == b.geo.chunk && BatchSize(src) <= w.maxBatch
    && w.active && w.transferring && src.jobId == w.jobId && (sequences != [] ==> w.requestId == requestId)
    && Different(sequences) && Elements(sequences) == w.pending && w.pending <= b.requested
    && (forall s :: s in w.pending ==> s < b.geo.totalChunks)
  }

  lemma BuiltPayload(g: Geometry, file: bytes, s: nat, src: Source)
    requires Sound(g) && |file| == g.fileSize && s < g.totalChunks && src.maxChunk == g.chunk
    ensures BuildChunk(src, file, s).payload == Slice(g, file, s)
    ensures |Slice(g, file, s)| == g.ExpectedLen(s) && 0 < g.ExpectedLen(s) <= g.chunk
  {
    ChunkShape(g, s);
    MulMono(s, g.totalChunks - 1, g.chunk);
    MulDist(s, 1, g.chunk);
  }

  /** A chunk the add-on builds for a requested sequence fits. */
  lemma BuiltFits(src: Source, w: Window, b: Bridge, file: bytes, s: nat)
    requires Sound(b.geo) && |file| == b.geo.fileSize && b.phase == Blasting && s < b.geo.totalChunks
    requires src.maxChunk == w.maxChunk == b.geo.chunk && w.transferring && s in w.pending && s in b.requested
    ensures Fit(w, b, BuildChunk(src, file, s))
  {
    BuiltPayload(b.geo, file, s, src);
    InjectableIff(w, b, BuildChunk(src, file, s));
  }

  lemma ElementsTail(sequences: seq<nat>)
    requires sequences != []
    ensures sequences[0] in Elements(sequences) && Elements(sequences[1..]) <= Elements(sequences)
  {
  }

  lemma {:induction false} BuiltChunks(g: Geometry, src: Source, file: bytes, sequences: seq<nat>)
    requires Sound(g) && |file| == g.fileSize && src.maxChunk == g.chunk
    requires forall s :: s in Elements(sequences) ==> s < g.totalChunks
    ensures var chunks := BuildChunks(src, file, sequences);
            && Sequences(chunks) == Elements(sequences) && (AllDifferent(chunks) <==> Different(sequences))
            && Queue(chunks) == Injected(g, file, sequences)
  {
    if sequences != [] {
      ElementsTail(sequences);
      BuiltPayload(g, file, sequences[0], src);
      BuiltChunks(g, src, file, sequences[1..]);
      assert BuildChunks(src, file, sequences)[1..] == BuildChunks(src, file, sequences[1..]);
    }
  }

  lemma {:induction false} InElements(sequences: seq<nat>, i: nat)
    requires i < |sequences|
    ensures sequences[i] in Elements(sequences)
  {
    if i > 0 { InElements(sequences[1..], i - 1); }
  }

  lemma {:induction false} SplitElements(sequences: seq<nat>, n: nat)
    requires n <= |sequences|
    ensures Elements(sequences) == Elements(sequences[..n]) + Elements(sequences[n..])
    ensures Different(sequences) ==>
              Different(sequences[..n]) && Different(sequences[n..]) && Elements(sequences[..n]) !! Elements(sequences[n..])
  {
    if n > 0 {
      SplitElements(sequences[1..], n - 1);
      assert sequences[..n][1..] == sequences[1..][..n - 1] && sequences[n..] == sequences[1..][n - 1..];
    } else {
      assert sequences[n..] == sequences;
    }
  }

  lemma {:induction false} InjectedAppend(g: Geometry, file: bytes, a: seq<nat>, c: seq<nat>)
    requires |file| == g.fileSize
    ensures Injected(g, file, a + c) == Injected(g, file, a) + Injected(g, file, c)
  {
    if a == [] {
      assert a + c == c;
    } else {
      InjectedAppend(g, file, a[1..], c);
      assert (a + c)[0] == a[0] && (a + c)[1..] == a[1..] + c;
    }
  }

  /** A batch of requested chunks is taken, and leaves the two ends agreed on the rest. */
  lemma BatchServed(src: Source, w: Window, b: Bridge, file: bytes, requestId: octets, sequences: seq<nat>, n: nat)
    requires Agreed(src, w, b, file, requestId, sequences) && 0 < n <= |sequences| && n <= BatchSize(src)
    ensures var batch := Batch(src.jobId, requestId, BuildChunks(src, file, sequences[..n]));
            var r := Take(w, b, batch);
            && r.verdict == TAKEN && r.frames == [] && Agreed(src, r.window, r.bridge, file, requestId, sequences[n..])
            && r.bridge == Queued(b, Injected(b.geo, file, sequences[..n]), Elements(sequences[..n]))
            && r.window == w.(pending := Elements(sequences[n..]), requestId := if n == |sequences| then [] else w.requestId)
  {
    var first, chunks := sequences[..n], BuildChunks(src, file, sequences[..n]);
    SplitElements(sequences, n);
    BuiltChunks(b.geo, src, file, first);
    forall i | 0 <= i < |chunks|
      ensures Fit(w, b, chunks[i])
    {
      InElements(first, i);
      BuiltFits(src, w, b, file, first[i]);
    }
    TakenIff(w, b, chunks);
    TakenEffect(w, b, chunks);
    if n < |sequences| { InElements(sequences[n..], 0); }
  }

  lemma SplitRequest(g: Geometry, file: bytes, sequences: seq<nat>, n: nat)
    requires |file| == g.fileSize && n <= |sequences|
    ensures Injected(g, file, sequences) == Injected(g, file, sequences[..n]) + Injected(g, file, sequences[n..])
    ensures Elements(sequences) == Elements(sequences[..n]) + Elements(sequences[n..])
  {
    assert sequences[..n] + sequences[n..] == sequences;
    InjectedAppend(g, file, sequences[..n], sequences[n..]);
    SplitElements(sequences, n);
  }

  /**
   A request for any distinct chunks, answered by the add-on, is served to the end: every batch is
   taken, each chunk is queued exactly once, with the file's bytes, and the request is closed.
   */
  lemma {:induction false} RequestServed(src: Source, w: Window, b: Bridge, file: bytes, requestId: octets, sequences: seq<nat>)
    requires Agreed(src, w, b, file, requestId, sequences)
    ensures TakeAll(w, b, Batches(src, requestId, file, sequences))
         == Result(w.(pending := {}, requestId := if sequences == [] then w.requestId else []),
                   Queued(b, Injected(b.geo, file, sequences), Elements(sequences)),
                   [], TAKEN)
    decreases |sequences|
  {
    if sequences == [] {
      assert b.pending + [] == b.pending && b.requested - {} == b.requested;
    } else {
      var n := if BatchSize(src) < |sequences| then BatchSize(src) else |sequences|;
      BatchServed(src, w, b, file, requestId, sequences, n);
      var r := Take(w, b, Batch(src.jobId, requestId, BuildChunks(src, file, sequences[..n])));
      RequestServed(src, r.window, r.bridge, file, requestId, sequences[n..]);
      SplitRequest(b.geo, file, sequences, n);
      QueuedTwice(b, Injected(b.geo, file, sequences[..n]), Injected(b.geo, file, sequences[n..]),
                  Elements(sequences[..n]), Elements(sequences[n..]));
    }
  }
}
