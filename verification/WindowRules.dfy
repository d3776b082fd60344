/**
 What can be said of the chunk window without its code: exactly which batches are taken, what becomes
 of damaged ones, and how a request is cut into batches and named.
 */
module WindowRules {
  import opened Seqs
  import opened Octets
  import opened Bytes
  import opened Geometry
  import opened Transfer
  import opened Crc32
  import opened ChunkWindow

  /**
   A current batch is taken iff it is small enough and of its chunks each one is still waited for, asked
   of the transfer, at its own place in the file, of the length the transfer expects there and the
   checksum it carries, with no unknown flag, and no two have the same sequence. If it is not, the job
   is given up.
   */
  lemma TakenExactly(w: Window, b: Bridge, batch: Batch)
    requires w.active && batch.jobId == w.jobId && batch.requestId == w.requestId
    ensures var r := Take(w, b, batch);
            && (r.verdict == TAKEN <==>
                  && |batch.chunks| <= w.maxBatch
                  && (forall i :: 0 <= i < |batch.chunks| ==> Proper(w, b, batch.chunks[i]))
                  && (forall i, j :: 0 <= i < j < |batch.chunks| ==> batch.chunks[i].sequence != batch.chunks[j].sequence))
            && (r.verdict != TAKEN ==> GivenUp(b, r) && r.verdict == if |batch.chunks| > w.maxBatch then TOO_LARGE else INVALID)
  {
    var chunks := batch.chunks;
    TakenIff(w, b, chunks);
    AnswerIsCurrent(w, b, chunks);
    DifferentIff(chunks);
    RefusalGivesUp(w, b, chunks);
    forall i | 0 <= i < |chunks|
      ensures Fit(w, b, chunks[i]) <==> Proper(w, b, chunks[i])
    {
      InjectableIff(w, b, chunks[i]);
    }
  }

  /** What both the window and the transfer ask of a chunk. */
  predicate Proper(w: Window, b: Bridge, c: WireChunk) {
    && c.sequence in w.pending && c.sequence in b.requested && w.transferring && b.phase == Blasting
    && c.offset == c.sequence * w.maxChunk
    && 0 < |c.payload| == b.geo.ExpectedLen(c.sequence) <= w.maxChunk
    && Crc(c.payload) == c.crc32 && c.flags <= 1
  }

  /** The job is over on both sides, and the leaf has been told. */
  predicate GivenUp(b: Bridge, r: Result) {
    !r.window.active && !r.window.transferring && r.bridge.phase == Idle && r.frames == if b.Busy() then [Abort] else []
  }

  lemma {:induction false} RefusalGivesUp(w: Window, b: Bridge, chunks: seq<WireChunk>)
    ensures TakeChunks(w, b, chunks).verdict != TAKEN ==> GivenUp(b, TakeChunks(w, b, chunks))
    ensures GivenUp(b, AbortJob(w, b, TOO_LARGE))
    decreases |chunks|
  {
    if chunks != [] {
      RefusalGivesUp(Drop(w, chunks[0].sequence), DoSource(b, chunks[0].sequence, chunks[0].payload), chunks[1..]);
    }
  }

  lemma {:induction false} DifferentIff(chunks: seq<WireChunk>)
    ensures AllDifferent(chunks) <==> forall i, j :: 0 <= i < j < |chunks| ==> chunks[i].sequence != chunks[j].sequence
  {
    if chunks != [] {
      var rest := chunks[1..];
      DifferentIff(rest);
      InSequences(rest, chunks[0].sequence);
      assert forall j :: 0 < j < |chunks| ==> chunks[j] == rest[j - 1];
      if chunks[0].sequence in Sequences(rest) {
        var i :| 0 <= i < |rest| && rest[i].sequence == chunks[0].sequence;
        assert chunks[i + 1].sequence == chunks[0].sequence;
      }
      if !AllDifferent(rest) {
        var i, j :| 0 <= i < j < |rest| && rest[i].sequence == rest[j].sequence;
        assert chunks[i + 1].sequence == chunks[j + 1].sequence;
      }
    }
  }

  /** Only a batch for the job and the request waited for can change the transfer; one for another job changes nothing at all. */
  lemma OthersIgnored(w: Window, b: Bridge, batch: Batch)
    ensures var r := Take(w, b, batch);
            && (r.bridge != b || r.verdict in {TAKEN, INVALID, TOO_LARGE} ==> w.active && batch.jobId == w.jobId && batch.requestId == w.requestId)
            && (!w.active || batch.jobId != w.jobId ==> r == Result(w, b, [], NO_JOB))
            && (w.active && batch.jobId == w.jobId && batch.requestId != w.requestId ==> r.verdict == STALE && r.bridge == b && r.frames == [])
  {
  }

  /** A chunk of the file damaged on the way, within four bytes of its payload, is not taken, and the job is given up. */
  lemma DamageIsRefused(w: Window, b: Bridge, batch: Batch, i: nat, before: bytes, sent: bytes, came: bytes, after: bytes)
    requires w.active && batch.jobId == w.jobId && batch.requestId == w.requestId
    requires i < |batch.chunks| && |sent| == |came| <= 4 && sent != came
    requires batch.chunks[i].payload == before + came + after && batch.chunks[i].crc32 == Crc(before + sent + after)
    ensures Take(w, b, batch).verdict != TAKEN && GivenUp(b, Take(w, b, batch))
  {
    WindowErrorsShow(before, sent, came, after);
    TakenExactly(w, b, batch);
    assert !Proper(w, b, batch.chunks[i]);
  }

  // The add-on's side.

  /** A chunk the add-on builds stands where its sequence says, carries its payload's checksum, and is flagged iff it is the file's last. */
  lemma BuiltIs(src: Source, file: bytes, s: nat)
    ensures var c := BuildChunk(src, file, s);
            && c.sequence == s && c.offset == s * src.maxChunk && c.crc32 == Crc(c.payload)
            && |c.payload| <= src.maxChunk && (|c.payload| < src.maxChunk ==> c.offset + |c.payload| >= |file|)
            && (forall k :: 0 <= k < |c.payload| ==> c.offset + k < |file| && c.payload[k] == file[c.offset + k])
            && (c.flags == LAST_CHUNK <==> s + 1 == src.totalChunks) && (c.flags != LAST_CHUNK ==> c.flags == 0)
  {
    var offset := s * src.maxChunk;
    if offset < |file| {
      var end := Min(|file|, offset + src.maxChunk);
      assert BuildChunk(src, file, s).payload == file[offset..end];
    }
  }

  function SequencesIn(chunks: seq<WireChunk>): seq<nat> {
    seq(|chunks|, i requires 0 <= i < |chunks| => chunks[i].sequence)
  }

  /** The sequences of some batches, one after the other. */
  function SequencesOf(batches: seq<Batch>): seq<nat> {
    if batches == [] then [] else SequencesIn(batches[0].chunks) + SequencesOf(batches[1..])
  }

  /** Batches for one request, none empty or larger than agreed, and only the last smaller. */
  predicate WellCut(batches: seq<Batch>, src: Source, requestId: octets, n: nat) {
    forall i :: 0 <= i < |batches| ==>
      && batches[i].jobId == src.jobId && batches[i].requestId == requestId
      && 0 < |batches[i].chunks| <= n && (i < |batches| - 1 ==> |batches[i].chunks| == n)
  }

  lemma OneMoreCut(first: Batch, rest: seq<Batch>, src: Source, requestId: octets, n: nat)
    requires WellCut(rest, src, requestId, n) && first.jobId == src.jobId && first.requestId == requestId
    requires 0 < |first.chunks| <= n && (rest != [] ==> |first.chunks| == n)
    ensures WellCut([first] + rest, src, requestId, n)
    ensures SequencesOf([first] + rest) == SequencesIn(first.chunks) + SequencesOf(rest)
  {
    assert ([first] + rest)[1..] == rest;
  }

  lemma BuiltSequences(src: Source, file: bytes, sequences: seq<nat>)
    ensures SequencesIn(BuildChunks(src, file, sequences)) == sequences
  {
  }

  /** How the first batch is cut off. */
  lemma FirstCut(src: Source, requestId: octets, file: bytes, sequences: seq<nat>, size: nat) returns (first: Batch, front: seq<nat>, rest: seq<nat>)
    requires sequences != [] && size == if src.maxBatch > 1 then src.maxBatch else 1
    ensures sequences == front + rest && 0 < |front| <= size && (rest != [] ==> |front| == size)
    ensures first == Batch(src.jobId, requestId, BuildChunks(src, file, front))
    ensures Batches(src, requestId, file, sequences) == [first] + Batches(src, requestId, file, rest)
  {
    var n := if size < |sequences| then size else |sequences|;
    front, rest := sequences[..n], sequences[n..];
    first := Batch(src.jobId, requestId, BuildChunks(src, file, front));
  }

  lemma NoBatches(src: Source, requestId: octets, file: bytes)
    ensures Batches(src, requestId, file, []) == []
  {
  }

  /** A request is cut, in order, into batches of the agreed size. */
  lemma {:induction false} BatchesCut(src: Source, requestId: octets, file: bytes, sequences: seq<nat>, size: nat)
    requires size == if src.maxBatch > 1 then src.maxBatch else 1
    ensures var batches := Batches(src, requestId, file, sequences);
            SequencesOf(batches) == sequences && WellCut(batches, src, requestId, size)
    decreases |sequences|
  {
    NoBatches(src, requestId, file);
    if sequences != [] {
      var first, front, rest := FirstCut(src, requestId, file, sequences, size);
      BatchesCut(src, requestId, file, rest, size);
      BuiltSequences(src, file, front);
      OneMoreCut(first, Batches(src, requestId, file, rest), src, requestId, size);
    }
  }

  // Names.

  /** The number written in some decimal digits. */
  function Number(digits: octets): int {
    if digits == [] then 0 else 10 * Number(digits[..|digits| - 1]) + (digits[|digits| - 1] as int - 48)
  }

  /** A number's decimal form is made of digits, has no leading zero, and means the number. */
  lemma {:induction false} DecimalMeans(n: nat)
    ensures var d := Decimal(n);
            && d != [] && (forall i :: 0 <= i < |d| ==> 48 <= d[i] <= 57) && (n > 0 ==> d[0] != 48)
            && Number(d) == n
  {
    if n < 10 {
      assert Decimal(n)[..0] == [];
    } else {
      DecimalMeans(n / 10);
      var front := Decimal(n / 10);
      assert Decimal(n)[..|front|] == front;
    }
  }

  /** A request's name is the job's, a dash and the request's number. */
  lemma NameMeans(jobId: octets, n: nat)
    ensures var name := RequestName(jobId, n);
            |name| > |jobId| + 1 && name[..|jobId|] == jobId && name[|jobId|] == 45 && Number(name[|jobId| + 1..]) == n
  {
    DecimalMeans(n);
    assert RequestName(jobId, n)[|jobId| + 1..] == Decimal(n);
  }
}
