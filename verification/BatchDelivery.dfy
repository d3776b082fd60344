/**
 A batch of firmware chunks on its way: out of the file, through protobuf, the envelope and the
 serial line's frames or a WebSocket frame, and back into the chunks the bridge's window looks at.
 */
module BatchDelivery {
  import opened Seqs
  import opened Options
  import opened Octets
  import opened Bytes
  import opened Geometry
  import opened ChunkWindow
  import Crc32
  import Transfer
  import Protobuf
  import Cobs
  import Framing
  import SerialLine
  import WebSocket

  const AUTH_RESPONSE: nat := 11
  const CLIENT_HELLO: nat := 14
  const OTA_CHUNK_BATCH: nat := 31
  const BINARY: nat := 2

  // Bytes and words as the codecs and the checksum see them.

  function Number(data: bytes): octets { seq(|data|, i requires 0 <= i < |data| => data[i] as int) }

  function Raw(s: octets): bytes { seq(|s|, i requires 0 <= i < |s| => ByteOf(s[i])) }

  lemma ByteIsOf(b: byte)
    ensures ByteOf(b as int) == b
  {
  }

  lemma RawOfNumber(data: bytes)
    ensures Raw(Number(data)) == data
  {
    forall i | 0 <= i < |data| ensures Raw(Number(data))[i] == data[i] { ByteIsOf(data[i]); }
  }

  /** The word with a value; a field read from the wire is always one. */
  function Word(n: nat): Crc32.word { if n < Protobuf.TWO32 then n as Crc32.word else 0 }

  lemma WordIsOf(w: Crc32.word)
    ensures Word(w as nat) == w
  {
  }

  // Chunks and batches on the wire.

  function WireForm(c: WireChunk): Protobuf.Chunk {
    Protobuf.Chunk(c.sequence, c.offset, Some(Number(c.payload)), c.flags, c.crc32 as nat)
  }

  function WireForms(chunks: seq<WireChunk>): seq<Protobuf.Chunk> {
    seq(|chunks|, i requires 0 <= i < |chunks| => WireForm(chunks[i]))
  }

  /** What the window is shown of a chunk that has been read. */
  function Shown(c: Protobuf.Chunk): WireChunk {
    WireChunk(c.sequence, c.offset, if c.payload.Some? then Raw(c.payload.value) else [], c.flags, Word(c.crc32))
  }

  function ShownAll(chunks: seq<Protobuf.Chunk>): seq<WireChunk> {
    seq(|chunks|, i requires 0 <= i < |chunks| => Shown(chunks[i]))
  }

  predicate SmallNumbers(c: WireChunk) {
    c.sequence < Protobuf.TWO32 && c.offset < Protobuf.TWO32 && c.flags < Protobuf.TWO32 && |c.payload| < Protobuf.TWO64
  }

  predicate Sendable(batch: Batch) {
    && batch.jobId != [] && batch.requestId != [] && batch.chunks != []
    && forall i :: 0 <= i < |batch.chunks| ==> SmallNumbers(batch.chunks[i])
  }

  /** The add-on's writer leaves out every scalar that is zero. */
  function NoZeros(n: nat): seq<Protobuf.Zeros> { seq(n, _ => Protobuf.Zeros(false, false, false, false)) }

  function BatchMessage(batch: Batch): Protobuf.Batch {
    Protobuf.Batch(batch.jobId, batch.requestId, WireForms(batch.chunks))
  }

  lemma FormsAreValid(batch: Batch)
    requires Sendable(batch)
    ensures Protobuf.ValidChunks(WireForms(batch.chunks), NoZeros(|batch.chunks|))
  {
  }

  function BatchBytes(batch: Batch): octets
    requires Sendable(batch)
  {
    FormsAreValid(batch);
    Protobuf.MessageBytes(Protobuf.BatchFields(BatchMessage(batch), NoZeros(|batch.chunks|)))
  }

  /** The payload of the frame that carries a batch. */
  function Payload(batch: Batch): octets
    requires Sendable(batch)
  {
    Protobuf.MessageBytes(Protobuf.EnvelopeFields([], OTA_CHUNK_BATCH, BatchBytes(batch)))
  }

  /** The batch in a frame's payload, if that is one the bridge accepts. */
  function Unpacked(payload: octets): Option<Batch> {
    var env := Protobuf.EnvelopeOf(payload);
    if env.None? || env.value.apiVersion != Protobuf.API_VERSION || env.value.msgField != OTA_CHUNK_BATCH then None
    else
      var b := Protobuf.BatchOf(env.value.msg);
      if b.None? then None else Some(Batch(b.value.jobId, b.value.requestId, ShownAll(b.value.chunks)))
  }

  lemma ShownWireForm(c: WireChunk)
    ensures Shown(WireForm(c)) == c
  {
    RawOfNumber(c.payload);
    WordIsOf(c.crc32);
  }

  lemma ShownWireForms(chunks: seq<WireChunk>)
    ensures ShownAll(WireForms(chunks)) == chunks
  {
    forall i | 0 <= i < |chunks| ensures ShownAll(WireForms(chunks))[i] == chunks[i] { ShownWireForm(chunks[i]); }
  }

  /** A field of a message is no longer than the message. */
  lemma {:induction false} FieldsAreShort(fields: seq<Protobuf.Field>, f: Protobuf.Field)
    requires f in fields
    ensures |Protobuf.FieldBytes(f)| <= |Protobuf.MessageBytes(fields)|
  {
    if f != fields[0] { FieldsAreShort(fields[1..], f); }
  }

  lemma DataIsShort(f: Protobuf.Field)
    requires f.value.Delimited?
    ensures |f.value.data| <= |Protobuf.FieldBytes(f)|
  {
  }

  lemma {:induction false} MessagesAreDelimited(chunks: seq<Protobuf.Chunk>, zeros: seq<Protobuf.Zeros>)
    requires Protobuf.ValidChunks(chunks, zeros)
    ensures forall f :: f in Protobuf.ChunkMessages(chunks, zeros) ==> f.value.Delimited? && f.number == 3
  {
    if chunks != [] {
      var n := |chunks| - 1;
      MessagesAreDelimited(chunks[..n], zeros[..n]);
    }
  }

  lemma BatchFieldsValid(batch: Batch)
    requires Sendable(batch) && |BatchBytes(batch)| < Protobuf.TWO64
    ensures forall f :: f in Protobuf.BatchFields(BatchMessage(batch), NoZeros(|batch.chunks|)) ==> Protobuf.Valid(f)
  {
    FormsAreValid(batch);
    var zeros := NoZeros(|batch.chunks|);
    var fields := Protobuf.BatchFields(BatchMessage(batch), zeros);
    MessagesAreDelimited(WireForms(batch.chunks), zeros);
    forall f | f in fields ensures Protobuf.Valid(f)
    {
      FieldsAreShort(fields, f);
      assert f in Protobuf.Ids(BatchMessage(batch)) || f in Protobuf.ChunkMessages(WireForms(batch.chunks), zeros);
      DataIsShort(f);
    }
  }

  lemma BatchIsShort(batch: Batch)
    requires Sendable(batch)
    ensures |BatchBytes(batch)| <= |Payload(batch)| && Payload(batch) != []
  {
    var fields := Protobuf.EnvelopeFields([], OTA_CHUNK_BATCH, BatchBytes(batch));
    var body := Protobuf.Field(OTA_CHUNK_BATCH, Protobuf.Delimited(BatchBytes(batch)));
    assert fields[1] == body;
    FieldsAreShort(fields, body);
    DataIsShort(body);
  }

  /** A batch unpacks to itself, whatever its chunks hold. */
  lemma BatchUnpacks(batch: Batch)
    requires Sendable(batch) && |Payload(batch)| < Protobuf.TWO64
    ensures Unpacked(Payload(batch)) == Some(batch)
    ensures Kind(Payload(batch)) == SerialLine.Other
  {
    BatchIsShort(batch);
    BatchFieldsValid(batch);
    FormsAreValid(batch);
    Protobuf.EnvelopeRoundTrip([], OTA_CHUNK_BATCH, BatchBytes(batch));
    Protobuf.BatchRoundTrip(BatchMessage(batch), NoZeros(|batch.chunks|));
    ShownWireForms(batch.chunks);
  }

  /** What an envelope is to the serial session. */
  function Kind(frame: octets): SerialLine.Kind {
    var env := Protobuf.EnvelopeOf(frame);
    if env.None? || env.value.apiVersion != Protobuf.API_VERSION then SerialLine.Unreadable
    else if env.value.msgField == CLIENT_HELLO then SerialLine.Hello
    else if env.value.msgField == AUTH_RESPONSE then SerialLine.Response
    else SerialLine.Other
  }

  // A whole answer on the line.

  predicate AllSendable(batches: seq<Batch>) { forall i :: 0 <= i < |batches| ==> Sendable(batches[i]) }

  predicate AllShort(batches: seq<Batch>)
    requires AllSendable(batches)
  {
    forall i :: 0 <= i < |batches| ==> |Payload(batches[i])| < Protobuf.TWO64
  }

  function Payloads(batches: seq<Batch>): seq<octets>
    requires AllSendable(batches)
  {
    if batches == [] then [] else [Payload(batches[0])] + Payloads(batches[1..])
  }

  /** The batches among some frames' payloads, in order. */
  function UnpackedAll(payloads: seq<octets>): seq<Batch> {
    if payloads == [] then []
    else (if Unpacked(payloads[0]).Some? then [Unpacked(payloads[0]).value] else []) + UnpackedAll(payloads[1..])
  }

  predicate IsOther(frame: octets) { frame != [] && Kind(frame) == SerialLine.Other }

  lemma {:induction false} AllUnpack(batches: seq<Batch>)
    requires AllSendable(batches) && AllShort(batches)
    ensures UnpackedAll(Payloads(batches)) == batches
    ensures forall f :: f in Payloads(batches) ==> IsOther(f)
  {
    if batches != [] {
      var first, others := Payload(batches[0]), Payloads(batches[1..]);
      BatchUnpacks(batches[0]);
      BatchIsShort(batches[0]);
      assert AllSendable(batches[1..]) && AllShort(batches[1..]);
      AllUnpack(batches[1..]);
      assert ([first] + others)[0] == first && ([first] + others)[1..] == others;
      assert UnpackedAll([first] + others) == [batches[0]] + batches[1..];
    }
  }

  lemma {:induction false} AllKept(payloads: seq<octets>, m: SerialLine.Meaning)
    requires m.kind == Kind && forall f :: f in payloads ==> IsOther(f)
    ensures SerialLine.Kept(payloads, m) == payloads && SerialLine.NoHello(payloads, m)
  {
    if payloads != [] {
      AllKept(payloads[1..], m);
      assert IsOther(payloads[0]) && SerialLine.Readable(payloads[0], m);
      assert [payloads[0]] + payloads[1..] == payloads;
    }
  }

  /** What comes in is the batches' frames, if they can be sent, and nothing else. */
  predicate Brings(turns: seq<SerialLine.Turn>, batches: seq<Batch>) {
    AllSendable(batches) ==> AllShort(batches) && SerialLine.Line(turns) == Framing.Wire(Payloads(batches))
  }

  /** Batches put on the serial line by an authenticated client are unpacked as they were, however the bridge's turns cut the line. */
  lemma LineDelivers(batches: seq<Batch>, link: SerialLine.Link, turns: seq<SerialLine.Turn>, m: SerialLine.Meaning)
    requires AllSendable(batches) && Brings(turns, batches) && m.kind == Kind
    requires link.session.auth == SerialLine.Authenticated && link.rx == []
    requires SerialLine.Timely([], link.session.lastData, turns, m)
    ensures UnpackedAll(SerialLine.HandledByTurns(link, turns, m).0) == batches
  {
    var payloads := Payloads(batches);
    AllUnpack(batches);
    AllKept(payloads, m);
    Framing.WireIsDelivered(payloads);
    assert link.rx + SerialLine.Line(turns) == Framing.Wire(payloads);
    SerialLine.AuthenticatedIsUndisturbed(link, turns, m);
    SerialLine.TurnsDoNotMatter(link, turns, m);
  }

  /** The add-on's batches of a sound file can be sent. */
  lemma BuiltIsSendable(src: Source, g: Geometry, file: bytes, requestId: octets, sequences: seq<nat>)
    requires Sound(g) && |file| == g.fileSize <= MAX_FILE_SIZE && src.maxChunk == g.chunk
    requires src.jobId != [] && requestId != [] && sequences != []
    requires forall s :: s in Elements(sequences) ==> s < g.totalChunks
    ensures Sendable(Batch(src.jobId, requestId, BuildChunks(src, file, sequences)))
  {
    var chunks := BuildChunks(src, file, sequences);
    forall i | 0 <= i < |chunks| ensures SmallNumbers(chunks[i])
    {
      var s := sequences[i];
      InElements(sequences, i);
      BuiltPayload(g, file, s, src);
      MulMono(s, g.totalChunks - 1, g.chunk);
    }
  }

  lemma {:induction false} BatchesAreSendable(src: Source, g: Geometry, file: bytes, requestId: octets, sequences: seq<nat>)
    requires Sound(g) && |file| == g.fileSize <= MAX_FILE_SIZE && src.maxChunk == g.chunk
    requires src.jobId != [] && requestId != []
    requires forall s :: s in Elements(sequences) ==> s < g.totalChunks
    ensures AllSendable(Batches(src, requestId, file, sequences))
    decreases |sequences|
  {
    if sequences != [] {
      var n := if BatchSize(src) < |sequences| then BatchSize(src) else |sequences|;
      SplitElements(sequences, n);
      BuiltIsSendable(src, g, file, requestId, sequences[..n]);
      BatchesAreSendable(src, g, file, requestId, sequences[n..]);
    }
  }

  /**
   A request answered over the serial line. From the file's bytes to the transfer's queue: what the
   add-on puts on the line makes the bridge take every batch, queue each chunk asked for exactly
   once, with the file's own bytes, and close the request.
   */
  lemma RequestServedOverTheLine(src: Source, w: Window, b: Transfer.Bridge, file: bytes, requestId: octets, sequences: seq<nat>,
                                 link: SerialLine.Link, turns: seq<SerialLine.Turn>, m: SerialLine.Meaning)
    requires Agreed(src, w, b, file, requestId, sequences) && b.geo.fileSize <= MAX_FILE_SIZE
    requires src.jobId != [] && requestId != []
    requires Brings(turns, Batches(src, requestId, file, sequences))
    requires m.kind == Kind && link.session.auth == SerialLine.Authenticated && link.rx == []
    requires SerialLine.Timely([], link.session.lastData, turns, m)
    ensures TakeAll(w, b, UnpackedAll(SerialLine.HandledByTurns(link, turns, m).0))
         == Result(w.(pending := {}, requestId := if sequences == [] then w.requestId else []),
                   Queued(b, Injected(b.geo, file, sequences), Elements(sequences)),
                   [], TAKEN)
  {
    BatchesAreSendable(src, b.geo, file, requestId, sequences);
    LineDelivers(Batches(src, requestId, file, sequences), link, turns, m);
    RequestServed(src, w, b, file, requestId, sequences);
  }

  /** The same batch in a WebSocket frame, if it fits into one, whatever follows the frame. */
  lemma BatchInWebSocketFrame(batch: Batch, mask: octets, rest: octets)
    requires Sendable(batch) && |mask| == 4 && |Payload(batch)| <= 0xFFFF
    ensures var r := WebSocket.ReadSpec(WebSocket.ClientFrame(BINARY, mask, Payload(batch)) + rest);
            r.Some? && r.value.value.0 == BINARY && Unpacked(r.value.value.1) == Some(batch)
  {
    WebSocket.ClientRoundTrip(BINARY, mask, Payload(batch), rest);
    BatchUnpacks(batch);
  }
}
