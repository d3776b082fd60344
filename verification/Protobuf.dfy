/**
 The hand-written protobuf reader and writer: varints, fields of wire types 0, 1 and 2, the runtime
 envelope, and the nested batch of firmware chunks. The readers are given arbitrary bytes.
 */
module Protobuf {
  import opened Seqs
  import opened Options
  import opened Octets
  import opened Quotients

  const TWO32: nat := 0x1_0000_0000
  const TWO64: nat := 0x1_0000_0000_0000_0000
  const API_VERSION: nat := 2

  datatype Value = Varint(n: nat) | Fixed64(data: octets) | Delimited(data: octets)

  datatype Field = Field(number: nat, value: Value)

  predicate Valid(f: Field) {
    && f.number < TWO32
    && match f.value
       case Varint(n) => n < TWO64
       case Fixed64(data) => |data| == 8
       case Delimited(data) => |data| < TWO64
  }

  // Varints.

  function VarintBytes(v: nat): octets {
    if v < 0x80 then [v] else [v % 0x80 + 0x80] + VarintBytes(v / 0x80)
  }

  /** 128 to the power `k`. */
  function Pow128(k: nat): (p: nat)
    ensures p > 0
  {
    if k == 0 then 1 else 0x80 * Pow128(k - 1)
  }

  /** Groups of seven bits, least significant first, when `k` of the ten that may be read have been. */
  function Septets(s: octets, k: nat): (r: Option<Read<nat>>)
    ensures r.Some? ==> 0 < r.value.used <= |s|
  {
    if s == [] || k >= 10 then None
    else if s[0] < 0x80 then Some(Read(s[0], 1))
    else
      var r := Septets(s[1..], k + 1);
      if r.None? then None else Some(Read(s[0] - 0x80 + 0x80 * r.value.value, r.value.used + 1))
  }

  /** A varint ends with its first byte without the high bit, which must be among the first ten. */
  lemma {:induction false} SeptetsIff(s: octets, k: nat)
    ensures Septets(s, k).Some? <==> exists i :: 0 <= i < |s| && i + k < 10 && s[i] < 0x80
    ensures Septets(s, k).Some? ==>
              var n := Septets(s, k).value.used; n + k <= 10 && s[n - 1] < 0x80 && forall i :: 0 <= i < n - 1 ==> s[i] >= 0x80
  {
    if s != [] && k < 10 && s[0] >= 0x80 {
      var rest := s[1..];
      SeptetsIff(rest, k + 1);
      assert forall i :: 0 < i < |s| ==> s[i] == rest[i - 1];
      if Septets(rest, k + 1).Some? {
        var i :| 0 <= i < |rest| && i + k + 1 < 10 && rest[i] < 0x80;
        assert s[i + 1] < 0x80;
      }
      if i :| 0 <= i < |s| && i + k < 10 && s[i] < 0x80 { assert rest[i - 1] < 0x80; }
    }
  }

  /** The 64 bits that are kept of a varint. */
  function GetVarint(s: octets): (r: Option<Read<nat>>)
    ensures r.Some? ==> 0 < r.value.used <= |s| && r.value.value < TWO64
  {
    var r := Septets(s, 0);
    if r.None? then None else Some(Read(r.value.value % TWO64, r.value.used))
  }

  lemma {:induction false} SeptetsRoundTrip(v: nat, rest: octets, k: nat)
    requires k < 10 && v < Pow128(10 - k)
    ensures Septets(VarintBytes(v) + rest, k) == Some(Read(v, |VarintBytes(v)|))
  {
    if v >= 0x80 {
      SeptetsRoundTrip(v / 0x80, rest, k + 1);
      assert (VarintBytes(v) + rest)[1..] == VarintBytes(v / 0x80) + rest;
    }
  }

  lemma Pow128Of10()
    ensures Pow128(10) == 64 * TWO64
  {
    assert Pow128(5) == 0x8_0000_0000;
    assert Pow128(10) == 0x80 * (0x80 * (0x80 * (0x80 * (0x80 * Pow128(5)))));
  }

  lemma VarintRoundTrip(v: nat, rest: octets)
    requires v < TWO64
    ensures GetVarint(VarintBytes(v) + rest) == Some(Read(v, |VarintBytes(v)|))
  {
    Pow128Of10();
    SeptetsRoundTrip(v, rest, 0);
  }

  // Fields.

  function Wire(v: Value): nat { match v case Varint(_) => 0 case Fixed64(_) => 1 case Delimited(_) => 2 }

  function Tag(f: Field): nat { f.number * 8 + Wire(f.value) }

  function ValueBytes(v: Value): octets {
    match v
    case Varint(n) => VarintBytes(n)
    case Fixed64(data) => data
    case Delimited(data) => VarintBytes(|data|) + data
  }

  function FieldBytes(f: Field): octets { VarintBytes(Tag(f)) + ValueBytes(f.value) }

  /** The value of a field of the given wire type at the front of `s`. */
  function GetValue(wire: nat, s: octets): (r: Option<Read<Value>>)
    ensures r.Some? ==> r.value.used <= |s|
  {
    if wire == 0 then
      var n := GetVarint(s);
      if n.None? then None else Some(Read(Varint(n.value.value), n.value.used))
    else if wire == 1 then
      if |s| < 8 then None else Some(Read(Fixed64(s[..8]), 8))
    else if wire == 2 then
      var n := GetVarint(s);
      if n.None? || n.value.value > |s| - n.value.used then None
      else
        var end := n.value.used + n.value.value;
        Some(Read(Delimited(s[n.value.used..end]), end))
    else None
  }

  function GetField(s: octets): (r: Option<Read<Field>>)
    ensures r.Some? ==> 0 < r.value.used <= |s|
  {
    var tag := GetVarint(s);
    if tag.None? then None
    else
      var v := GetValue(tag.value.value % 8, s[tag.value.used..]);
      if v.None? then None
      else Some(Read(Field(tag.value.value / 8 % TWO32, v.value.value), tag.value.used + v.value.used))
  }

  lemma ValueRoundTrip(v: Value, rest: octets)
    requires Valid(Field(0, v))
    ensures GetValue(Wire(v), ValueBytes(v) + rest) == Some(Read(v, |ValueBytes(v)|))
  {
    match v
    case Varint(n) => VarintRoundTrip(n, rest);
    case Fixed64(data) =>
    case Delimited(data) =>
      var len := VarintBytes(|data|);
      VarintRoundTrip(|data|, data + rest);
      assert len + data + rest == len + (data + rest);
      assert (len + data + rest)[|len|..|len| + |data|] == data;
  }

  lemma TagParts(f: Field)
    requires Valid(f)
    ensures Tag(f) % 8 == Wire(f.value) && Tag(f) / 8 % TWO32 == f.number && Tag(f) < TWO64
  {
  }

  /** A written field is read back, whatever follows it. */
  lemma FieldRoundTrip(f: Field, rest: octets)
    requires Valid(f)
    ensures GetField(FieldBytes(f) + rest) == Some(Read(f, |FieldBytes(f)|))
  {
    var tag, value := VarintBytes(Tag(f)), ValueBytes(f.value);
    TagParts(f);
    VarintRoundTrip(Tag(f), value + rest);
    ValueRoundTrip(f.value, rest);
    Assoc(tag, value, rest);
    AppendedSuffix(tag, value + rest);
  }

  lemma {:induction false} SeptetsBound(v: nat, k: nat)
    requires v < Pow128(k) && k > 0
    ensures |VarintBytes(v)| <= k
  {
    if v >= 0x80 { SeptetsBound(v / 0x80, k - 1); }
  }

  /** A number's bytes but the last have their high bit set, and without it all are its digits to the base 128, lowest first. */
  lemma {:induction false} VarintDigits(v: nat, i: nat)
    requires i < |VarintBytes(v)|
    ensures var b := VarintBytes(v)[i];
            (b >= 0x80 <==> i < |VarintBytes(v)| - 1) && b % 0x80 == v / Pow128(i) % 0x80
    decreases i
  {
    if v >= 0x80 {
      if i > 0 {
        VarintDigits(v / 0x80, i - 1);
        DivideTwice(v, 0x80, Pow128(i - 1));
      }
    }
  }

  // Messages.

  function MessageBytes(fields: seq<Field>): octets {
    if fields == [] then [] else FieldBytes(fields[0]) + MessageBytes(fields[1..])
  }

  function Then(fields: seq<Field>, rest: Option<seq<Field>>): Option<seq<Field>> {
    if rest.Some? then Some(fields + rest.value) else None
  }

  /** All fields of a message, if it can be read to its end. */
  function Fields(s: octets): Option<seq<Field>>
    decreases |s|
  {
    if s == [] then Some([])
    else
      var r := GetField(s);
      if r.None? then None else Then([r.value.value], Fields(s[r.value.used..]))
  }

  /** Any list of fields survives writing and reading. */
  lemma {:induction false} MessageRoundTrip(fields: seq<Field>)
    requires forall f :: f in fields ==> Valid(f)
    ensures Fields(MessageBytes(fields)) == Some(fields)
  {
    if fields != [] {
      var rest := MessageBytes(fields[1..]);
      FieldRoundTrip(fields[0], rest);
      MessageRoundTrip(fields[1..]);
      assert MessageBytes(fields)[|FieldBytes(fields[0])|..] == rest;
      assert [fields[0]] + fields[1..] == fields;
    }
  }

  lemma {:induction false} MessageSnoc(fields: seq<Field>, f: Field)
    ensures MessageBytes(fields + [f]) == MessageBytes(fields) + FieldBytes(f)
  {
    if fields == [] {
      assert MessageBytes([f]) == FieldBytes(f) + MessageBytes([]);
    } else {
      MessageSnoc(fields[1..], f);
      assert (fields + [f])[1..] == fields[1..] + [f];
      Assoc(FieldBytes(fields[0]), MessageBytes(fields[1..]), FieldBytes(f));
    }
  }

  // The envelope.

  datatype Envelope = Envelope(requestId: octets, apiVersion: nat, msgField: nat, msg: octets)

  function TakeEnvelope(e: Envelope, f: Field): Envelope {
    if f.number == 1 && f.value.Delimited? then e.(requestId := f.value.data)
    else if f.number == 2 && f.value.Varint? then e.(apiVersion := f.value.n % TWO32)
    else if f.number >= 10 && f.value.Delimited? then e.(msgField := f.number, msg := f.value.data)
    else e
  }

  function CollectEnvelope(fields: seq<Field>): Envelope {
    if fields == [] then Envelope([], 0, 0, [])
    else TakeEnvelope(CollectEnvelope(fields[..|fields| - 1]), fields[|fields| - 1])
  }

  function EnvelopeOf(s: octets): Option<Envelope> {
    var fields := Fields(s);
    if fields.None? || CollectEnvelope(fields.value).msgField == 0 then None else Some(CollectEnvelope(fields.value))
  }

  /** Strings are left out when they are empty. */
  function StringFields(number: nat, s: octets): seq<Field> {
    if s == [] then [] else [Field(number, Delimited(s))]
  }

  function EnvelopeFields(requestId: octets, msgField: nat, msg: octets): seq<Field> {
    StringFields(1, requestId) + [Field(2, Varint(API_VERSION)), Field(msgField, Delimited(msg))]
  }

  lemma CollectLast(fields: seq<Field>, f: Field)
    ensures CollectEnvelope(fields + [f]) == TakeEnvelope(CollectEnvelope(fields), f)
  {
    assert (fields + [f])[..|fields|] == fields;
  }

  lemma CollectWritten(id: seq<Field>, requestId: octets, msgField: nat, msg: octets)
    requires CollectEnvelope(id) == Envelope(requestId, 0, 0, []) && msgField >= 10
    ensures CollectEnvelope(id + [Field(2, Varint(API_VERSION)), Field(msgField, Delimited(msg))])
         == Envelope(requestId, API_VERSION, msgField, msg)
  {
    var version, body := Field(2, Varint(API_VERSION)), Field(msgField, Delimited(msg));
    CollectLast(id, version);
    CollectLast(id + [version], body);
    assert id + [version, body] == id + [version] + [body];
  }

  lemma CollectId(requestId: octets)
    ensures CollectEnvelope(StringFields(1, requestId)) == Envelope(requestId, 0, 0, [])
  {
    if requestId != [] {
      CollectLast([], Field(1, Delimited(requestId)));
      assert [] + [Field(1, Delimited(requestId))] == StringFields(1, requestId);
    }
  }

  /** An envelope is read back as it was written, with or without a request id, around any message. */
  lemma EnvelopeRoundTrip(requestId: octets, msgField: nat, msg: octets)
    requires 10 <= msgField < TWO32 && |requestId| < TWO64 && |msg| < TWO64
    ensures EnvelopeOf(MessageBytes(EnvelopeFields(requestId, msgField, msg)))
         == Some(Envelope(requestId, API_VERSION, msgField, msg))
  {
    CollectId(requestId);
    CollectWritten(StringFields(1, requestId), requestId, msgField, msg);
    MessageRoundTrip(EnvelopeFields(requestId, msgField, msg));
  }

  // Chunk batches.

  datatype Chunk = Chunk(sequence: nat, offset: nat, payload: Option<octets>, flags: nat, crc32: nat)

  datatype Batch = Batch(jobId: octets, requestId: octets, chunks: seq<Chunk>)

  const NO_CHUNK: Chunk := Chunk(0, 0, None, 0, 0)

  function TakeChunk(c: Chunk, f: Field): Chunk {
    if f.number == 1 && f.value.Varint? then c.(sequence := f.value.n % TWO32)
    else if f.number == 2 && f.value.Varint? then c.(offset := f.value.n % TWO32)
    else if f.number == 3 && f.value.Delimited? then c.(payload := Some(f.value.data))
    else if f.number == 4 && f.value.Varint? then c.(flags := f.value.n % TWO32)
    else if f.number == 5 && f.value.Varint? then c.(crc32 := f.value.n % TWO32)
    else c
  }

  function CollectChunk(fields: seq<Field>): Chunk {
    if fields == [] then NO_CHUNK
    else TakeChunk(CollectChunk(fields[..|fields| - 1]), fields[|fields| - 1])
  }

  function ChunkOf(s: octets): Option<Chunk> {
    var fields := Fields(s);
    if fields.None? || CollectChunk(fields.value).payload.None? then None else Some(CollectChunk(fields.value))
  }

  function TakeBatch(b: Option<Batch>, f: Field): Option<Batch> {
    if b.None? || !f.value.Delimited? then b
    else if f.number == 1 then Some(b.value.(jobId := f.value.data))
    else if f.number == 2 then Some(b.value.(requestId := f.value.data))
    else if f.number == 3 then
      var c := ChunkOf(f.value.data);
      if c.None? then None else Some(b.value.(chunks := b.value.chunks + [c.value]))
    else b
  }

  function CollectBatch(fields: seq<Field>): Option<Batch> {
    if fields == [] then Some(Batch([], [], []))
    else TakeBatch(CollectBatch(fields[..|fields| - 1]), fields[|fields| - 1])
  }

  predicate Filled(b: Batch) { b.jobId != [] && b.requestId != [] && b.chunks != [] }

  function BatchOf(s: octets): Option<Batch> {
    var fields := Fields(s);
    if fields.None? then None
    else
      var b := CollectBatch(fields.value);
      if b.None? || !Filled(b.value) then None else b
  }

  /** A zero scalar may be written or left out. */
  function Scalar(number: nat, n: nat, written: bool): seq<Field> {
    if n == 0 && !written then [] else [Field(number, Varint(n))]
  }

  /** Which of a chunk's zero scalars are written. */
  datatype Zeros = Zeros(sequence: bool, offset: bool, flags: bool, crc32: bool)

  predicate ValidChunk(c: Chunk) {
    && c.sequence < TWO32 && c.offset < TWO32 && c.flags < TWO32 && c.crc32 < TWO32
    && c.payload.Some? && |c.payload.value| < TWO64
  }

  function ChunkFields(c: Chunk, z: Zeros): seq<Field>
    requires c.payload.Some?
  {
    Scalar(1, c.sequence, z.sequence) + Scalar(2, c.offset, z.offset) + [Field(3, Delimited(c.payload.value))]
    + Scalar(4, c.flags, z.flags) + Scalar(5, c.crc32, z.crc32)
  }

  lemma CollectChunkLast(fields: seq<Field>, f: Field)
    ensures CollectChunk(fields + [f]) == TakeChunk(CollectChunk(fields), f)
  {
    assert (fields + [f])[..|fields|] == fields;
  }

  /** A written scalar is taken over; one left out stays zero. */
  lemma CollectScalar(fields: seq<Field>, number: nat, n: nat, written: bool)
    requires n < TWO32
    ensures CollectChunk(fields + Scalar(number, n, written))
         == if n == 0 && !written then CollectChunk(fields) else TakeChunk(CollectChunk(fields), Field(number, Varint(n)))
  {
    CollectChunkLast(fields, Field(number, Varint(n)));
    if n == 0 && !written { assert fields + [] == fields; }
  }

  lemma CollectSequence(c: Chunk, z: Zeros)
    requires ValidChunk(c)
    ensures CollectChunk(Scalar(1, c.sequence, z.sequence)) == NO_CHUNK.(sequence := c.sequence)
  {
    CollectScalar([], 1, c.sequence, z.sequence);
    assert [] + Scalar(1, c.sequence, z.sequence) == Scalar(1, c.sequence, z.sequence);
  }

  lemma CollectPayload(fields: seq<Field>, c: Chunk, z: Zeros)
    requires ValidChunk(c) && CollectChunk(fields) == NO_CHUNK.(sequence := c.sequence)
    ensures CollectChunk(fields + Scalar(2, c.offset, z.offset) + [Field(3, Delimited(c.payload.value))])
         == Chunk(c.sequence, c.offset, c.payload, 0, 0)
  {
    CollectScalar(fields, 2, c.offset, z.offset);
    CollectChunkLast(fields + Scalar(2, c.offset, z.offset), Field(3, Delimited(c.payload.value)));
  }

  lemma CollectWhole(fields: seq<Field>, c: Chunk, z: Zeros)
    requires ValidChunk(c) && CollectChunk(fields) == Chunk(c.sequence, c.offset, c.payload, 0, 0)
    ensures CollectChunk(fields + Scalar(4, c.flags, z.flags) + Scalar(5, c.crc32, z.crc32)) == c
  {
    CollectFlags(fields, c, z);
    CollectScalar(fields + Scalar(4, c.flags, z.flags), 5, c.crc32, z.crc32);
  }

  lemma CollectFlags(fields: seq<Field>, c: Chunk, z: Zeros)
    requires ValidChunk(c) && CollectChunk(fields) == Chunk(c.sequence, c.offset, c.payload, 0, 0)
    ensures CollectChunk(fields + Scalar(4, c.flags, z.flags)) == Chunk(c.sequence, c.offset, c.payload, c.flags, 0)
  {
    CollectScalar(fields, 4, c.flags, z.flags);
  }

  lemma ChunkFieldsValid(c: Chunk, z: Zeros)
    requires ValidChunk(c)
    ensures forall f :: f in ChunkFields(c, z) ==> Valid(f)
  {
  }

  lemma ChunkRoundTrip(c: Chunk, z: Zeros)
    requires ValidChunk(c)
    ensures ChunkOf(MessageBytes(ChunkFields(c, z))) == Some(c)
  {
    var fields := ChunkFields(c, z);
    assert CollectChunk(fields) == c by {
      CollectSequence(c, z);
      CollectPayload(Scalar(1, c.sequence, z.sequence), c, z);
      CollectWhole(Scalar(1, c.sequence, z.sequence) + Scalar(2, c.offset, z.offset) + [Field(3, Delimited(c.payload.value))], c, z);
    }
    ChunkFieldsValid(c, z);
    MessageRoundTrip(fields);
  }

  predicate ValidChunks(chunks: seq<Chunk>, zeros: seq<Zeros>) {
    |zeros| == |chunks| && forall i :: 0 <= i < |chunks| ==> ValidChunk(chunks[i])
  }

  function ChunkMessage(c: Chunk, z: Zeros): Field
    requires ValidChunk(c)
  {
    Field(3, Delimited(MessageBytes(ChunkFields(c, z))))
  }

  function ChunkMessages(chunks: seq<Chunk>, zeros: seq<Zeros>): seq<Field>
    requires ValidChunks(chunks, zeros)
  {
    if chunks == [] then []
    else
      var n := |chunks| - 1;
      ChunkMessages(chunks[..n], zeros[..n]) + [ChunkMessage(chunks[n], zeros[n])]
  }

  function Ids(b: Batch): seq<Field> { [Field(1, Delimited(b.jobId)), Field(2, Delimited(b.requestId))] }

  function BatchFields(b: Batch, zeros: seq<Zeros>): seq<Field>
    requires ValidChunks(b.chunks, zeros)
  {
    Ids(b) + ChunkMessages(b.chunks, zeros)
  }

  lemma CollectBatchLast(fields: seq<Field>, f: Field)
    ensures CollectBatch(fields + [f]) == TakeBatch(CollectBatch(fields), f)
  {
    assert (fields + [f])[..|fields|] == fields;
  }

  lemma CollectIds(b: Batch)
    ensures CollectBatch(Ids(b)) == Some(b.(chunks := []))
  {
    var job := Field(1, Delimited(b.jobId));
    CollectBatchLast([], job);
    assert [] + [job] == [job];
    CollectBatchLast([job], Field(2, Delimited(b.requestId)));
    assert [job] + [Field(2, Delimited(b.requestId))] == Ids(b);
  }

  lemma CollectMessage(ids: seq<Field>, front: seq<Field>, b: Batch, c: Chunk, z: Zeros)
    requires ValidChunk(c) && CollectBatch(ids + front) == Some(b)
    ensures CollectBatch(ids + (front + [ChunkMessage(c, z)])) == Some(b.(chunks := b.chunks + [c]))
  {
    ChunkRoundTrip(c, z);
    CollectBatchLast(ids + front, ChunkMessage(c, z));
    Assoc(ids, front, [ChunkMessage(c, z)]);
  }

  lemma SplitLast<T>(s: seq<T>)
    requires s != []
    ensures s == s[..|s| - 1] + [s[|s| - 1]]
  {
  }

  lemma {:induction false} CollectChunks(ids: seq<Field>, b: Batch, chunks: seq<Chunk>, zeros: seq<Zeros>)
    requires ValidChunks(chunks, zeros) && CollectBatch(ids) == Some(b) && b.chunks == []
    ensures CollectBatch(ids + ChunkMessages(chunks, zeros)) == Some(Batch(b.jobId, b.requestId, chunks))
  {
    if chunks == [] {
      assert ids + [] == ids;
    } else {
      var n := |chunks| - 1;
      CollectChunks(ids, b, chunks[..n], zeros[..n]);
      CollectMessage(ids, ChunkMessages(chunks[..n], zeros[..n]), Batch(b.jobId, b.requestId, chunks[..n]), chunks[n], zeros[n]);
      SplitLast(chunks);
    }
  }

  /** A batch is read back as it was written, whichever zero scalars its chunks leave out; one with an empty part is refused. */
  lemma BatchRoundTrip(b: Batch, zeros: seq<Zeros>)
    requires ValidChunks(b.chunks, zeros) && forall f :: f in BatchFields(b, zeros) ==> Valid(f)
    ensures BatchOf(MessageBytes(BatchFields(b, zeros))) == if Filled(b) then Some(b) else None
  {
    MessageRoundTrip(BatchFields(b, zeros));
    CollectIds(b);
    CollectChunks(Ids(b), b.(chunks := []), b.chunks, zeros);
  }

  // Whatever the bytes.

  /** A field read from any bytes is a valid one. */
  lemma FieldReadIsValid(s: octets)
    requires |s| < TWO64
    ensures GetField(s).Some? ==> Valid(GetField(s).value.value)
  {
  }

  lemma {:induction false} FieldsReadAreValid(s: octets)
    requires |s| < TWO64
    ensures Fields(s).Some? ==> forall f :: f in Fields(s).value ==> Valid(f)
    decreases |s|
  {
    var r := GetField(s);
    if s != [] && r.Some? {
      FieldReadIsValid(s);
      FieldsReadAreValid(s[r.value.used..]);
    }
  }

  lemma {:induction false} CollectedFits(fields: seq<Field>)
    requires forall f :: f in fields ==> Valid(f)
    ensures var c := CollectChunk(fields); c.sequence < TWO32 && c.offset < TWO32 && c.flags < TWO32 && c.crc32 < TWO32
    ensures var e := CollectEnvelope(fields); e.apiVersion < TWO32 && (e.msgField == 0 || 10 <= e.msgField < TWO32)
  {
    if fields != [] {
      var last := fields[|fields| - 1];
      assert last in fields;
      CollectedFits(fields[..|fields| - 1]);
    }
  }

  /** What is read as a chunk or an envelope, from any bytes, keeps within the widths of its fields. */
  lemma ReadFits(s: octets)
    requires |s| < TWO64
    ensures ChunkOf(s).Some? ==>
              var c := ChunkOf(s).value; c.payload.Some? && c.sequence < TWO32 && c.offset < TWO32 && c.flags < TWO32 && c.crc32 < TWO32
    ensures EnvelopeOf(s).Some? ==> EnvelopeOf(s).value.apiVersion < TWO32 && 10 <= EnvelopeOf(s).value.msgField < TWO32
  {
    FieldsReadAreValid(s);
    if Fields(s).Some? { CollectedFits(Fields(s).value); }
  }
}
