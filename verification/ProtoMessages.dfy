/**
 The readers and the writer as they run: an index that moves through the message, an accumulator
 filled septet by septet, an output that grows. Each is shown to do what `Protobuf` says.
 */
module ProtoMessages {
  import opened Seqs
  import opened Options
  import opened Octets
  import opened Protobuf

  lemma PowersInOrder(k: nat)
    requires k <= 9
    ensures Pow128(k) <= Pow128(9) && Pow128(9) == TWO64 / 2
    decreases 9 - k
  {
    if k < 9 { PowersInOrder(k + 1); } else { Pow128Of10(); assert Pow128(10) == 0x80 * Pow128(9); }
  }

  lemma ModMultiple(q: nat, x: nat)
    requires x < TWO64
    ensures (q * TWO64 + x) % TWO64 == x
  {
  }

  lemma LastGroup(acc: nat, g: nat)
    requires acc < TWO64 / 2 && g < 0x80
    ensures acc + g * (TWO64 / 2) % TWO64 == (acc + g * (TWO64 / 2)) % TWO64
  {
    var q, r := g / 2, g % 2;
    assert g == 2 * q + r;
    assert g * (TWO64 / 2) == q * TWO64 + r * (TWO64 / 2);
    ModMultiple(q, r * (TWO64 / 2));
    ModMultiple(q, acc + r * (TWO64 / 2));
  }

  /** Adding a group of bits, cut off at 64, to the ones below it: only the tenth group loses any. */
  lemma AddGroup(acc: nat, g: nat, k: nat)
    requires k < 10 && acc < Pow128(k) && g < 0x80
    ensures acc + g * Pow128(k) % TWO64 == (acc + g * Pow128(k)) % TWO64
    ensures k < 9 ==> acc + g * Pow128(k) % TWO64 == acc + g * Pow128(k) < Pow128(k + 1)
  {
    PowersInOrder(k);
    if k == 9 {
      LastGroup(acc, g);
    } else {
      PowersInOrder(k + 1);
      SmallGroup(acc, g, Pow128(k));
    }
  }

  lemma SmallGroup(acc: nat, g: nat, p: nat)
    requires acc < p && g < 0x80 && 0x80 * p < TWO64
    ensures acc + g * p % TWO64 == acc + g * p == (acc + g * p) % TWO64 && acc + g * p < 0x80 * p
  {
    MulAtMost(g, 0x7F, p);
    BelowModulus(g * p);
    BelowModulus(acc + g * p);
  }

  lemma MulAtMost(a: nat, b: nat, p: nat)
    requires a <= b
    ensures a * p <= b * p
  {
  }

  lemma BelowModulus(n: nat)
    requires n < TWO64
    ensures n % TWO64 == n
  {
  }

  /** A value whose first `k` groups are `acc` and whose others are `rest`. */
  function Joined(acc: nat, k: nat, rest: Option<Read<nat>>): Option<Read<nat>> {
    if rest.None? then None else Some(Read(acc + rest.value.value * Pow128(k), k + rest.value.used))
  }

  lemma GroupSum(acc: nat, g: nat, v: nat, k: nat)
    ensures acc + (g + 0x80 * v) * Pow128(k) == acc + g * Pow128(k) + v * Pow128(k + 1)
  {
    Distribute(acc, g, v, Pow128(k));
  }

  /** What a group adds, as the `k`th. */
  function Weighted(g: nat, k: nat): nat { g * Pow128(k) }

  lemma JoinGroup(t: octets, k: nat, acc: nat)
    requires t != [] && k < 10
    ensures Joined(acc, k, Septets(t, k))
         == if t[0] < 0x80 then Some(Read(acc + Weighted(t[0], k), k + 1))
            else Joined(acc + Weighted(t[0] - 0x80, k), k + 1, Septets(t[1..], k + 1))
  {
    var r := Septets(t[1..], k + 1);
    if t[0] >= 0x80 && r.Some? { GroupSum(acc, t[0] - 0x80, r.value.value, k); }
  }

  lemma Distribute(acc: nat, g: nat, v: nat, p: nat)
    ensures acc + (g + 0x80 * v) * p == acc + g * p + v * (0x80 * p)
  {
  }

  /** One turn of the varint loop, at the group whose byte is `data[at]`. */
  lemma TurnOfVarint(all: Option<Read<nat>>, data: octets, at: nat, k: nat, acc: nat, acc': nat)
    requires at < |data| && k < 10 && acc < Pow128(k) && all == Joined(acc, k, Septets(data[at..], k))
    requires acc' == acc + data[at] % 0x80 * Pow128(k) % TWO64
    ensures data[at] < 0x80 ==> all.Some? && all.value.used == k + 1 && all.value.value % TWO64 == acc'
    ensures data[at] >= 0x80 && k < 9 ==> acc' < Pow128(k + 1) && all == Joined(acc', k + 1, Septets(data[at + 1..], k + 1))
    ensures data[at] >= 0x80 && k == 9 ==> all == None
  {
    var g := data[at] % 0x80;
    NextSuffix(data, at);
    JoinGroup(data[at..], k, acc);
    AddGroup(acc, g, k);
    assert g == if data[at] < 0x80 then data[at] else data[at] - 0x80;
  }

  method ReadVarint(data: octets, pos: nat) returns (ok: bool, next: nat, out: nat)
    requires pos <= |data|
    ensures pos <= next <= |data|
    ensures GetVarint(data[pos..]) == if ok then Some(Read(out, next - pos)) else None
  {
    ghost var all := Septets(data[pos..], 0);
    out, next := 0, pos;
    var scale: nat, k: nat := 1, 0;
    while next < |data| && k < 10
      invariant k <= 10 && next == pos + k <= |data|
      invariant scale == Pow128(k) && (k < 10 ==> out < scale)
      invariant if k < 10 then all == Joined(out, k, Septets(data[next..], k)) else all == None
    {
      ghost var before := out;
      var byte := data[next];
      out := out + byte % 0x80 * scale % TWO64;
      TurnOfVarint(all, data, next, k, before, out);
      next := next + 1;
      if byte < 0x80 {
        return true, next, out;
      }
      k, scale := k + 1, 0x80 * scale;
    }
    return false, next, out;
  }

  method ReadValue(wire: nat, data: octets, pos: nat) returns (ok: bool, next: nat, value: Value)
    requires pos <= |data|
    ensures pos <= next <= |data|
    ensures GetValue(wire, data[pos..]) == if ok then Some(Read(value, next - pos)) else None
  {
    next, value := pos, Varint(0);
    if wire == 0 {
      var n;
      ok, next, n := ReadVarint(data, pos);
      value := Varint(n);
    } else if wire == 1 {
      if pos + 8 > |data| {
        return false, next, value;
      }
      ok, next, value := true, pos + 8, Fixed64(data[pos..pos + 8]);
      SliceOfSuffix(data, pos, 0, 8);
    } else if wire == 2 {
      var n;
      ok, next, n := ReadVarint(data, pos);
      if !ok || n > |data| - next {
        return false, next, value;
      }
      value := Delimited(data[next..next + n]);
      SliceOfSuffix(data, pos, next - pos, next + n - pos);
      next := next + n;
    } else {
      ok := false;
    }
  }

  method ReadField(data: octets, pos: nat) returns (r: Option<Read<Field>>)
    requires pos <= |data|
    ensures r == GetField(data[pos..])
  {
    var ok, next, tag := ReadVarint(data, pos);
    if !ok {
      return None;
    }
    SliceOfSuffix(data, pos, next - pos, next - pos);
    var value;
    ok, next, value := ReadValue(tag % 8, data, next);
    return if ok then Some(Read(Field(tag / 8 % TWO32, value), next - pos)) else None;
  }

  /** The fields before `pos` are `done`. */
  ghost predicate ReadSoFar(data: octets, pos: nat, done: seq<Field>)
    requires pos <= |data|
  {
    Fields(data) == Then(done, Fields(data[pos..]))
  }

  lemma ReadStarts(data: octets)
    ensures ReadSoFar(data, 0, [])
  {
    assert data[0..] == data;
    if Fields(data).Some? { assert [] + Fields(data).value == Fields(data).value; }
  }

  lemma ReadEnds(data: octets, done: seq<Field>)
    requires ReadSoFar(data, |data|, done)
    ensures Fields(data) == Some(done)
  {
    assert done + [] == done;
  }

  lemma FieldsUnfold(s: octets, r: Option<Read<Field>>)
    requires s != [] && r == GetField(s)
    ensures Fields(s) == if r.Some? then Then([r.value.value], Fields(s[r.value.used..])) else None
  {
  }

  lemma FieldsFront(s: octets, r: Option<Read<Field>>, rest: octets)
    requires s != [] && r == GetField(s) && (r.Some? ==> rest == s[r.value.used..])
    ensures Fields(s) == if r.Some? then Then([r.value.value], Fields(rest)) else None
  {
    FieldsUnfold(s, r);
  }

  lemma ThenAssoc(all: Option<seq<Field>>, done: seq<Field>, f: Field, rest: Option<seq<Field>>)
    requires all == Then(done, Then([f], rest))
    ensures all == Then(done + [f], rest)
  {
    if rest.Some? { Assoc(done, [f], rest.value); }
  }

  lemma ReadGoesOn(data: octets, pos: nat, done: seq<Field>, f: Field, next: nat)
    requires pos < next <= |data| && ReadSoFar(data, pos, done)
    requires Fields(data[pos..]) == Then([f], Fields(data[next..]))
    ensures ReadSoFar(data, next, done + [f])
  {
    ThenAssoc(Fields(data), done, f, Fields(data[next..]));
  }

  method SplitField(data: octets, pos: nat) returns (ok: bool, next: nat, f: Field)
    requires pos < |data|
    ensures ok ==> pos < next <= |data|
    ensures Fields(data[pos..]) == if ok then Then([f], Fields(data[next..])) else None
  {
    var r := ReadField(data, pos);
    ok, next, f := r.Some?, pos, Field(0, Varint(0));
    if ok {
      next, f := pos + r.value.used, r.value.value;
      SliceOfSuffix(data, pos, r.value.used, r.value.used);
    }
    FieldsFront(data[pos..], r, data[next..]);
  }

  /** Reads one more field of a message. */
  method NextField(data: octets, pos: nat, ghost done: seq<Field>) returns (ok: bool, next: nat, f: Field)
    requires pos < |data| && ReadSoFar(data, pos, done)
    ensures if ok then pos < next <= |data| && ReadSoFar(data, next, done + [f]) else Fields(data) == None
  {
    ok, next, f := SplitField(data, pos);
    if ok { ReadGoesOn(data, pos, done, f, next); }
  }

  method SetEnvelopeField(e: Envelope, f: Field, ghost done: seq<Field>) returns (e': Envelope)
    requires e == CollectEnvelope(done)
    ensures e' == CollectEnvelope(done + [f])
  {
    CollectLast(done, f);
    e' := e;
    if f.number == 1 && f.value.Delimited? {
      e' := e.(requestId := f.value.data);
    } else if f.number == 2 && f.value.Varint? {
      e' := e.(apiVersion := f.value.n % TWO32);
    } else if f.number >= 10 && f.value.Delimited? {
      e' := e.(msgField := f.number, msg := f.value.data);
    }
  }

  method ParseEnvelope(data: octets) returns (r: Option<Envelope>)
    ensures r == EnvelopeOf(data)
  {
    var e := Envelope([], 0, 0, []);
    var pos := 0;
    ghost var done: seq<Field> := [];
    ReadStarts(data);
    while pos < |data|
      invariant pos <= |data| && ReadSoFar(data, pos, done) && e == CollectEnvelope(done)
    {
      var ok, next, f := NextField(data, pos, done);
      if !ok {
        return None;
      }
      e := SetEnvelopeField(e, f, done);
      pos, done := next, done + [f];
    }
    ReadEnds(data, done);
    return if e.msgField != 0 then Some(e) else None;
  }

  method SetChunkField(c: Chunk, f: Field, ghost done: seq<Field>) returns (c': Chunk)
    requires c == CollectChunk(done)
    ensures c' == CollectChunk(done + [f])
  {
    CollectChunkLast(done, f);
    c' := c;
    if f.number == 1 && f.value.Varint? {
      c' := c.(sequence := f.value.n % TWO32);
    } else if f.number == 2 && f.value.Varint? {
      c' := c.(offset := f.value.n % TWO32);
    } else if f.number == 3 && f.value.Delimited? {
      c' := c.(payload := Some(f.value.data));
    } else if f.number == 4 && f.value.Varint? {
      c' := c.(flags := f.value.n % TWO32);
    } else if f.number == 5 && f.value.Varint? {
      c' := c.(crc32 := f.value.n % TWO32);
    }
  }

  method ParseOtaChunk(data: octets) returns (r: Option<Chunk>)
    ensures r == ChunkOf(data)
  {
    var c := NO_CHUNK;
    var pos := 0;
    ghost var done: seq<Field> := [];
    ReadStarts(data);
    while pos < |data|
      invariant pos <= |data| && ReadSoFar(data, pos, done) && c == CollectChunk(done)
    {
      var ok, next, f := NextField(data, pos, done);
      if !ok {
        return None;
      }
      c := SetChunkField(c, f, done);
      pos, done := next, done + [f];
    }
    ReadEnds(data, done);
    return if c.payload.Some? then Some(c) else None;
  }

  /** A chunk that cannot be read spoils the batch, whatever follows. */
  lemma {:induction false} SpoiledStays(done: seq<Field>, more: seq<Field>)
    requires CollectBatch(done).None?
    ensures CollectBatch(done + more).None?
  {
    if more == [] {
      assert done + [] == done;
    } else {
      var n := |more| - 1;
      SpoiledStays(done, more[..n]);
      assert (done + more)[..|done + more| - 1] == done + more[..n];
    }
  }

  lemma SpoiledBatch(data: octets, pos: nat, done: seq<Field>)
    requires pos <= |data| && ReadSoFar(data, pos, done) && CollectBatch(done).None?
    ensures BatchOf(data) == None
  {
    if Fields(data[pos..]).Some? { SpoiledStays(done, Fields(data[pos..]).value); }
  }

  method SetBatchField(b: Batch, f: Field, ghost done: seq<Field>) returns (r: Option<Batch>)
    requires Some(b) == CollectBatch(done)
    ensures r == CollectBatch(done + [f])
  {
    CollectBatchLast(done, f);
    if f.number == 1 && f.value.Delimited? {
      return Some(b.(jobId := f.value.data));
    } else if f.number == 2 && f.value.Delimited? {
      return Some(b.(requestId := f.value.data));
    } else if f.number == 3 && f.value.Delimited? {
      var c := ParseOtaChunk(f.value.data);
      return if c.None? then None else Some(b.(chunks := b.chunks + [c.value]));
    }
    return Some(b);
  }

  method ParseOtaChunkBatch(data: octets) returns (r: Option<Batch>)
    ensures r == BatchOf(data)
  {
    var b := Batch([], [], []);
    var pos := 0;
    ghost var done: seq<Field> := [];
    ReadStarts(data);
    while pos < |data|
      invariant pos <= |data| && ReadSoFar(data, pos, done) && Some(b) == CollectBatch(done)
    {
      var ok, next, f := NextField(data, pos, done);
      if !ok {
        return None;
      }
      var taken := SetBatchField(b, f, done);
      pos, done := next, done + [f];
      if taken.None? {
        SpoiledBatch(data, pos, done);
        return None;
      }
      b := taken.value;
    }
    ReadEnds(data, done);
    return if Filled(b) then Some(b) else None;
  }

  class Writer {
    var out: octets

    constructor ()
      ensures out == []
    {
      out := [];
    }

    method RawVarint(value: nat)
      modifies this
      ensures out == old(out) + VarintBytes(value)
    {
      var v := value;
      while v >= 0x80
        invariant out + VarintBytes(v) == old(out) + VarintBytes(value)
      {
        Assoc(out, [v % 0x80 + 0x80], VarintBytes(v / 0x80));
        out := out + [v % 0x80 + 0x80];
        v := v / 0x80;
      }
      out := out + [v];
    }

    method Varint(number: nat, value: nat)
      modifies this
      ensures out == old(out) + FieldBytes(Field(number, Value.Varint(value)))
    {
      RawVarint(number * 8);
      RawVarint(value);
      Assoc(old(out), VarintBytes(number * 8), VarintBytes(value));
    }

    method Bytes(number: nat, data: octets)
      modifies this
      ensures out == old(out) + FieldBytes(Field(number, Delimited(data)))
    {
      RawVarint(number * 8 + 2);
      RawVarint(|data|);
      out := out + data;
      Assoc(old(out), VarintBytes(number * 8 + 2), VarintBytes(|data|));
      Assoc(old(out), VarintBytes(number * 8 + 2) + VarintBytes(|data|), data);
      Assoc(VarintBytes(number * 8 + 2), VarintBytes(|data|), data);
    }

    method String(number: nat, s: octets)
      modifies this
      ensures out == old(out) + MessageBytes(StringFields(number, s))
    {
      if s != [] {
        Bytes(number, s);
        MessageSnoc([], Field(number, Delimited(s)));
        assert [] + [Field(number, Delimited(s))] == StringFields(number, s);
      }
    }
  }

  lemma EnvelopeBytes(requestId: octets, msgField: nat, msg: octets)
    ensures MessageBytes(EnvelopeFields(requestId, msgField, msg))
         == MessageBytes(StringFields(1, requestId)) + FieldBytes(Field(2, Varint(API_VERSION))) + FieldBytes(Field(msgField, Delimited(msg)))
  {
    var id, version, body := StringFields(1, requestId), Field(2, Varint(API_VERSION)), Field(msgField, Delimited(msg));
    MessageSnoc(id, version);
    MessageSnoc(id + [version], body);
    Assoc(id, [version], [body]);
    assert [version] + [body] == [version, body];
  }

  /** The bytes of a message of kind `msgField` in its envelope. */
  method WriteEnvelope(requestId: octets, msgField: nat, msg: octets) returns (out: octets)
    ensures out == MessageBytes(EnvelopeFields(requestId, msgField, msg))
  {
    EnvelopeBytes(requestId, msgField, msg);
    var w := new Writer();
    w.String(1, requestId);
    assert w.out == MessageBytes(StringFields(1, requestId));
    w.Varint(2, API_VERSION);
    w.Bytes(msgField, msg);
    return w.out;
  }
}
