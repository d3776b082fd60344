/**
 The leaf's receiver as it runs: chunks are copied into a byte buffer and marked in a bitmap, both
 updated in place and allocated anew for every increment, and a complete buffer is handed to flash
 chunk by chunk. Every method is shown to be a step of the leaf of `Leaf`.
 */
module FileReceiver {
  import opened Options
  import opened Seqs
  import opened Bytes
  import opened Geometry
  import opened GapBitmap
  import opened Transfer
  import opened Leaf
  import opened LeafClock

  /** `data` stands at `offset`. */
  predicate Stored(buffer: bytes, offset: nat, data: bytes) {
    offset + |data| <= |buffer| && buffer[offset..offset + |data|] == data
  }

  /** Where position `i` begins in the buffer. */
  function SlotAt(i: nat, chunk: nat): nat { i * chunk }

  /** The buffer and the bitmap hold the chunks in `slots`, each in its place. */
  ghost predicate Holding(g: Geometry, inc: nat, slots: map<nat, bytes>, buffer: bytes, bitmap: bytes) {
    && Sound(g) && inc < g.totalIncrements
    && |buffer| == SlotAt(g.Size(inc), g.chunk) && BitmapRight(g, inc, slots, bitmap)
    && (forall i :: i in slots ==>
          i < g.Size(inc) && |slots[i]| == g.ExpectedLen(g.Start(inc) + i) && Stored(buffer, SlotAt(i, g.chunk), slots[i]))
  }

  lemma PositionAtMost(k: nat, per: nat, d: nat)
    requires per > 0
    ensures (k * per + d) % per <= d
  {
    if d < per {
      PositionInIncrement(k, per, d);
    }
  }

  /** In a truncated geometry no increment reaches the last chunk. */
  lemma TruncatedEnd(g: Geometry, k: nat)
    requires Sound(g) && !g.Exact() && k < g.totalIncrements
    ensures g.End(k) < g.totalChunks
  {
    IncrementShape(g, k);
    IncrementShape(g, g.totalIncrements - 1);
    if k + 1 < g.totalIncrements { MulMono(k + 1, g.totalIncrements - 1, g.perIncrement); }
  }

  lemma FullLength(g: Geometry, s: nat)
    requires Sound(g) && s + 1 < g.totalChunks
    ensures g.ExpectedLen(s) == g.chunk
  {
    ChunkShape(g, s);
    MulMono(s + 1, g.totalChunks - 1, g.chunk);
  }

  /** A chunk's position in the buffer is inside it, and its length is that of the chunk counted from the increment's start. */
  lemma Position(g: Geometry, k: nat, s: nat)
    requires Sound(g) && k < g.totalIncrements && s in g.Range(k)
    ensures s % g.perIncrement < g.Size(k) && g.ExpectedLen(s) == g.ExpectedLen(g.Start(k) + s % g.perIncrement) <= g.chunk
  {
    var d := s - g.Start(k);
    PositionAtMost(k, g.perIncrement, d);
    IncrementShape(g, k);
    ChunkShape(g, s);
    if g.Exact() {
      ExactShape(g, k);
      PositionInIncrement(k, g.perIncrement, d);
    } else {
      TruncatedEnd(g, k);
      FullLength(g, s);
      FullLength(g, g.Start(k) + s % g.perIncrement);
    }
  }

  /** Room for one more chunk, apart from the others. */
  lemma Apart(i: nat, j: nat, size: nat, chunk: nat)
    requires i < size && j < size
    ensures SlotAt(i, chunk) + chunk <= SlotAt(size, chunk)
    ensures i < j ==> SlotAt(i, chunk) + chunk <= SlotAt(j, chunk)
  {
    MulMono(i + 1, size, chunk);
    MulDist(i, 1, chunk);
    if i < j { MulMono(i + 1, j, chunk); }
  }

  function Patched(buffer: bytes, at: nat, data: bytes): bytes
    requires at + |data| <= |buffer|
  {
    buffer[..at] + data + buffer[at + |data|..]
  }

  lemma PatchedHere(buffer: bytes, at: nat, data: bytes)
    requires at + |data| <= |buffer|
    ensures |Patched(buffer, at, data)| == |buffer| && Stored(Patched(buffer, at, data), at, data)
  {
  }

  lemma PatchedElsewhere(buffer: bytes, at: nat, data: bytes, off: nat, other: bytes)
    requires at + |data| <= |buffer| && Stored(buffer, off, other) && (off + |other| <= at || at + |data| <= off)
    ensures Stored(Patched(buffer, at, data), off, other)
  {
  }

  lemma KeptApart(buffer: bytes, i: nat, data: bytes, j: nat, other: bytes, size: nat, chunk: nat)
    requires i < size && j < size && i != j && |data| <= chunk && |other| <= chunk
    requires SlotAt(i, chunk) + |data| <= |buffer| && Stored(buffer, SlotAt(j, chunk), other)
    ensures Stored(Patched(buffer, SlotAt(i, chunk), data), SlotAt(j, chunk), other)
  {
    Apart(i, j, size, chunk);
    Apart(j, i, size, chunk);
    PatchedElsewhere(buffer, SlotAt(i, chunk), data, SlotAt(j, chunk), other);
  }

  lemma LengthAtMost(g: Geometry, s: nat)
    ensures g.ExpectedLen(s) <= g.chunk
  {
  }

  /** Copying a chunk to its place keeps what the buffer holds of the others. */
  lemma StoredNext(g: Geometry, inc: nat, slots: map<nat, bytes>, buffer: bytes, bitmap: bytes, i: nat, data: bytes)
    requires Holding(g, inc, slots, buffer, bitmap) && i !in slots && i < g.Size(inc)
    requires |data| == g.ExpectedLen(g.Start(inc) + i) <= g.chunk && SlotAt(i, g.chunk) + |data| <= |buffer|
    ensures Holding(g, inc, slots[i := data], Patched(buffer, SlotAt(i, g.chunk), data), Mark(bitmap, i))
  {
    BitAdded(g, inc, slots, bitmap, i, data);
    PatchedHere(buffer, SlotAt(i, g.chunk), data);
    var slots' := slots[i := data];
    forall j | j in slots' && j != i
      ensures j < g.Size(inc) && |slots'[j]| == g.ExpectedLen(g.Start(inc) + j)
      ensures Stored(Patched(buffer, SlotAt(i, g.chunk), data), SlotAt(j, g.chunk), slots'[j])
    {
      LengthAtMost(g, g.Start(inc) + j);
      KeptApart(buffer, i, data, j, slots[j], g.Size(inc), g.chunk);
    }
  }

  /** How many bytes are written for position `i` of an increment: a whole chunk, or what is left of the file. */
  function WriteLen(g: Geometry, inc: nat, i: nat): int {
    var done := g.Start(inc) * g.chunk + SlotAt(i, g.chunk);
    if i + 1 == g.Size(inc) && done + g.chunk > g.fileSize then g.fileSize - done else g.chunk
  }

  lemma WriteLenIs(g: Geometry, inc: nat, i: nat)
    requires Sound(g) && inc < g.totalIncrements && i < g.Size(inc)
    ensures 0 < WriteLen(g, inc, i) == g.ExpectedLen(g.Start(inc) + i)
  {
    var s := g.Start(inc) + i;
    IncrementShape(g, inc);
    ChunkShape(g, s);
    MulDist(g.Start(inc), i, g.chunk);
    MulDist(s, 1, g.chunk);
    if i + 1 < g.Size(inc) { FullLength(g, s); }
  }

  /** What the buffer of a complete increment gives to flash for position `i`. */
  lemma ReadBack(g: Geometry, inc: nat, slots: map<nat, bytes>, buffer: bytes, bitmap: bytes, i: nat)
    requires Holding(g, inc, slots, buffer, bitmap) && |slots| == g.Size(inc) && i < g.Size(inc)
    ensures var at, len := SlotAt(i, g.chunk), WriteLen(g, inc, i);
            0 < len && at + len <= |buffer| && buffer[at..at + len] == Parts(g, inc, slots)[i]
  {
    KeysFill(slots, g.Size(inc));
    WriteLenIs(g, inc, i);
  }

  /** What is written for position `i` is `part`. */
  predicate Stands(g: Geometry, inc: nat, buffer: bytes, i: nat, part: bytes) {
    var at, len := SlotAt(i, g.chunk), WriteLen(g, inc, i);
    0 < len && at + len <= |buffer| && buffer[at..at + len] == part
  }

  predicate AllStand(g: Geometry, inc: nat, buffer: bytes, parts: seq<bytes>) {
    forall i :: 0 <= i < |parts| ==> Stands(g, inc, buffer, i, parts[i])
  }

  lemma AllReadBack(g: Geometry, inc: nat, slots: map<nat, bytes>, buffer: bytes, bitmap: bytes)
    requires Holding(g, inc, slots, buffer, bitmap) && |slots| == g.Size(inc)
    ensures AllStand(g, inc, buffer, Parts(g, inc, slots))
  {
    forall i | 0 <= i < g.Size(inc)
      ensures Stands(g, inc, buffer, i, Parts(g, inc, slots)[i])
    {
      ReadBack(g, inc, slots, buffer, bitmap, i);
    }
  }

  lemma FreshHolding(g: Geometry, inc: nat, buffer: bytes)
    requires Sound(g) && inc < g.totalIncrements && |buffer| == SlotAt(g.Size(inc), g.chunk)
    ensures Holding(g, inc, map[], buffer, Empty(g.Size(inc)))
  {
  }

  /** `whole` is what a pass comes to that has got to part `i`. */
  ghost predicate Passing(whole: Written, image: bytes, parts: seq<bytes>, i: nat, budget: nat)
    requires i <= |parts| && i <= budget
  {
    whole == WritePass(image, parts[i..], budget - i)
  }

  lemma PassGoesOn(whole: Written, image: bytes, parts: seq<bytes>, i: nat, budget: nat)
    requires i < |parts| && i <= budget && Passing(whole, image, parts, i, budget)
    ensures if i < budget && Writable(image, parts[i]) then Passing(whole, image + parts[i], parts, i + 1, budget)
            else whole == Written(image, false)
  {
    assert parts[i..][1..] == parts[i + 1..];
  }

  lemma PassStarts(image: bytes, parts: seq<bytes>, budget: nat)
    ensures Passing(WritePass(image, parts, budget), image, parts, 0, budget)
  {
    assert parts[0..] == parts;
  }

  lemma PassEnds(whole: Written, image: bytes, parts: seq<bytes>, budget: nat)
    requires |parts| <= budget && Passing(whole, image, parts, |parts|, budget)
    ensures whole == Written(image, true)
  {
  }

  /** The last part of `IncrementWritten`, when what has been written is already noted. */
  function Moved(l: Leaf): Leaf {
    if l.geo.IsLast(l.increment) then l.(phase := AwaitingEnd)
    else l.(increment := l.increment + 1, slots := map[], bitmap := Empty(l.geo.Size(l.increment + 1)), round := 0)
  }

  function WrittenBy(l: Leaf, flash: Flash): Attempt {
    Write(l.image, Parts(l.geo, l.increment, l.slots), flash)
  }

  /** What has been written, noted. */
  function Noted(l: Leaf, a: Attempt, flash: Flash): Leaf {
    l.(image := a.image, repeated := l.repeated + a.again, answers := l.answers + [flash])
  }

  lemma WriteIncrementIs(l: Leaf, tx: nat, flash: Flash)
    ensures var a := WrittenBy(l, flash);
            && WriteIncrement(l, tx, flash) == (if a.all then Heard(Moved(Noted(l, a, flash)), [GapsAck(tx, [])]) else GiveUpOn(l))
            && GiveUpOn(Noted(l, a, flash)) == GiveUpOn(l)
  {
  }

  lemma WriteIs(image: bytes, parts: seq<bytes>, flash: Flash, first: Written, last: Written)
    requires first == WritePass(image, parts, flash.first)
    requires last == if first.all then first else WritePass(first.image, parts, flash.second)
    ensures Write(image, parts, flash) == Attempt(last.image, if first.all then 0 else |first.image| - |image|, last.all)
  {
  }

  lemma PieceOf(a: array<byte>, at: nat, len: nat)
    requires at + len <= a.Length
    ensures a[at..at + len] == a[..][at..at + len]
  {
  }

  /** A chunk put at its position, unless there is one. */
  function Put(l: Leaf, i: nat, data: bytes): Leaf {
    if i in l.slots then l else l.(slots := l.slots[i := data], bitmap := Mark(l.bitmap, i))
  }

  lemma PutIs(l: Leaf, l': Leaf, i: nat, data: bytes)
    requires l' == l.(slots := l'.slots, bitmap := l'.bitmap)
    requires i in l.slots ==> l'.slots == l.slots && l'.bitmap == l.bitmap
    requires i !in l.slots ==> l'.slots == l.slots[i := data] && l'.bitmap == Mark(l.bitmap, i)
    ensures l' == Put(l, i, data)
  {
  }

  lemma PlaceIs(l: Leaf, s: nat, data: bytes)
    requires l.phase == Receiving ==> Sound(l.geo) && l.increment < l.geo.totalIncrements
    ensures !Wanted(l, s, data) ==> DoData(l, s, data) == l
    ensures Wanted(l, s, data) ==>
              var i := s % l.geo.perIncrement;
              && DoData(l, s, data) == Put(l, i, data)
              && i < l.geo.Size(l.increment) && |data| == l.geo.ExpectedLen(l.geo.Start(l.increment) + i) <= l.geo.chunk
  {
    if Wanted(l, s, data) { Position(l.geo, l.increment, s); }
  }

  lemma MarkedIff(g: Geometry, inc: nat, slots: map<nat, bytes>, buffer: bytes, bitmap: bytes, i: nat)
    requires Holding(g, inc, slots, buffer, bitmap)
    ensures Marked(bitmap, i) <==> i in slots
  {
  }

  /** The transfer under way: what was agreed, and how far it has got. */
  datatype Session = Session(
    action: byte,
    geo: Geometry,
    announceTx: nat,
    increment: nat,
    round: nat,
    received: nat)

  /** What is known of a transfer beyond its buffer: the chunks in it, and how the flash has answered. */
  datatype Tally = Tally(slots: map<nat, bytes>, repeated: nat, answers: seq<Flash>)

  const NO_SESSION: Session := Session(0, NONE, 0, 0, 0, 0)
  const NOTHING: Tally := Tally(map[], 0, [])

  class FileReceiver {
    const maxChunk: nat

    var state: LeafPhase
    var session: Session
    var buffer: array<byte>
    var bitmap: array<byte>
    var timers: Timers

    // The flash handler's part.
    var image: bytes
    var boot: Boot

    ghost var tally: Tally

    ghost function View(): Leaf
      reads this`state, this`session, this`tally, this`bitmap, this`image, this`boot, bitmap
    {
      Leaf(state, session.action, session.geo, session.announceTx, session.increment, tally.slots, bitmap[..], session.round,
           image, tally.repeated, tally.answers, boot)
    }

    /** While chunks are received, the buffer holds them. */
    ghost predicate Buffered()
      reads this`state, this`session, this`tally, this`buffer, this`bitmap, buffer, bitmap
    {
      && buffer != bitmap
      && (state != Free ==> Sound(session.geo))
      && (state == Receiving ==>
            && Holding(session.geo, session.increment, tally.slots, buffer[..], bitmap[..])
            && session.received == |tally.slots|)
    }

    ghost predicate Valid()
      reads this, buffer, bitmap
    {
      Buffered() && (state == Finished ==> timers.completeAcksLeft > 0)
    }

    constructor (maxChunk: nat, boot: Boot)
      ensures Valid() && state == Free && View() == Forget(View()) && this.maxChunk == maxChunk && this.boot == boot
      ensures fresh(buffer) && fresh(bitmap) && timers == UNSET
    {
      this.maxChunk, this.boot := maxChunk, boot;
      state, session, tally := Free, NO_SESSION, NOTHING;
      buffer, bitmap := new byte[0], new byte[0];
      image, timers := [], UNSET;
      new;
      assert bitmap[..] == [];
    }

    /** Back to waiting for an announcement. A restart that is due stays due. */
    method Reset()
      modifies this
      ensures View() == Forget(old(View())) && Valid() && fresh(buffer) && fresh(bitmap)
      ensures timers == Unset(old(timers))
    {
      var noData, noBits := new byte[0], new byte[0];
      assert noBits[..] == [];
      buffer, bitmap := noData, noBits;
      state, session, image, tally := Free, NO_SESSION, [], NOTHING;
      timers := timers.(lastActivityMs := 0, completeAcksLeft := 0, nextCompleteAckMs := 0);
    }

    /** An empty buffer for increment `inc`. */
    method ResetBuffer(inc: nat)
      requires Sound(session.geo) && inc < session.geo.totalIncrements
      modifies this`buffer, this`bitmap, this`session, this`tally
      ensures fresh(buffer) && fresh(bitmap) && buffer != bitmap
      ensures session == old(session).(increment := inc, received := 0) && tally == old(tally).(slots := map[])
      ensures bitmap[..] == Empty(session.geo.Size(inc))
      ensures Holding(session.geo, inc, tally.slots, buffer[..], bitmap[..])
    {
      session, tally := session.(increment := inc, received := 0), tally.(slots := map[]);
      buffer := new byte[SlotAt(session.geo.Size(inc), session.geo.chunk)](_ => 0);
      bitmap := new byte[BitmapLen(session.geo.Size(inc))](_ => 0);
      assert bitmap[..] == Empty(session.geo.Size(inc));
      FreshHolding(session.geo, inc, buffer[..]);
    }

    method HandleAnnounce(f: Frame, willing: bool) returns (acks: seq<AckFrame>)
      requires Valid() && f.Announce?
      modifies this
      ensures Valid() && Heard(View(), acks) == DoAnnounce(old(View()), f, maxChunk, willing)
      ensures timers == old(timers) && (state == old(state) || (old(state) == Free && state == Receiving))
      ensures (buffer == old(buffer) && bitmap == old(bitmap)) || (fresh(buffer) && fresh(bitmap))
    {
      session := session.(announceTx := f.tx);
      if state != Free {
        if state == Receiving && session.geo.fileSize == f.fileSize && session.action == f.action {
          var a := SendAckAccept();
          return [a];
        }
        return [AckFrame(REJECT, f.tx, [f.action, 0])];
      }
      var chunk := Min(f.chunkSize, maxChunk);
      if !willing || f.fileSize == 0 || f.fileSize > MAX_FILE_SIZE || chunk == 0 {
        return [AckFrame(REJECT, f.tx, [f.action, 0])];
      }
      BeginReceiving(f.fileSize, f.action, chunk);
      var a := SendAckAccept();
      acks := [a];
    }

    /** Begins a transfer, erasing the partition it will be written to. */
    method BeginReceiving(fileSize: nat, act: byte, chunk: nat)
      requires 0 < fileSize <= MAX_FILE_SIZE && 0 < chunk
      modifies this
      ensures Valid() && fresh(buffer) && fresh(bitmap) && timers == old(timers)
      ensures var g := Negotiate(fileSize, chunk, MAX_INCREMENT_KB);
              View() == Leaf(Receiving, act, g, old(session.announceTx), 0, map[], Empty(g.Size(0)), 0, [], 0, [], old(boot).(staged := None))
    {
      NegotiatedFacts(fileSize, chunk, MAX_INCREMENT_KB);
      session := session.(geo := Negotiate(fileSize, chunk, MAX_INCREMENT_KB), action := act, round := 0);
      tally := NOTHING;
      ResetBuffer(0);
      state, image, boot := Receiving, [], boot.(staged := None);
    }

    method SendAckAccept() returns (a: AckFrame)
      ensures a == AcceptAck(View())
    {
      a := AckFrame(ACCEPT, session.announceTx, [Lo(session.geo.chunk), Hi(session.geo.chunk), Lo(session.geo.bufferKb), session.action]);
    }

    /** Copies a chunk's bytes into the buffer. */
    method CopyIn(at: nat, data: bytes)
      requires at + |data| <= buffer.Length && buffer != bitmap
      modifies buffer
      ensures buffer[..] == Patched(old(buffer[..]), at, data)
    {
      forall i | 0 <= i < |data| { buffer[at + i] := data[i]; }
    }

    /** Sets the bit of a chunk that was not there. */
    method MarkChunkReceived(i: nat)
      requires i / 8 < bitmap.Length && buffer != bitmap
      modifies bitmap
      ensures bitmap[..] == Mark(old(bitmap[..]), i)
    {
      bitmap[i / 8] := SetBit(bitmap[i / 8], i % 8);
    }

    method IsChunkReceived(i: nat) returns (received: bool)
      ensures received == Marked(bitmap[..], i)
    {
      received := i / 8 < bitmap.Length && Bit(bitmap[i / 8], i % 8);
    }

    /** Buffers a chunk that is not there yet. */
    method StoreChunk(i: nat, data: bytes, ghost held: bytes, ghost bits: bytes)
      requires buffer != bitmap && buffer[..] == held && bitmap[..] == bits
      requires Holding(session.geo, session.increment, tally.slots, held, bits) && i !in tally.slots && i < session.geo.Size(session.increment)
      requires |data| == session.geo.ExpectedLen(session.geo.Start(session.increment) + i) <= session.geo.chunk
      modifies this`session, this`tally, buffer, bitmap
      ensures Holding(session.geo, session.increment, tally.slots, buffer[..], bitmap[..])
      ensures tally == old(tally).(slots := old(tally.slots)[i := data]) && bitmap[..] == Mark(bits, i)
      ensures session == old(session).(received := old(session.received) + 1)
    {
      Apart(i, i, session.geo.Size(session.increment), session.geo.chunk);
      StoredNext(session.geo, session.increment, tally.slots, held, bits, i, data);
      CopyIn(SlotAt(i, session.geo.chunk), data);
      MarkChunkReceived(i);
      session := session.(received := session.received + 1);
      tally := tally.(slots := tally.slots[i := data]);
    }

    /** The chunk is one of the current increment and has its length. */
    method IsWanted(s: nat, data: bytes) returns (wanted: bool)
      ensures wanted <==> Wanted(View(), s, data)
    {
      if state != Receiving || s >= session.geo.totalChunks || s < session.geo.Start(session.increment) || s >= session.geo.End(session.increment) {
        return false;
      }
      var expected := session.geo.ExpectedLen(s);
      return expected != 0 && |data| == expected;
    }

    /** The position of a chunk that is wanted. */
    method Place(s: nat, data: bytes) returns (wanted: bool, i: nat)
      requires state == Receiving ==> Sound(session.geo) && session.increment < session.geo.totalIncrements
      ensures wanted == Wanted(View(), s, data)
      ensures !wanted ==> DoData(View(), s, data) == View()
      ensures wanted ==> state == Receiving && i < session.geo.Size(session.increment) && DoData(View(), s, data) == Put(View(), i, data)
      ensures wanted ==> |data| == session.geo.ExpectedLen(session.geo.Start(session.increment) + i) <= session.geo.chunk
    {
      PlaceIs(View(), s, data);
      i := 0;
      wanted := IsWanted(s, data);
      if wanted { i := s % session.geo.perIncrement; }
    }

    /** Buffers a chunk by its position, unless it is there already. */
    method TakeChunk(i: nat, data: bytes, ghost held: bytes, ghost bits: bytes)
      requires buffer != bitmap && buffer[..] == held && bitmap[..] == bits
      requires Holding(session.geo, session.increment, tally.slots, held, bits) && i < session.geo.Size(session.increment)
      requires |data| == session.geo.ExpectedLen(session.geo.Start(session.increment) + i) <= session.geo.chunk
      requires session.received == |tally.slots|
      modifies this`session, this`tally, buffer, bitmap
      ensures Holding(session.geo, session.increment, tally.slots, buffer[..], bitmap[..]) && session.received == |tally.slots|
      ensures session == old(session).(received := session.received)
      ensures i in old(tally.slots) ==> tally == old(tally) && bitmap[..] == bits
      ensures i !in old(tally.slots) ==> tally == old(tally).(slots := old(tally.slots)[i := data]) && bitmap[..] == Mark(bits, i)
    {
      MarkedIff(session.geo, session.increment, tally.slots, held, bits, i);
      var received := IsChunkReceived(i);
      if !received {
        MapGrows(tally.slots, i, data);
        StoreChunk(i, data, held, bits);
      }
    }

    method TakeWanted(i: nat, data: bytes)
      requires Buffered() && state == Receiving && i < session.geo.Size(session.increment)
      requires |data| == session.geo.ExpectedLen(session.geo.Start(session.increment) + i) <= session.geo.chunk
      modifies this`session, this`tally, buffer, bitmap
      ensures Buffered() && View() == Put(old(View()), i, data)
    {
      ghost var l := View();
      TakeChunk(i, data, buffer[..], bitmap[..]);
      PutIs(l, View(), i, data);
    }

    /** A chunk of the current increment with the expected length is buffered, once. The check for room in the buffer never fails. */
    method BufferChunk(s: nat, data: bytes) returns (wanted: bool)
      requires Valid()
      modifies this`session, this`tally, buffer, bitmap
      ensures Valid() && View() == DoData(old(View()), s, data) && wanted == Wanted(old(View()), s, data)
    {
      var i;
      wanted, i := Place(s, data);
      if wanted { TakeWanted(i, data); }
    }

    method HandleFileData(s: nat, data: bytes, now: int)
      requires Valid()
      modifies this`session, this`tally, this`timers, buffer, bitmap
      ensures Valid() && View() == DoData(old(View()), s, data)
      ensures timers == if Wanted(old(View()), s, data) then old(timers).(lastActivityMs := now) else old(timers)
    {
      var wanted := BufferChunk(s, data);
      if wanted { timers := timers.(lastActivityMs := now); }
    }

    /** The flash handler: refuses nothing, what does not begin like an image, and what the driver does not take. */
    method OnData(data: bytes, driver: bool) returns (accepted: bool)
      modifies this`image
      ensures accepted == (driver && Writable(old(image), data))
      ensures image == if accepted then old(image) + data else old(image)
    {
      accepted := false;
      if |data| == 0 || (image == [] && data[0] != IMAGE_MAGIC) || !driver {
        return;
      }
      image := image + data;
      accepted := true;
    }

    /** The buffer holds `parts`, each at its position. */
    ghost predicate Loaded(parts: seq<bytes>)
      reads this`session, this`buffer, buffer
    {
      |parts| == session.geo.Size(session.increment) && AllStand(session.geo, session.increment, buffer[..], parts)
    }

    /** What stands at position `i` of a complete buffer. */
    method PieceAt(i: nat, ghost parts: seq<bytes>) returns (piece: bytes)
      requires Loaded(parts) && i < |parts|
      ensures piece == parts[i]
    {
      assert Stands(session.geo, session.increment, buffer[..], i, parts[i]);
      var at, len := SlotAt(i, session.geo.chunk), WriteLen(session.geo, session.increment, i);
      PieceOf(buffer, at, len);
      piece := buffer[at..at + len];
    }

    /** Hands the chunk at position `i` of a complete buffer to flash. */
    method WriteChunk(i: nat, driver: bool, ghost parts: seq<bytes>) returns (accepted: bool)
      requires Loaded(parts) && i < |parts|
      modifies this`image
      ensures accepted == (driver && Writable(old(image), parts[i]))
      ensures image == if accepted then old(image) + parts[i] else old(image)
    {
      var piece := PieceAt(i, parts);
      accepted := OnData(piece, driver);
    }

    /** The next step of a pass that comes to `whole`. */
    method WriteNext(i: nat, budget: nat, ghost whole: Written, ghost parts: seq<bytes>)
      returns (accepted: bool)
      requires Loaded(parts) && i < |parts| && i <= budget && Passing(whole, image, parts, i, budget)
      modifies this`image
      ensures if accepted then i < budget && Passing(whole, image, parts, i + 1, budget) else whole == Written(image, false)
    {
      PassGoesOn(whole, image, parts, i, budget);
      accepted := WriteChunk(i, i < budget, parts);
    }

    /** One pass over the buffer, until the driver, which takes `budget` writes, or the handler refuses one. */
    method WriteBuffer(budget: nat, ghost parts: seq<bytes>) returns (all: bool)
      requires Loaded(parts)
      modifies this`image
      ensures Written(image, all) == WritePass(old(image), parts, budget)
    {
      ghost var whole := WritePass(image, parts, budget);
      PassStarts(image, parts, budget);
      var num, i: nat := session.geo.Size(session.increment), 0;
      while i < num
        invariant i <= num && i <= budget && Passing(whole, image, parts, i, budget)
      {
        var accepted := WriteNext(i, budget, whole, parts);
        if !accepted {
          return false;
        }
        i := i + 1;
      }
      PassEnds(whole, image, parts, budget);
      return true;
    }

    /** Writes the buffer, and once more from its start if flash refuses; `repeated` keeps count of what it then has twice. */
    method WriteWithRetry(flash: Flash, ghost parts: seq<bytes>) returns (all: bool)
      requires Loaded(parts)
      modifies this`image, this`tally
      ensures var a := Write(old(image), parts, flash);
              && all == a.all && image == a.image
              && tally == old(tally).(repeated := old(tally.repeated) + a.again, answers := old(tally.answers) + [flash])
    {
      ghost var before := image;
      all := WriteBuffer(flash.first, parts);
      ghost var first := Written(image, all);
      ghost var again := |image| - |before|;
      if !all { all := WriteBuffer(flash.second, parts); }
      WriteIs(before, parts, flash, first, Written(image, all));
      tally := tally.(repeated := tally.repeated + if first.all then 0 else again, answers := tally.answers + [flash]);
    }

    method WriteIncrementToFlash(tx: nat, flash: Flash) returns (acks: seq<AckFrame>)
      requires Valid() && state == Receiving && session.received == session.geo.Size(session.increment)
      modifies this
      ensures Valid() && Heard(View(), acks) == WriteIncrement(old(View()), tx, flash)
      ensures timers == if state == Free then Unset(old(timers)) else old(timers)
      ensures (buffer == old(buffer) && bitmap == old(bitmap)) || (fresh(buffer) && fresh(bitmap))
    {
      WriteIncrementIs(View(), tx, flash);
      ghost var parts := Parts(session.geo, session.increment, tally.slots);
      AllReadBack(session.geo, session.increment, tally.slots, buffer[..], bitmap[..]);
      var all := WriteWithRetry(flash, parts);
      if all {
        IncrementInFlash();
        acks := [GapsAck(tx, [])];
      } else {
        acks := AbortTransfer(true);
      }
    }

    /** Waits for the END, or makes room for the next increment. */
    method IncrementInFlash()
      requires state == Receiving && Sound(session.geo) && buffer != bitmap
      modifies this
      ensures Valid() && View() == Moved(old(View())) && timers == old(timers) && state != Free
      ensures (buffer == old(buffer) && bitmap == old(bitmap)) || (fresh(buffer) && fresh(bitmap))
    {
      if session.geo.IsLast(session.increment) {
        state := AwaitingEnd;
      } else {
        ResetBuffer(session.increment + 1);
        session := session.(round := 0);
      }
    }

    method AbortTransfer(notify: bool) returns (acks: seq<AckFrame>)
      modifies this
      ensures Valid() && View() == Forget(old(View())) && acks == if notify then GiveUpOn(old(View())).acks else []
      ensures timers == Unset(old(timers))
      ensures fresh(buffer) && fresh(bitmap)
    {
      acks := if notify then [AckFrame(ABORT, session.announceTx, [0])] else [];
      Reset();
    }

    method HandleBlastComplete(tx: nat, increment: nat, flash: Flash) returns (acks: seq<AckFrame>)
      requires Valid()
      modifies this
      ensures Valid() && Heard(View(), acks) == DoBlastComplete(old(View()), tx, increment, flash)
      ensures timers == if old(state) != Free && state == Free then Unset(old(timers)) else old(timers)
      ensures old(state) != Finished ==> state != Finished
      ensures (buffer == old(buffer) && bitmap == old(bitmap)) || (fresh(buffer) && fresh(bitmap))
    {
      if state != Receiving || increment > session.increment {
        return [];
      }
      if increment < session.increment {
        return [GapsAck(tx, [])];
      }
      if session.received == session.geo.Size(session.increment) {
        acks := WriteIncrementToFlash(tx, flash);
      } else {
        acks := ReportGaps(tx);
      }
    }

    /** Tells the bridge what is missing, until the rounds are used up. */
    method ReportGaps(tx: nat) returns (acks: seq<AckFrame>)
      requires Valid() && state == Receiving
      modifies this
      ensures Valid()
      ensures Heard(View(), acks) ==
                if old(session.round) >= MAX_RETRANSMIT_ROUNDS then GiveUpOn(old(View()))
                else Heard(old(View()).(round := old(session.round) + 1), [GapsAck(tx, old(bitmap[..]))])
      ensures timers == if state == Free then Unset(old(timers)) else old(timers)
      ensures (buffer == old(buffer) && bitmap == old(bitmap)) || (fresh(buffer) && fresh(bitmap))
    {
      if session.round >= MAX_RETRANSMIT_ROUNDS {
        acks := AbortTransfer(true);
      } else {
        session := session.(round := session.round + 1);
        acks := [GapsAck(tx, bitmap[..])];
      }
    }

    method HandleEnd(verdict: byte, now: int) returns (acks: seq<AckFrame>)
      requires Valid()
      modifies this
      ensures Valid() && Heard(View(), acks) == DoEnd(old(View()), verdict)
      ensures timers == if old(state) != AwaitingEnd then old(timers)
                        else if state == Free then Unset(old(timers))
                        else old(timers).(completeAcksLeft := COMPLETE_ACK_RETRIES, nextCompleteAckMs := now)
      ensures (buffer == old(buffer) && bitmap == old(bitmap)) || (fresh(buffer) && fresh(bitmap))
    {
      if state != AwaitingEnd {
        return [];
      }
      var result := if |image| != session.geo.fileSize then WRITE_ERROR else verdict;
      if result == COMPLETE_SUCCESS {
        state, boot := Finished, boot.(staged := Some(image));
        timers := timers.(completeAcksLeft := COMPLETE_ACK_RETRIES, nextCompleteAckMs := now);
        return [];
      }
      acks := [AckFrame(COMPLETE, session.announceTx, [session.action, result])];
      Reset();
    }

    /** One frame off the air. */
    method Receive(f: Frame, mood: Mood, now: int) returns (acks: seq<AckFrame>)
      requires Valid()
      modifies this, buffer, bitmap
      ensures Valid() && Heard(View(), acks) == Hear(old(View()), f, maxChunk, mood)
      ensures timers == TimersAfter(old(View()), old(timers), f, View(), now)
      ensures (buffer == old(buffer) && bitmap == old(bitmap)) || (fresh(buffer) && fresh(bitmap))
    {
      if f.Data? {
        ChunkNoticed(View(), timers, f.seqNo, f.data, now);
        HandleFileData(f.seqNo, f.data, now);
        acks := [];
      } else {
        timers := timers.(lastActivityMs := now);
        acks := HandleTransfer(f, mood, now);
      }
    }

    /** One frame that is not a chunk. */
    method HandleTransfer(f: Frame, mood: Mood, now: int) returns (acks: seq<AckFrame>)
      requires Valid() && !f.Data?
      modifies this, buffer, bitmap
      ensures Valid() && Heard(View(), acks) == Hear(old(View()), f, maxChunk, mood)
      ensures timers == Settled(old(View()), old(timers), View(), now)
      ensures (buffer == old(buffer) && bitmap == old(bitmap)) || (fresh(buffer) && fresh(bitmap))
    {
      match f {
        case Announce(_, _, _, _) => acks := HandleAnnounce(f, mood.willing);
        case BlastComplete(tx, increment) => acks := HandleBlastComplete(tx, increment, mood.flash);
        case End => acks := HandleEnd(mood.verdict, now);
        case Abort =>
          HandleAbort();
          acks := [];
      }
    }

    method HandleAbort()
      requires Valid()
      modifies this
      ensures Valid() && View() == if old(state) == Free then old(View()) else Forget(old(View()))
      ensures timers == if old(state) == Free then old(timers) else Unset(old(timers))
      ensures (buffer == old(buffer) && bitmap == old(bitmap)) || (fresh(buffer) && fresh(bitmap))
    {
      if state != Free { Reset(); }
    }

    method Loop(now: int) returns (acks: seq<AckFrame>, ghost i: Option<Impulse>)
      requires Valid()
      modifies this
      ensures Valid() && i == old(TurnImpulse(View(), timers, now)) && timers == TimersAfterTurn(old(timers), i, now)
      ensures Heard(View(), acks) == if i.Some? then DoImpulse(old(View()), i.value) else Heard(old(View()), [])
      ensures (buffer == old(buffer) && bitmap == old(bitmap)) || (fresh(buffer) && fresh(bitmap))
    {
      acks, i := [], TurnImpulse(View(), timers, now);
      if timers.restartPending && now >= timers.restartDueMs {
        Restart();
      } else if state == Finished {
        acks := RepeatReport(now);
      } else if state != Free && now - timers.lastActivityMs > RADIO_SILENCE_ABORT_MS {
        acks := AbortTransfer(true);
      }
    }

    /** Repeats the report when it is time; after the last one a restart is scheduled, and transfers are taken again. */
    method RepeatReport(now: int) returns (acks: seq<AckFrame>)
      requires Valid() && state == Finished
      modifies this
      ensures Valid()
      ensures Heard(View(), acks) ==
                if now - old(timers).nextCompleteAckMs >= COMPLETE_ACK_INTERVAL_MS
                then DoImpulse(old(View()), Repeat(old(timers).completeAcksLeft == 1)) else Heard(old(View()), [])
      ensures timers == if now - old(timers).nextCompleteAckMs >= COMPLETE_ACK_INTERVAL_MS
                        then TimersAfterTurn(old(timers), Some(Repeat(old(timers).completeAcksLeft == 1)), now) else old(timers)
      ensures (buffer == old(buffer) && bitmap == old(bitmap)) || (fresh(buffer) && fresh(bitmap))
    {
      acks := [];
      if now - timers.nextCompleteAckMs >= COMPLETE_ACK_INTERVAL_MS {
        acks := [AckFrame(COMPLETE, session.announceTx, [session.action, COMPLETE_SUCCESS])];
        timers := timers.(completeAcksLeft := timers.completeAcksLeft - 1, nextCompleteAckMs := now);
        if timers.completeAcksLeft <= 0 {
          Reset();
          timers := timers.(restartPending := true, restartDueMs := now + RESTART_DELAY_MS);
        }
      }
    }

    /** The node comes up with the staged image, or with what it ran before. */
    method Restart()
      modifies this
      ensures Valid() && View() == DoImpulse(old(View()), Reboot).leaf && fresh(buffer) && fresh(bitmap)
      ensures timers == TimersAfterTurn(old(timers), Some(Reboot), 0)
    {
      Reset();
      boot := Boot(boot.Next(), None);
      timers := timers.(restartPending := false);
    }
  }
}
