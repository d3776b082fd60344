/**
 The leaf's side of a transfer: chunks are collected into an increment buffer, complete increments
 are written to flash in order, and the image is installed when the bridge says the file has ended.
 The flash driver may refuse any write; a refused increment is written once more from its start.
 */
module Leaf {
  import opened Seqs
  import opened Options
  import opened Bytes
  import opened Geometry
  import opened GapBitmap
  import opened Transfer

  const IMAGE_MAGIC: byte := 0xE9
  const WRITE_ERROR: byte := 3

  datatype AckFrame = AckFrame(kind: AckKind, ref: nat, trailing: bytes)

  datatype LeafPhase = Free | Receiving | AwaitingEnd | Finished

  datatype Leaf = Leaf(
    phase: LeafPhase,
    action: byte,
    geo: Geometry,
    announceTx: nat,
    increment: nat,
    slots: map<nat, bytes>,  // the increment buffer, by position in the increment
    bitmap: bytes,
    round: nat,
    image: bytes,            // what the flash driver has taken since the transfer was accepted
    repeated: nat,           // how many of those bytes it had taken before
    answers: seq<Flash>,     // how flash answered to the increments written
    boot: Boot)

  /**
   The firmware the leaf runs and, until it reboots, the image in the other partition once that is
   set to be booted.
   */
  datatype Boot = Boot(running: bytes, staged: Option<bytes>)
  {
    /** What runs after a reboot: a staged image, or, if there is none or it has been erased, what ran before. */
    function Next(): bytes { if staged.Some? then staged.value else running }
  }

  datatype Heard = Heard(leaf: Leaf, acks: seq<AckFrame>)

  /** How many writes the flash driver takes before it refuses one, in a first pass and in its repetition. */
  datatype Flash = Flash(first: nat, second: nat)

  function Forget(l: Leaf): Leaf {
    Leaf(Free, 0, NONE, 0, 0, map[], [], 0, [], 0, [], l.boot)
  }

  function GiveUpOn(l: Leaf): Heard { Heard(Forget(l), [AckFrame(ABORT, l.announceTx, [0])]) }

  function Lo(n: nat): byte { ByteOf(n % 0x100) }

  function Hi(n: nat): byte { ByteOf(n / 0x100 % 0x100) }

  function AcceptAck(l: Leaf): AckFrame {
    AckFrame(ACCEPT, l.announceTx, [Lo(l.geo.chunk), Hi(l.geo.chunk), Lo(l.geo.bufferKb), l.action])
  }

  function GapsAck(tx: nat, bitmap: bytes): AckFrame {
    AckFrame(GAPS, tx, [Lo(|bitmap|), Hi(|bitmap|)] + bitmap)
  }

  function CompleteAck(l: Leaf, result: byte): AckFrame { AckFrame(COMPLETE, l.announceTx, [l.action, result]) }

  /** Accepting an announcement erases the partition that is not running, whatever it was staged for. */
  function DoAnnounce(l: Leaf, f: Frame, maxChunk: nat, willing: bool): Heard
    requires f.Announce?
  {
    var rejected := Heard(l.(announceTx := f.tx), [AckFrame(REJECT, f.tx, [f.action, 0])]);
    if l.phase != Free then
      if l.phase == Receiving && l.geo.fileSize == f.fileSize && l.action == f.action
      then Heard(l.(announceTx := f.tx), [AcceptAck(l.(announceTx := f.tx))])
      else rejected
    else
      var chunk := Min(f.chunkSize, maxChunk);
      if !willing || f.fileSize == 0 || f.fileSize > MAX_FILE_SIZE || chunk == 0 then rejected
      else
        var geo := Negotiate(f.fileSize, chunk, MAX_INCREMENT_KB);
        var l' := Leaf(Receiving, f.action, geo, f.tx, 0, map[], Empty(geo.Size(0)), 0, [], 0, [], l.boot.(staged := None));
        Heard(l', [AcceptAck(l')])
  }

  function DoData(l: Leaf, s: nat, data: bytes): Leaf {
    if l.phase == Receiving && l.geo.perIncrement > 0 && s in l.geo.Range(l.increment) && data != [] && |data| == l.geo.ExpectedLen(s) then
      var i := s % l.geo.perIncrement;
      if i in l.slots then l else l.(slots := l.slots[i := data], bitmap := Mark(l.bitmap, i))
    else l
  }

  predicate Complete(l: Leaf) { |l.slots| == l.geo.Size(l.increment) }

  /** The increment buffer as it is handed to the flash driver. */
  function Parts(g: Geometry, inc: nat, slots: map<nat, bytes>): seq<bytes> {
    seq(g.Size(inc), i requires 0 <= i => if i in slots then slots[i] else seq(g.chunk, _ => 0))
  }

  predicate Writable(image: bytes, part: bytes) { part != [] && (image == [] ==> part[0] == IMAGE_MAGIC) }

  /** Nothing yet, or something that begins like an image. */
  predicate LikeImage(image: bytes) { image == [] || image[0] == IMAGE_MAGIC }

  datatype Written = Written(image: bytes, all: bool)

  /** One pass over the increment, until the driver refuses a part. */
  function WritePass(image: bytes, parts: seq<bytes>, budget: nat): (r: Written)
    ensures image <= r.image && (LikeImage(image) ==> LikeImage(r.image))
    decreases |parts|
  {
    if parts == [] then Written(image, true)
    else if budget == 0 || !Writable(image, parts[0]) then Written(image, false)
    else WritePass(image + parts[0], parts[1..], budget - 1)
  }

  datatype Attempt = Attempt(image: bytes, again: nat, all: bool)

  /** A refused pass is repeated once, from the increment's first part; `again` counts what is then in flash twice. */
  function Write(image: bytes, parts: seq<bytes>, flash: Flash): Attempt {
    var first := WritePass(image, parts, flash.first);
    if first.all then Attempt(first.image, 0, true)
    else
      var second := WritePass(first.image, parts, flash.second);
      Attempt(second.image, |first.image| - |image|, second.all)
  }

  function WriteIncrement(l: Leaf, tx: nat, flash: Flash): Heard {
    var a := Write(l.image, Parts(l.geo, l.increment, l.slots), flash);
    if a.all then IncrementWritten(l, tx, a.image, a.again, flash) else GiveUpOn(l)
  }

  function IncrementWritten(l: Leaf, tx: nat, image: bytes, again: nat, flash: Flash): Heard {
    var l := l.(image := image, repeated := l.repeated + again, answers := l.answers + [flash]);
    if l.geo.IsLast(l.increment) then Heard(l.(phase := AwaitingEnd), [GapsAck(tx, [])])
    else
      Heard(l.(increment := l.increment + 1, slots := map[], bitmap := Empty(l.geo.Size(l.increment + 1)), round := 0),
            [GapsAck(tx, [])])
  }

  function DoBlastComplete(l: Leaf, tx: nat, increment: nat, flash: Flash): Heard {
    if l.phase != Receiving || increment > l.increment then Heard(l, [])
    else if increment < l.increment then Heard(l, [GapsAck(tx, [])])
    else if Complete(l) then WriteIncrement(l, tx, flash)
    else if l.round >= MAX_RETRANSMIT_ROUNDS then GiveUpOn(l)
    else Heard(l.(round := l.round + 1), [GapsAck(tx, l.bitmap)])
  }

  /** The image is set to be booted if it has the announced size and the checks on it, given by `verdict`, pass. */
  function DoEnd(l: Leaf, verdict: byte): Heard {
    if l.phase != AwaitingEnd then Heard(l, [])
    else
      var result := if |l.image| != l.geo.fileSize then WRITE_ERROR else verdict;
      if result == COMPLETE_SUCCESS then Heard(l.(phase := Finished, boot := l.boot.(staged := Some(l.image))), [])
      else Heard(Forget(l), [CompleteAck(l, result)])
  }

  /**
   What the leaf does of its own accord: repeat its report, the last time going back to waiting for
   transfers, reboot, planned or not, or give up on a silent bridge.
   */
  datatype Impulse = Repeat(last: bool) | Reboot | Timeout(notify: bool)

  function DoImpulse(l: Leaf, i: Impulse): Heard {
    match i
    case Repeat(last) =>
      if l.phase != Finished then Heard(l, [])
      else Heard(if last then Forget(l) else l, [CompleteAck(l, COMPLETE_SUCCESS)])
    case Reboot => Heard(Forget(l).(boot := Boot(l.boot.Next(), None)), [])
    case Timeout(notify) =>
      if l.phase == Free then Heard(l, []) else if notify then GiveUpOn(l) else Heard(Forget(l), [])
  }

  /** What the leaf's platform decides while it handles a frame. */
  datatype Mood = Mood(willing: bool, flash: Flash, verdict: byte)

  function Hear(l: Leaf, f: Frame, maxChunk: nat, mood: Mood): Heard {
    match f
    case Announce(_, _, _, _) => DoAnnounce(l, f, maxChunk, mood.willing)
    case Data(s, data) => Heard(DoData(l, s, data), [])
    case BlastComplete(tx, increment) => DoBlastComplete(l, tx, increment, mood.flash)
    case End => DoEnd(l, mood.verdict)
    case Abort => Heard(if l.phase == Free then l else Forget(l), [])
  }

  // What the leaf keeps, when the chunks it is sent are those of one file.

  /** How many increments are in flash. */
  function Done(l: Leaf): nat {
    if l.phase == Free then 0 else if l.phase == Receiving then l.increment else l.geo.totalIncrements
  }

  /** The chunks of the first `k` increments. */
  function Upto(g: Geometry, k: nat): nat { Min(g.Start(k), g.totalChunks) }

  /** The bytes of the first `k` increments. */
  function Prefix(g: Geometry, file: bytes, k: nat): bytes
    requires |file| == g.fileSize
  {
    file[..Offset(g, Upto(g, k))]
  }

  predicate SlotsRight(g: Geometry, file: bytes, inc: nat, slots: map<nat, bytes>)
    requires |file| == g.fileSize
  {
    forall i :: i in slots ==> i < g.Size(inc) && slots[i] == Slice(g, file, g.Start(inc) + i)
  }

  ghost predicate BitmapRight(g: Geometry, inc: nat, slots: map<nat, bytes>, bitmap: bytes) {
    |bitmap| == BitmapLen(g.Size(inc)) && forall i: nat :: Marked(bitmap, i) <==> i in slots
  }

  /** The flash holds `done` bytes of the file, apart from what it was given twice. */
  predicate ImageRight(image: bytes, repeated: nat, done: bytes) {
    |image| == |done| + repeated && (repeated == 0 ==> image == done) && LikeImage(image)
  }

  /** Flash refused nothing of `n` parts, or the very first of them, of which nothing is then written twice. */
  predicate Clean(f: Flash, n: nat) { f.first == 0 || n <= f.first }

  predicate AllClean(g: Geometry, answers: seq<Flash>) { forall k :: 0 <= k < |answers| ==> Clean(answers[k], g.Size(k)) }

  /** There is an answer to every increment written, and they say whether bytes have been written twice. */
  predicate AnswersRight(g: Geometry, answers: seq<Flash>, repeated: nat, done: nat) {
    |answers| == done && (repeated == 0 <==> AllClean(g, answers))
  }

  /** The file is staged, and begins like an image. */
  predicate Staged(l: Leaf, file: bytes) { l.boot.staged == Some(file) && file != [] && LikeImage(file) }

  ghost predicate LeafRight(l: Leaf, g: Geometry, file: bytes)
    requires |file| == g.fileSize
  {
    if l.phase == Free then l == Forget(l).(announceTx := l.announceTx)
    else
      && l.geo == g
      && (l.phase == Receiving ==>
            l.increment < g.totalIncrements && SlotsRight(g, file, l.increment, l.slots) && BitmapRight(g, l.increment, l.slots, l.bitmap))
      && ImageRight(l.image, l.repeated, Prefix(g, file, Done(l)))
      && AnswersRight(g, l.answers, l.repeated, Done(l))
      && (l.phase == Finished ==> Staged(l, file))
  }

  lemma {:induction false} WritePassFacts(image: bytes, parts: seq<bytes>, budget: nat)
    ensures var r := WritePass(image, parts, budget);
            r.all ==> r.image == image + Flatten(parts)
    decreases |parts|
  {
    if parts != [] && budget > 0 && Writable(image, parts[0]) {
      WritePassFacts(image + parts[0], parts[1..], budget - 1);
    }
  }

  /** A pass takes everything exactly if the driver has room for it and it goes behind, or begins, an image. */
  lemma {:induction false} PassAllIff(image: bytes, parts: seq<bytes>, budget: nat)
    requires forall i :: 0 <= i < |parts| ==> parts[i] != []
    ensures WritePass(image, parts, budget).all <==>
              |parts| <= budget && (image == [] && parts != [] ==> parts[0][0] == IMAGE_MAGIC)
    decreases |parts|
  {
    if parts != [] && budget > 0 && Writable(image, parts[0]) {
      PassAllIff(image + parts[0], parts[1..], budget - 1);
    }
  }

  /** Bytes are written twice exactly when the driver refuses a part after the first, and the first was taken. */
  lemma RepeatsIff(image: bytes, parts: seq<bytes>, flash: Flash)
    requires forall i :: 0 <= i < |parts| ==> parts[i] != []
    ensures Write(image, parts, flash).again > 0 <==>
              0 < flash.first < |parts| && (image == [] ==> parts[0][0] == IMAGE_MAGIC)
  {
    PassAllIff(image, parts, flash.first);
    if parts != [] && flash.first > 0 && Writable(image, parts[0]) {
      assert image + parts[0] <= WritePass(image, parts, flash.first).image;
    }
  }

  /** Of a write that succeeds in the end, what flash refused alone decides. */
  lemma WrittenTwiceIff(image: bytes, parts: seq<bytes>, flash: Flash)
    requires parts != [] && (forall i :: 0 <= i < |parts| ==> parts[i] != []) && Write(image, parts, flash).all
    ensures Write(image, parts, flash).again == 0 <==> Clean(flash, |parts|)
  {
    RepeatsIff(image, parts, flash);
    PassAllIff(image, parts, flash.first);
    PassAllIff(WritePass(image, parts, flash.first).image, parts, flash.second);
  }

  lemma ExactShape(g: Geometry, k: nat)
    requires Sound(g) && g.Exact() && k < g.totalIncrements
    ensures Upto(g, k) == g.Start(k) && g.End(k) == Upto(g, k + 1) == g.Start(k) + g.Size(k) <= g.totalChunks
    ensures 0 < g.Size(k) <= g.perIncrement
    ensures Upto(g, g.totalIncrements) == g.totalChunks && Upto(g, 0) == 0
  {
    IncrementShape(g, k);
    MulMono(k + 1, g.totalIncrements, g.perIncrement);
    MulDist(g.totalIncrements - 1, 1, g.perIncrement);
  }

  lemma PositionInIncrement(k: nat, per: nat, i: nat)
    requires i < per
    ensures (k * per + i) % per == i
  {
    var n := k * per + i;
    var q := QuotientBounds(n, per);
    if q < k { MulMono(q + 1, k, per); MulDist(q, 1, per); assert false; }
    if q > k { MulMono(k + 1, q, per); MulDist(k, 1, per); assert false; }
    assert n % per == n - q * per;
  }

  lemma SlotAdded(g: Geometry, file: bytes, inc: nat, slots: map<nat, bytes>, s: nat, data: bytes)
    requires Sound(g) && g.Exact() && |file| == g.fileSize && inc < g.totalIncrements && SlotsRight(g, file, inc, slots)
    requires s in g.Range(inc) && data == Slice(g, file, s)
    ensures var i := s % g.perIncrement; SlotsRight(g, file, inc, slots[i := data]) && i < g.Size(inc)
  {
    ExactShape(g, inc);
    PositionInIncrement(inc, g.perIncrement, s - g.Start(inc));
  }

  lemma BitAdded(g: Geometry, inc: nat, slots: map<nat, bytes>, bitmap: bytes, i: nat, data: bytes)
    requires BitmapRight(g, inc, slots, bitmap) && i < g.Size(inc)
    ensures BitmapRight(g, inc, slots[i := data], Mark(bitmap, i))
  {
  }

  lemma DataKeepsRight(l: Leaf, s: nat, data: bytes, g: Geometry, file: bytes)
    requires Sound(g) && g.Exact() && |file| == g.fileSize && LeafRight(l, g, file)
    requires data == Slice(g, file, s)
    ensures LeafRight(DoData(l, s, data), g, file)
  {
    var l' := DoData(l, s, data);
    if l' != l {
      SlotAdded(g, file, l.increment, l.slots, s, data);
      BitAdded(g, l.increment, l.slots, l.bitmap, s % g.perIncrement, data);
    }
  }

  /** A full buffer holds the increment's part of the file. */
  lemma FullBuffer(g: Geometry, file: bytes, inc: nat, slots: map<nat, bytes>)
    requires Sound(g) && g.Exact() && |file| == g.fileSize && inc < g.totalIncrements
    requires SlotsRight(g, file, inc, slots) && |slots| == g.Size(inc)
    ensures Prefix(g, file, inc) + Flatten(Parts(g, inc, slots)) == Prefix(g, file, inc + 1)
  {
    ExactShape(g, inc);
    KeysFill(slots, g.Size(inc));
    PartsAreSlices(g, file, inc, slots);
    SlicesFlatten(g, file, g.Start(inc), g.End(inc));
    JoinedPrefix(file, Offset(g, g.Start(inc)), Offset(g, g.End(inc)));
  }

  lemma JoinedPrefix(s: bytes, lo: nat, hi: nat)
    requires lo <= hi <= |s|
    ensures s[..lo] + s[lo..hi] == s[..hi]
  {
  }

  lemma PartsAreSlices(g: Geometry, file: bytes, inc: nat, slots: map<nat, bytes>)
    requires |file| == g.fileSize && SlotsRight(g, file, inc, slots) && g.End(inc) == g.Start(inc) + g.Size(inc)
    requires forall i: nat :: i in slots <==> i < g.Size(inc)
    ensures Parts(g, inc, slots) == Slices(g, file, g.Start(inc), g.End(inc))
  {
  }

  lemma KeysFill(slots: map<nat, bytes>, n: nat)
    requires |slots| == n && forall i :: i in slots ==> i < n
    ensures forall i: nat :: i in slots <==> i < n
  {
    var all := Interval(0, n);
    assert slots.Keys <= all;
    if exists i: nat :: i < n && i !in slots {
      var i: nat :| i < n && i !in slots;
      SubsetSize(slots.Keys, all - {i});
    }
  }

  /** An increment that is not complete shows a gap to the bridge. */
  lemma IncompleteShows(l: Leaf, g: Geometry, file: bytes)
    requires Sound(g) && g.Exact() && |file| == g.fileSize && LeafRight(l, g, file) && l.phase == Receiving && !Complete(l)
    ensures Gaps(l.bitmap, g.Start(l.increment), g.Size(l.increment)) != {}
    ensures 0 < |l.bitmap| < 0x1_0000
  {
    ExactShape(g, l.increment);
    FreeSlotShows(g, l.increment, l.slots, l.bitmap);
  }

  lemma FreeSlot(slots: map<nat, bytes>, n: nat) returns (i: nat)
    requires |slots| != n && forall i :: i in slots ==> i < n
    ensures i < n && i !in slots
  {
    if forall i: nat :: i < n ==> i in slots { AllSlots(slots, n); }
    i :| i < n && i !in slots;
  }

  lemma AllSlots(slots: map<nat, bytes>, n: nat)
    requires forall i: nat :: i in slots <==> i < n
    ensures |slots| == n
  {
    assert slots.Keys == Interval(0, n);
    assert |slots| == |slots.Keys|;
  }

  lemma FreeSlotShows(g: Geometry, inc: nat, slots: map<nat, bytes>, bitmap: bytes)
    requires BitmapRight(g, inc, slots, bitmap) && |slots| != g.Size(inc) && forall i :: i in slots ==> i < g.Size(inc)
    ensures Gaps(bitmap, g.Start(inc), g.Size(inc)) != {}
  {
    var i := FreeSlot(slots, g.Size(inc));
    assert !Marked(bitmap, i);
    assert g.Start(inc) + i in Gaps(bitmap, g.Start(inc), g.Size(inc));
  }

  /** A buffer for an increment of which nothing has arrived yet. */
  lemma EmptyBuffer(g: Geometry, inc: nat)
    ensures BitmapRight(g, inc, map[], Empty(g.Size(inc)))
  {
  }

  lemma SliceLength(g: Geometry, file: bytes, q: nat)
    requires Sound(g) && |file| == g.fileSize && q < g.totalChunks
    ensures |Slice(g, file, q)| == g.ExpectedLen(q) > 0
  {
    ChunkShape(g, q);
  }

  lemma SliceNotEmpty(g: Geometry, file: bytes, k: nat, i: nat)
    requires Sound(g) && g.Exact() && |file| == g.fileSize && k < g.totalIncrements && i < g.Size(k)
    ensures Slice(g, file, g.Start(k) + i) != []
  {
    ExactShape(g, k);
    SliceLength(g, file, g.Start(k) + i);
  }

  lemma PartsAreChunks(g: Geometry, file: bytes, k: nat, slots: map<nat, bytes>, i: nat)
    requires |file| == g.fileSize && SlotsRight(g, file, k, slots) && |slots| == g.Size(k) && i < g.Size(k)
    ensures Parts(g, k, slots)[i] == Slice(g, file, g.Start(k) + i)
  {
    KeysFill(slots, g.Size(k));
  }

  /** A full buffer is written twice in part exactly when flash takes some of its chunks and then refuses one. */
  lemma BufferTwiceIff(g: Geometry, file: bytes, k: nat, slots: map<nat, bytes>, image: bytes, flash: Flash)
    requires Sound(g) && g.Exact() && |file| == g.fileSize && k < g.totalIncrements
    requires SlotsRight(g, file, k, slots) && |slots| == g.Size(k) && Write(image, Parts(g, k, slots), flash).all
    ensures Write(image, Parts(g, k, slots), flash).again == 0 <==> Clean(flash, g.Size(k))
  {
    var parts := Parts(g, k, slots);
    ExactShape(g, k);
    forall i | 0 <= i < |parts|
      ensures parts[i] != []
    {
      PartsAreChunks(g, file, k, slots, i);
      SliceNotEmpty(g, file, k, i);
    }
    WrittenTwiceIff(image, parts, flash);
  }

  lemma AnswersGrow(g: Geometry, answers: seq<Flash>, repeated: nat, k: nat, again: nat, flash: Flash)
    requires AnswersRight(g, answers, repeated, k) && (again == 0 <==> Clean(flash, g.Size(k)))
    ensures AnswersRight(g, answers + [flash], repeated + again, k + 1)
  {
    var all := answers + [flash];
    assert all[k] == flash && forall i :: 0 <= i < k ==> all[i] == answers[i];
  }

  lemma WrittenKeepsRight(l: Leaf, tx: nat, image: bytes, again: nat, flash: Flash, g: Geometry, file: bytes)
    requires Sound(g) && g.Exact() && |file| == g.fileSize && LeafRight(l, g, file) && l.phase == Receiving
    requires ImageRight(image, l.repeated + again, Prefix(g, file, l.increment + 1))
    requires again == 0 <==> Clean(flash, g.Size(l.increment))
    ensures LeafRight(IncrementWritten(l, tx, image, again, flash).leaf, g, file)
    ensures Done(IncrementWritten(l, tx, image, again, flash).leaf) == l.increment + 1
  {
    AnswersGrow(g, l.answers, l.repeated, l.increment, again, flash);
    if !g.IsLast(l.increment) { EmptyBuffer(g, l.increment + 1); }
  }

  lemma WriteRight(image: bytes, repeated: nat, done: bytes, parts: seq<bytes>, flash: Flash)
    requires ImageRight(image, repeated, done)
    ensures var a := Write(image, parts, flash);
            a.all ==> ImageRight(a.image, repeated + a.again, done + Flatten(parts))
  {
    WritePassFacts(image, parts, flash.first);
    WritePassFacts(WritePass(image, parts, flash.first).image, parts, flash.second);
  }

  lemma WriteKeepsRight(l: Leaf, tx: nat, flash: Flash, g: Geometry, file: bytes)
    requires Sound(g) && g.Exact() && |file| == g.fileSize && LeafRight(l, g, file) && l.phase == Receiving && Complete(l)
    ensures var h := WriteIncrement(l, tx, flash);
            && LeafRight(h.leaf, g, file)
            && (h == GiveUpOn(l) || (h.acks == [GapsAck(tx, [])] && Done(h.leaf) == l.increment + 1))
  {
    FullBuffer(g, file, l.increment, l.slots);
    var parts := Parts(g, l.increment, l.slots);
    WriteRight(l.image, l.repeated, Prefix(g, file, l.increment), parts, flash);
    var a := Write(l.image, parts, flash);
    if a.all {
      BufferTwiceIff(g, file, l.increment, l.slots, l.image, flash);
      WrittenKeepsRight(l, tx, a.image, a.again, flash, g, file);
    }
  }

  lemma WholeFile(g: Geometry, file: bytes)
    requires Sound(g) && g.Exact() && |file| == g.fileSize
    ensures Prefix(g, file, g.totalIncrements) == file && Prefix(g, file, 0) == []
  {
    ExactShape(g, 0);
  }

  lemma EndKeepsRight(l: Leaf, verdict: byte, g: Geometry, file: bytes)
    requires Sound(g) && g.Exact() && |file| == g.fileSize && LeafRight(l, g, file)
    ensures LeafRight(DoEnd(l, verdict).leaf, g, file)
  {
    WholeFile(g, file);
  }

  /**
   A transfer that has been received completely is set to be booted, as the file itself, if and only
   if the checks pass and flash answered every increment cleanly: taking all of its chunks at once,
   or refusing the first of them and then taking all.
   */
  lemma InstalledIff(l: Leaf, verdict: byte, g: Geometry, file: bytes)
    requires Sound(g) && g.Exact() && |file| == g.fileSize && LeafRight(l, g, file) && l.phase == AwaitingEnd
    ensures var h := DoEnd(l, verdict);
            && (h.leaf.phase == Finished <==> verdict == COMPLETE_SUCCESS && AllClean(g, l.answers))
            && (h.leaf.phase == Finished ==> Staged(h.leaf, file))
            && (h.leaf.phase != Finished ==> h.leaf == Forget(l))
  {
    WholeFile(g, file);
  }
}
