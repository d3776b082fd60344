/**
 What can be said of the leaf's answers without its code: which announcements it accepts, what it says
 to every ask, and all that ends a transfer.
 */
module LeafRules {
  import opened Seqs
  import opened Options
  import opened Bytes
  import opened Geometry
  import opened GapBitmap
  import opened Transfer
  import opened Leaf

  /** A leaf with nothing to do takes a file it is asked to and can hold. */
  predicate Takes(l: Leaf, f: Frame, maxChunk: nat, willing: bool)
    requires f.Announce?
  {
    l.phase == Free && willing && 0 < f.fileSize <= MAX_FILE_SIZE && f.chunkSize > 0 && maxChunk > 0
  }

  /** The announcement of the transfer it is receiving already. */
  predicate IsRepeated(l: Leaf, f: Frame)
    requires f.Announce?
  {
    l.phase == Receiving && l.geo.fileSize == f.fileSize && l.action == f.action
  }

  /**
   An announcement gets one answer. It is accepted, with the chunk size, the buffer and the action, if
   it is new and can be taken, or is the one accepted before, which then changes nothing else; all
   others are rejected, and change nothing.
   */
  lemma AnnounceAnswered(l: Leaf, f: Frame, maxChunk: nat, mood: Mood)
    requires f.Announce? && (l.phase == Receiving ==> l.geo.chunk <= 0xFFFF && l.geo.bufferKb < 0x100)
    requires f.chunkSize <= 0xFFFF
    ensures var h := Hear(l, f, maxChunk, mood);
            && |h.acks| == 1 && h.acks[0].ref == h.leaf.announceTx == f.tx
            && (h.acks[0].kind == ACCEPT <==> Takes(l, f, maxChunk, mood.willing) || IsRepeated(l, f))
            && (h.acks[0].kind == ACCEPT ==>
                  var t := h.acks[0].trailing;
                  |t| == 4 && Le16(t[0], t[1]) == h.leaf.geo.chunk && t[2] as nat == h.leaf.geo.bufferKb && t[3] == f.action)
            && (h.acks[0].kind != ACCEPT ==> h.acks[0].kind == REJECT && h.acks[0].trailing == [f.action, 0])
            && (Takes(l, f, maxChunk, mood.willing) ==>
                  && h.leaf.phase == Receiving && h.leaf.action == f.action && h.leaf.increment == 0 && h.leaf.slots == map[]
                  && h.leaf.image == [] && h.leaf.boot == l.boot.(staged := None)
                  && h.leaf.geo == Negotiate(f.fileSize, Min(f.chunkSize, maxChunk), 8))
            && (!Takes(l, f, maxChunk, mood.willing) ==> h.leaf == l.(announceTx := f.tx))
  {
    var h := Hear(l, f, maxChunk, mood);
    if Takes(l, f, maxChunk, mood.willing) {
      LowHighBytes(h.leaf.geo.chunk);
      LowByte(h.leaf.geo.bufferKb);
    } else if IsRepeated(l, f) {
      LowHighBytes(l.geo.chunk);
      LowByte(l.geo.bufferKb);
    }
  }

  lemma LowHighBytes(n: nat)
    requires n <= 0xFFFF
    ensures Le16(Lo(n), Hi(n)) == n
  {
  }

  lemma LowByte(n: nat)
    requires n < 0x100
    ensures Lo(n) as nat == n
  {
    var m := n % 0x100;
    assert m == n;
    assert Lo(n) == ByteOf(m);
  }

  /** Flash does not take the increment, not even the second time. */
  predicate Unwritable(l: Leaf, flash: Flash) {
    !WritePass(l.image, Parts(l.geo, l.increment, l.slots), flash.first).all
    && !WritePass(WritePass(l.image, Parts(l.geo, l.increment, l.slots), flash.first).image,
                  Parts(l.geo, l.increment, l.slots), flash.second).all
  }

  /** An ask that the leaf can only answer by giving up: a complete increment does not go to flash, or one is still incomplete after ten rounds. */
  predicate Hopeless(l: Leaf, f: Frame, flash: Flash) {
    f.BlastComplete? && l.phase == Receiving && f.increment == l.increment
    && if |l.slots| == l.geo.Size(l.increment) then Unwritable(l, flash) else l.round >= 10
  }

  /** The file that has ended is not the one announced, or does not pass the checks on it. */
  predicate EndsBadly(l: Leaf, f: Frame, verdict: byte) {
    f == End && l.phase == AwaitingEnd && (|l.image| != l.geo.fileSize || verdict != COMPLETE_SUCCESS)
  }

  /** A busy leaf drops its transfer at exactly these frames, and says so, unless the bridge has. */
  lemma DropsIff(l: Leaf, f: Frame, maxChunk: nat, mood: Mood)
    requires l.phase != Free
    ensures var h := Hear(l, f, maxChunk, mood);
            && (h.leaf.phase == Free <==> f == Abort || Hopeless(l, f, mood.flash) || EndsBadly(l, f, mood.verdict))
            && (h.leaf.phase == Free ==>
                  && h.leaf == Forget(l)
                  && h.acks == if f == Abort then []
                               else if f == End then
                                 [AckFrame(COMPLETE, l.announceTx, [l.action, if |l.image| != l.geo.fileSize then 3 else mood.verdict])]
                               else [AckFrame(ABORT, l.announceTx, [0])])
  {
    match f
    case BlastComplete(tx, increment) => AskDrops(l, tx, increment, mood.flash);
    case _ =>
  }

  lemma AskDrops(l: Leaf, tx: nat, increment: nat, flash: Flash)
    requires l.phase != Free
    ensures var h, f := DoBlastComplete(l, tx, increment, flash), BlastComplete(tx, increment);
            && (h.leaf.phase == Free <==> Hopeless(l, f, flash))
            && (h.leaf.phase == Free ==> h.leaf == Forget(l) && h.acks == [AckFrame(ABORT, l.announceTx, [0])])
  {
  }

  /** The answer to an ask, and what it makes of the leaf. */
  predicate IsAnswer(l: Leaf, tx: nat, increment: nat, h: Heard) {
    if l.phase != Receiving || increment > l.increment then h == Heard(l, [])
    else if increment < l.increment then h == Heard(l, [GapsAck(tx, [])])
    else if |l.slots| != l.geo.Size(increment) then h == Heard(l.(round := l.round + 1), [GapsAck(tx, l.bitmap)])
    else
      && h.acks == [GapsAck(tx, [])] && l.image <= h.leaf.image && h.leaf.boot == l.boot && h.leaf.geo == l.geo
      && if increment + 1 >= l.geo.totalIncrements then h.leaf.phase == AwaitingEnd
         else h.leaf.phase == Receiving && h.leaf.increment == increment + 1 && h.leaf.round == 0 && h.leaf.slots == map[]
  }

  /**
   An ask that is not hopeless is answered if it is about the increment being received or one before: with
   what has been received, or, for one that is complete, with nothing missing. No other is answered.
   */
  lemma AskAnswered(l: Leaf, tx: nat, increment: nat, maxChunk: nat, mood: Mood)
    requires !Hopeless(l, BlastComplete(tx, increment), mood.flash)
    ensures IsAnswer(l, tx, increment, Hear(l, BlastComplete(tx, increment), maxChunk, mood))
  {
    if l.phase == Receiving && increment == l.increment && |l.slots| == l.geo.Size(increment) {
      WrittenGrows(l, mood.flash);
    }
  }

  lemma WrittenGrows(l: Leaf, flash: Flash)
    requires !Unwritable(l, flash)
    ensures var a := Write(l.image, Parts(l.geo, l.increment, l.slots), flash); a.all && l.image <= a.image
  {
  }

  /** A busy leaf that ends well is set to boot what it has received, and says nothing yet. */
  lemma EndsWell(l: Leaf, maxChunk: nat, mood: Mood)
    requires l.phase == AwaitingEnd && !EndsBadly(l, End, mood.verdict)
    ensures Hear(l, End, maxChunk, mood) == Heard(l.(phase := Finished, boot := l.boot.(staged := Some(l.image))), [])
  {
  }
}
