/**
 Bridge and leaf together, over a radio that loses, repeats and reorders frames at will. Every frame
 and acknowledgement ever sent stays available; each step delivers one of them, or lets one side act
 by itself. The bridge may start the transfer of the file any number of times.
 */
module EndToEnd {
  import opened Seqs
  import opened Options
  import opened Bytes
  import opened Geometry
  import opened GapBitmap
  import opened Transfer
  import opened TransferMoves
  import opened TransferInvariants
  import opened TransferRuns
  import opened Leaf

  /**
   The transfer: which file, asked for with which action and chunk size, to a leaf that takes up to
   `maxChunk` and runs the firmware `before`; and the reports of earlier transfers, of any files, that
   are still on the air.
   */
  datatype World = World(
    file: bytes,
    action: byte,
    requested: nat,
    maxChunk: nat,
    geo: Geometry,
    before: bytes,
    leftOver: set<AckFrame>)

  /** A file whose increments the 16-bit fields can count. */
  ghost predicate Fair(w: World) {
    && 0 < |w.file| <= MAX_FILE_SIZE && 0 < w.maxChunk && MIN_CHUNK <= w.requested <= 0xFFFF
    && w.geo == Negotiate(|w.file|, Min(w.requested, w.maxChunk), MAX_INCREMENT_KB)
    && w.geo.Exact()
    && (forall a :: a in w.leftOver ==> a.kind == COMPLETE)
  }

  /** A COMPLETE that the bridge takes for a report of success. */
  predicate ReportsSuccess(w: World, a: AckFrame) {
    a.kind == COMPLETE && |a.trailing| >= 2 && a.trailing[0] == w.action && a.trailing[1] == COMPLETE_SUCCESS
  }

  ghost predicate Stale(w: World) { exists a :: a in w.leftOver && ReportsSuccess(w, a) }

  /**
   What has happened to the leaf's firmware: an END found the file good; since the last such END an
   announcement was accepted before a reboot; a reboot took over a staged image.
   */
  datatype Seen = Seen(ended: bool, spoiled: bool, adopted: bool)

  datatype System = System(
    bridge: Bridge,
    leaf: Leaf,
    air: set<Frame>,
    acks: set<AckFrame>,
    nextTx: nat,   // no frame has been sent with this counter value or a later one
    since: nat,    // `nextTx` when the current or last transfer was started
    forgot: bool,  // whether the leaf has dropped a transfer since then
    seen: Seen)

  datatype Action =
    | BridgeActs(e: Event, nextTx: nat)
    | LeafHears(f: Frame, mood: Mood)
    | LeafActs(i: Impulse)
    | AcksLost(lost: set<AckFrame>)

  function Emitted<T(==)>(s: seq<T>): set<T> {
    if s == [] then {} else {s[0]} + Emitted(s[1..])
  }

  /** The radio hands out transmission counters it has not used before. */
  ghost predicate FreshTx(e: Event, lo: nat, hi: nat) {
    lo <= hi && forall tx: nat :: Offers(e, tx) ==> lo <= tx < hi
  }

  /** What can happen: acknowledgements and frames come off the air, and the source answers from the file. */
  ghost predicate Enabled(w: World, s: System, a: Action) {
    match a
    case BridgeActs(e, nextTx) =>
      && FreshTx(e, s.nextTx, nextTx)
      && (e.Start? ==> e.fileSize == |w.file| && e.action == w.action && ClampChunk(e.maxPayload) == w.requested)
      && (e.Source? && |w.file| == w.geo.fileSize ==> e.data == Slice(w.geo, w.file, e.seqNo))
      && (e.Ack? ==> AckFrame(e.kind, e.ref, e.trailing) in s.acks)
    case LeafHears(f, _) => f in s.air
    case LeafActs(_) => true
    case AcksLost(_) => true
  }

  function Restarts(b: Bridge, e: Event): bool { e.Start? && CanStart(b, e.fileSize, e.maxPayload) }

  /** What one step of the leaf adds to what has happened to its firmware. */
  function Noted(seen: Seen, l: Leaf, l': Leaf, reboots: bool): Seen {
    var good := l'.phase == Finished && l.phase != Finished;
    var accepted := l'.phase == Receiving && l.phase == Free;
    Seen(seen.ended || good,
         !good && (seen.spoiled || (accepted && l.boot.staged.Some?)),
         seen.adopted || (reboots && l.boot.staged.Some?))
  }

  function LeafMoves(s: System, h: Heard, reboots: bool): System {
    s.(leaf := h.leaf, acks := s.acks + Emitted(h.acks), forgot := s.forgot || Done(h.leaf) < Done(s.leaf),
       seen := Noted(s.seen, s.leaf, h.leaf, reboots))
  }

  function Does(w: World, s: System, a: Action): System {
    match a
    case BridgeActs(e, nextTx) =>
      var o := Step(s.bridge, e);
      var restarts := Restarts(s.bridge, e);
      s.(bridge := o.bridge, air := s.air + Emitted(o.frames), nextTx := nextTx,
         since := if restarts then s.nextTx else s.since, forgot := if restarts then false else s.forgot)
    case LeafHears(f, mood) => LeafMoves(s, Hear(s.leaf, f, w.maxChunk, mood), false)
    case LeafActs(i) => LeafMoves(s, DoImpulse(s.leaf, i), i.Reboot?)
    case AcksLost(lost) => s.(acks := s.acks - lost)
  }

  /** The system after a sequence of actions; one that cannot happen when its turn comes is left out. */
  ghost function After(w: World, s: System, actions: seq<Action>): System {
    if actions == [] then s
    else
      var before := After(w, s, actions[..|actions| - 1]);
      var a := actions[|actions| - 1];
      if Enabled(w, before, a) then Does(w, before, a) else before
  }

  /** Neither side is in a transfer, and of earlier ones nothing is on the air but reports. */
  ghost predicate Initial(w: World, s: System) {
    && s.bridge == Cleared(STATUS_IDLE, 0) && s.leaf == Forget(s.leaf) && s.leaf.boot == Boot(w.before, None)
    && s.air == {} && s.acks == w.leftOver && s.since <= s.nextTx && s.seen == Seen(false, false, false)
  }

  // The invariant.

  predicate BridgeRight(w: World, b: Bridge)
    requires |w.file| == w.geo.fileSize
  {
    && (b.Busy() ==> b.fileSize == |w.file| && b.action == w.action && b.requestedChunk == w.requested)
    && (Established(b) ==> b.geo == w.geo)
    && (forall c :: c in b.pending ==> c.data == Slice(w.geo, w.file, c.seqNo))
  }

  predicate FrameRight(w: World, f: Frame, nextTx: nat)
    requires |w.file| == w.geo.fileSize
  {
    match f
    case Announce(_, fileSize, action, chunkSize) => fileSize == |w.file| && action == w.action && chunkSize == w.requested
    case Data(s, data) => data == Slice(w.geo, w.file, s)
    case BlastComplete(tx, _) => tx < nextTx
    case _ => true
  }

  /** Frames carry the file's chunks, and one counter value names one increment. */
  ghost predicate AirRight(w: World, air: set<Frame>, nextTx: nat)
    requires |w.file| == w.geo.fileSize
  {
    && (forall f :: f in air ==> FrameRight(w, f, nextTx))
    && (forall tx, j, k :: BlastComplete(tx, j) in air && BlastComplete(tx, k) in air ==> j == k)
  }

  /** The counters the bridge remembers are those of BLAST_COMPLETEs for its current increment. */
  predicate HistoryRight(b: Bridge, air: set<Frame>, since: nat) {
    Transferring(b) ==> forall tx :: tx in b.history ==> since <= tx && BlastComplete(tx, b.increment) in air
  }

  /** What the leaf says about increment `j` is true: an empty bitmap means it is in flash. */
  ghost predicate Truthful(g: Geometry, a: AckFrame, j: nat, since: nat, forgot: bool, done: nat)
    requires |a.trailing| >= 2
  {
    if |a.trailing| == 2 then a.ref < since || forgot || j < done
    else Gaps(a.trailing[2..], g.Start(j), g.Size(j)) != {}
  }

  ghost predicate AckRight(w: World, s: System, a: AckFrame) {
    match a.kind
    case ACCEPT =>
      && |a.trailing| == 4 && Le16(a.trailing[0], a.trailing[1]) == w.geo.chunk && a.trailing[2] as nat == MAX_INCREMENT_KB
    case GAPS =>
      && a.ref < s.nextTx && |a.trailing| >= 2 && Le16(a.trailing[0], a.trailing[1]) == |a.trailing| - 2
      && (forall j :: BlastComplete(a.ref, j) in s.air ==> Truthful(w.geo, a, j, s.since, s.forgot, Done(s.leaf)))
    case COMPLETE => ReportsSuccess(w, a) ==> s.seen.ended || Stale(w)
    case _ => true
  }

  /** What the leaf would boot, by what has happened. */
  predicate BootRight(w: World, boot: Boot, seen: Seen) {
    && boot.running == (if seen.adopted then w.file else w.before)
    && (boot.staged.Some? ==> boot.staged.value == w.file && seen.ended && !seen.spoiled)
    && (seen.adopted ==> seen.ended)
    && (seen.ended ==> w.file != [] && LikeImage(w.file))
    && (seen.ended && !seen.spoiled ==> boot.staged.Some? || seen.adopted)
  }

  /** Unless it forgot, the leaf is not behind the bridge. */
  predicate NotBehind(g: Geometry, b: Bridge, forgot: bool, done: nat) {
    && (Transferring(b) && !forgot ==> b.increment <= done)
    && (b.phase == Ending && !forgot ==> done == g.totalIncrements)
  }

  ghost predicate Right(w: World, s: System) {
    && Sound(w.geo) && |w.file| == w.geo.fileSize
    && Regular(s.bridge) && BridgeRight(w, s.bridge)
    && LeafRight(s.leaf, w.geo, w.file) && (s.leaf.phase != Free ==> s.leaf.action == w.action)
    && AirRight(w, s.air, s.nextTx)
    && (forall a :: a in s.acks ==> AckRight(w, s, a))
    && HistoryRight(s.bridge, s.air, s.since) && s.since <= s.nextTx
    && NotBehind(w.geo, s.bridge, s.forgot, Done(s.leaf))
    && BootRight(w, s.leaf.boot, s.seen) && (s.leaf.phase == Finished ==> s.seen.ended)
    && (s.bridge.status == SUCCESS ==> s.seen.ended || Stale(w))
  }

  // The bridge's steps.

  predicate Restarted(s: System, s': System) {
    s' == s.(since := s.nextTx, forgot := false)
  }

  lemma RestartKeepsAck(w: World, s: System, s': System, a: AckFrame)
    requires Restarted(s, s') && AckRight(w, s, a)
    ensures AckRight(w, s', a)
  {
  }

  lemma RestartKeepsRight(w: World, s: System, s': System)
    requires Right(w, s) && !s.bridge.Busy() && Restarted(s, s')
    ensures Right(w, s')
  {
    forall a | a in s'.acks
      ensures AckRight(w, s', a)
    {
      RestartKeepsAck(w, s, s', a);
    }
  }

  /** The system after a move of the bridge, its radio's counter having reached `nextTx`. */
  predicate Moved(s: System, fs: seq<Frame>, s': System) {
    s' == s.(bridge := s'.bridge, air := s.air + Emitted(fs), nextTx := s'.nextTx) && s.nextTx <= s'.nextTx
  }

  /** What the event behind a move brings: counters that are new, the file's own bytes, an acknowledgement that is right. */
  ghost predicate Brings(w: World, s: System, e: Event, nextTx: nat)
    requires |w.file| == w.geo.fileSize
  {
    && FreshTx(e, s.nextTx, nextTx)
    && (e.Start? ==> e.fileSize == |w.file| && e.action == w.action && ClampChunk(e.maxPayload) == w.requested)
    && (e.Source? ==> e.data == Slice(w.geo, w.file, e.seqNo))
    && (e.Ack? ==> AckRight(w, s, AckFrame(e.kind, e.ref, e.trailing)))
  }

  lemma FrameOfMove(w: World, m: Move, b: Bridge, fs: seq<Frame>, b': Bridge, e: Event, lo: nat, hi: nat)
    requires |w.file| == w.geo.fileSize && BridgeRight(w, b)
    requires Moves(m, b, fs, b') && Caused(m, b, e, b') && (m.CloseRound? ==> FreshTx(e, lo, hi))
    ensures fs == [] || (|fs| == 1 && FrameRight(w, fs[0], hi) && (fs[0].BlastComplete? ==> m.CloseRound? && lo <= fs[0].tx))
  {
    if m.SendHead? { assert b.pending[0] in b.pending; }
  }

  lemma EmittedOne<T>(s: seq<T>)
    requires |s| <= 1
    ensures Emitted(s) == if s == [] then {} else {s[0]}
  {
    if s != [] { assert Emitted(s[1..]) == {}; }
  }

  lemma MoveKeepsAir(w: World, s: System, m: Move, fs: seq<Frame>, s': System, e: Event)
    requires |w.file| == w.geo.fileSize && AirRight(w, s.air, s.nextTx) && BridgeRight(w, s.bridge)
    requires Moves(m, s.bridge, fs, s'.bridge) && Caused(m, s.bridge, e, s'.bridge) && Moved(s, fs, s')
    requires m.CloseRound? ==> FreshTx(e, s.nextTx, s'.nextTx)
    ensures AirRight(w, s'.air, s'.nextTx)
    ensures forall tx: nat, j: nat :: tx < s.nextTx && BlastComplete(tx, j) in s'.air ==> BlastComplete(tx, j) in s.air
  {
    FrameOfMove(w, m, s.bridge, fs, s'.bridge, e, s.nextTx, s'.nextTx);
    EmittedOne(fs);
  }

  lemma MoveKeepsAck(w: World, s: System, s': System, a: AckFrame)
    requires s'.leaf == s.leaf && s'.seen == s.seen && s'.since == s.since && s'.forgot == s.forgot && s.nextTx <= s'.nextTx && AckRight(w, s, a)
    requires forall tx: nat, j: nat :: tx < s.nextTx && BlastComplete(tx, j) in s'.air ==> BlastComplete(tx, j) in s.air
    ensures AckRight(w, s', a)
  {
  }

  lemma MoveKeepsBridgeRight(w: World, m: Move, b: Bridge, fs: seq<Frame>, b': Bridge, e: Event)
    requires Fair(w) && |w.file| == w.geo.fileSize && BridgeRight(w, b) && Moves(m, b, fs, b') && Caused(m, b, e, b')
    requires m.Begin? ==> e.fileSize == |w.file| && e.action == w.action && ClampChunk(e.maxPayload) == w.requested
    requires m.Enqueue? ==> e.data == Slice(w.geo, w.file, e.seqNo)
    requires m.Accept? ==> Negotiate(|w.file|, m.chunk, m.kb) == w.geo
    ensures BridgeRight(w, b')
  {
  }

  lemma OnlyBitmap(trailing: bytes, len: nat, bitmap: bytes)
    requires 2 + len == |trailing| && bitmap == trailing[2..2 + len]
    ensures bitmap == trailing[2..]
  {
  }

  /** An answer to the current BLAST_COMPLETE: an empty bitmap is true, and no other one is without gaps. */
  lemma AnswerIsTrue(w: World, s: System, a: AckFrame, bitmap: bytes)
    requires a.kind == GAPS && BlastComplete(a.ref, s.bridge.increment) in s.air && s.since <= a.ref
    requires AckRight(w, s, a)
    ensures Le16(a.trailing[0], a.trailing[1]) == 0 ==> s.forgot || s.bridge.increment < Done(s.leaf)
    ensures IsBitmap(a.trailing, bitmap) ==>
              Gaps(bitmap, w.geo.Start(s.bridge.increment), w.geo.Size(s.bridge.increment)) != {}
  {
    var k, done := s.bridge.increment, Done(s.leaf);
    var len := Le16(a.trailing[0], a.trailing[1]);
    assert Truthful(w.geo, a, k, s.since, s.forgot, done);
    if len == 0 { EmptyIsTrue(w.geo, a, k, s.since, s.forgot, done); }
    if IsBitmap(a.trailing, bitmap) {
      OnlyBitmap(a.trailing, len, bitmap);
      BitmapIsTrue(w.geo, a, k, s.since, s.forgot, done, bitmap);
    }
  }

  lemma EmptyIsTrue(g: Geometry, a: AckFrame, k: nat, since: nat, forgot: bool, done: nat)
    requires |a.trailing| == 2 && since <= a.ref && Truthful(g, a, k, since, forgot, done)
    ensures forgot || k < done
  {
  }

  lemma BitmapIsTrue(g: Geometry, a: AckFrame, k: nat, since: nat, forgot: bool, done: nat, bitmap: bytes)
    requires |a.trailing| > 2 && bitmap == a.trailing[2..] && Truthful(g, a, k, since, forgot, done)
    ensures Gaps(bitmap, g.Start(k), g.Size(k)) != {}
  {
  }

  lemma MoveKeepsHistory(m: Move, b: Bridge, fs: seq<Frame>, b': Bridge, air: set<Frame>, air': set<Frame>, e: Event, since: nat, nextTx: nat, hi: nat)
    requires HistoryRight(b, air, since) && Moves(m, b, fs, b') && !m.Skip? && Caused(m, b, e, b')
    requires air' == air + Emitted(fs) && (m.CloseRound? ==> FreshTx(e, nextTx, hi)) && since <= nextTx
    ensures HistoryRight(b', air', since)
  {
    if m.CloseRound? {
      EmittedOne(fs);
      assert fs[0] in air' && Offers(e, m.tx);
      assert forall tx :: tx in b'.history ==> tx in b.history || tx == m.tx;
    }
  }

  lemma MoveKeepsNotBehind(g: Geometry, m: Move, b: Bridge, fs: seq<Frame>, b': Bridge, forgot: bool, done: nat)
    requires NotBehind(g, b, forgot, done) && Moves(m, b, fs, b') && !m.Skip?
    requires m.Advance? || m.Finish? ==> b.geo == g && (forgot || b.increment < done)
    requires g.totalIncrements > 0 && done <= g.totalIncrements
    ensures NotBehind(g, b', forgot, done)
  {
  }

  lemma MoveKeepsSuccess(w: World, s: System, m: Move, fs: seq<Frame>, b': Bridge, e: Event)
    requires |w.file| == w.geo.fileSize && BridgeRight(w, s.bridge)
    requires s.bridge.status == SUCCESS ==> s.seen.ended || Stale(w)
    requires e.Ack? ==> AckRight(w, s, AckFrame(e.kind, e.ref, e.trailing))
    requires Moves(m, s.bridge, fs, b') && Caused(m, s.bridge, e, b')
    ensures b'.status == SUCCESS ==> s.seen.ended || Stale(w)
  {
  }

  /** What the acknowledgements allow the bridge to do. */
  lemma MoveIsAllowed(w: World, s: System, m: Move, fs: seq<Frame>, b': Bridge, e: Event, nextTx: nat)
    requires Fair(w) && Right(w, s) && Moves(m, s.bridge, fs, b') && Caused(m, s.bridge, e, b') && Brings(w, s, e, nextTx)
    ensures !m.Skip?
    ensures m.Advance? || m.Finish? ==> s.forgot || s.bridge.increment < Done(s.leaf)
    ensures m.Accept? ==> Negotiate(|w.file|, m.chunk, m.kb) == w.geo
  {
    if m.Advance? || m.Finish? || m.Skip? {
      AnswerIsTrue(w, s, AckFrame(e.kind, e.ref, e.trailing), if m.Skip? then m.bitmap else []);
    }
    if m.Accept? { NegotiatedParts(|w.file|, Min(w.requested, w.maxChunk), MAX_INCREMENT_KB); }
  }

  lemma MoveKeepsBridgeSide(w: World, s: System, m: Move, fs: seq<Frame>, b': Bridge, e: Event, nextTx: nat)
    requires Fair(w) && Right(w, s) && Moves(m, s.bridge, fs, b') && Caused(m, s.bridge, e, b') && Brings(w, s, e, nextTx)
    ensures Regular(b') && BridgeRight(w, b') && NotBehind(w.geo, b', s.forgot, Done(s.leaf)) && !m.Skip?
    ensures b'.status == SUCCESS ==> s.seen.ended || Stale(w)
  {
    MoveIsAllowed(w, s, m, fs, b', e, nextTx);
    MoveKeepsBridgeRight(w, m, s.bridge, fs, b', e);
    MoveKeepsRegular(m, s.bridge, fs, b');
    MoveKeepsNotBehind(w.geo, m, s.bridge, fs, b', s.forgot, Done(s.leaf));
    MoveKeepsSuccess(w, s, m, fs, b', e);
  }

  lemma MoveKeepsAirSide(w: World, s: System, m: Move, fs: seq<Frame>, s': System, e: Event)
    requires Right(w, s) && Moves(m, s.bridge, fs, s'.bridge) && !m.Skip? && Caused(m, s.bridge, e, s'.bridge) && Moved(s, fs, s')
    requires m.CloseRound? ==> FreshTx(e, s.nextTx, s'.nextTx)
    ensures AirRight(w, s'.air, s'.nextTx) && HistoryRight(s'.bridge, s'.air, s'.since)
    ensures forall a :: a in s'.acks ==> AckRight(w, s', a)
  {
    MoveKeepsAir(w, s, m, fs, s', e);
    MoveKeepsHistory(m, s.bridge, fs, s'.bridge, s.air, s'.air, e, s.since, s.nextTx, s'.nextTx);
    MoveKeepsAcks(w, s, s');
  }

  lemma MoveKeepsRight(w: World, s: System, m: Move, fs: seq<Frame>, s': System, e: Event, nextTx: nat)
    requires Fair(w) && Right(w, s) && Moves(m, s.bridge, fs, s'.bridge) && Caused(m, s.bridge, e, s'.bridge)
    requires Brings(w, s, e, nextTx) && Moved(s, fs, s') && (m.CloseRound? ==> s'.nextTx == nextTx)
    ensures Right(w, s')
  {
    MoveKeepsBridgeSide(w, s, m, fs, s'.bridge, e, nextTx);
    MoveKeepsAirSide(w, s, m, fs, s', e);
    PartsRight(w, s, s');
  }

  lemma MoveKeepsAcks(w: World, s: System, s': System)
    requires s'.leaf == s.leaf && s'.seen == s.seen && s'.since == s.since && s'.forgot == s.forgot && s.nextTx <= s'.nextTx && s'.acks == s.acks
    requires forall a :: a in s.acks ==> AckRight(w, s, a)
    requires forall tx: nat, j: nat :: tx < s.nextTx && BlastComplete(tx, j) in s'.air ==> BlastComplete(tx, j) in s.air
    ensures forall a :: a in s'.acks ==> AckRight(w, s', a)
  {
    forall a | a in s'.acks
      ensures AckRight(w, s', a)
    {
      MoveKeepsAck(w, s, s', a);
    }
  }

  /** What a move of the bridge does not touch stays right. */
  lemma PartsRight(w: World, s: System, s': System)
    requires Right(w, s) && s' == s.(bridge := s'.bridge, air := s'.air, nextTx := s'.nextTx) && s.nextTx <= s'.nextTx
    requires Regular(s'.bridge) && BridgeRight(w, s'.bridge) && AirRight(w, s'.air, s'.nextTx)
    requires forall a :: a in s'.acks ==> AckRight(w, s', a)
    requires HistoryRight(s'.bridge, s'.air, s'.since) && NotBehind(w.geo, s'.bridge, s'.forgot, Done(s'.leaf))
    requires s'.bridge.status == SUCCESS ==> s'.seen.ended || Stale(w)
    ensures Right(w, s')
  {
  }

  lemma PathKeepsRight(w: World, s: System, p: Path, o: Outcome, s': System, e: Event)
    requires Fair(w) && Right(w, s) && Brings(w, s, e, s'.nextTx)
    requires Takes(p, s.bridge, o) && Explains(p, s.bridge, e, o.bridge)
    requires s'.bridge == o.bridge && Moved(s, o.frames, s')
    ensures Right(w, s')
  {
    var mid := s.(bridge := p.mid, air := s.air + Emitted(p.f1));
    MidKeepsRight(w, s, p, mid, e, s'.nextTx);
    EmittedAppend(p.f1, p.f2);
    MoveKeepsRight(w, mid, p.m2, p.f2, s', e, s'.nextTx);
  }

  lemma MidKeepsRight(w: World, s: System, p: Path, mid: System, e: Event, nextTx: nat)
    requires Fair(w) && Right(w, s) && Brings(w, s, e, nextTx)
    requires Moves(p.m1, s.bridge, p.f1, p.mid) && Caused(p.m1, s.bridge, e, p.mid) && !p.m1.CloseRound?
    requires mid == s.(bridge := p.mid, air := s.air + Emitted(p.f1))
    ensures Right(w, mid) && Brings(w, mid, e, nextTx)
  {
    MoveKeepsRight(w, s, p.m1, p.f1, mid, e, nextTx);
    MoveKeepsAir(w, s, p.m1, p.f1, mid, e);
    if e.Ack? { MoveKeepsAck(w, s, mid, AckFrame(e.kind, e.ref, e.trailing)); }
  }

  lemma {:induction false} EmittedAppend<T>(a: seq<T>, b: seq<T>)
    ensures Emitted(a + b) == Emitted(a) + Emitted(b)
  {
    if a == [] {
      assert a + b == b;
    } else {
      EmittedAppend(a[1..], b);
      AppendFirst(a, b);
    }
  }

  /** The starts of a transfer are where the bridge stops looking back. */
  lemma BridgeActsKeepsRight(w: World, s: System, e: Event, nextTx: nat)
    requires Fair(w) && Right(w, s) && Enabled(w, s, BridgeActs(e, nextTx))
    ensures Right(w, Does(w, s, BridgeActs(e, nextTx)))
  {
    var s0 := s.(since := if Restarts(s.bridge, e) then s.nextTx else s.since,
                 forgot := if Restarts(s.bridge, e) then false else s.forgot);
    if Restarts(s.bridge, e) { RestartKeepsRight(w, s, s0); }
    if e.Ack? { assert AckRight(w, s0, AckFrame(e.kind, e.ref, e.trailing)); }
    var p := EventPath(s.bridge, e);
    PathKeepsRight(w, s0, p, Step(s.bridge, e), Does(w, s, BridgeActs(e, nextTx)), e);
  }

  // The leaf's steps.

  /** An acknowledgement is true of the leaf that sends it, in answer to `f`. */
  ghost predicate Told(w: World, a: AckFrame, f: Frame, l: Leaf) {
    match a.kind
    case ACCEPT =>
      && |a.trailing| == 4 && Le16(a.trailing[0], a.trailing[1]) == w.geo.chunk && a.trailing[2] as nat == MAX_INCREMENT_KB
    case GAPS =>
      && f.BlastComplete? && a.ref == f.tx
      && |a.trailing| >= 2 && Le16(a.trailing[0], a.trailing[1]) == |a.trailing| - 2
      && (if |a.trailing| == 2 then f.increment < Done(l)
          else Gaps(a.trailing[2..], w.geo.Start(f.increment), w.geo.Size(f.increment)) != {})
    case _ => true
  }

  /** What a step does to the leaf's partitions. */
  predicate BootMoves(w: World, l: Leaf, l': Leaf, reboots: bool) {
    if reboots then l'.phase == Free && l'.boot == Boot(l.boot.Next(), None)
    else if l'.phase == Finished && l.phase != Finished then l'.boot == l.boot.(staged := Some(w.file)) && w.file != [] && LikeImage(w.file)
    else if l'.phase == Receiving && l.phase == Free then l'.boot == l.boot.(staged := None)
    else l'.boot == l.boot
  }

  /** What a leaf that has heard something keeps, and says. */
  ghost predicate LeafStepRight(w: World, l: Leaf, f: Frame, h: Heard, reboots: bool)
    requires |w.file| == w.geo.fileSize
  {
    && LeafRight(h.leaf, w.geo, w.file) && (h.leaf.phase != Free ==> h.leaf.action == w.action)
    && BootMoves(w, l, h.leaf, reboots)
    && |h.acks| <= 1 && (h.acks != [] ==> Told(w, h.acks[0], f, h.leaf))
    && (h.acks != [] && ReportsSuccess(w, h.acks[0]) ==> l.phase == Finished)
  }

  /** What has happened keeps saying what the leaf would boot. */
  lemma NotedRight(w: World, l: Leaf, l': Leaf, reboots: bool, seen: Seen)
    requires BootRight(w, l.boot, seen) && BootMoves(w, l, l', reboots)
    ensures BootRight(w, l'.boot, Noted(seen, l, l', reboots))
  {
  }

  lemma LoHi(n: nat)
    requires n < 0x1_0000
    ensures Le16(Lo(n), Hi(n)) == n
  {
    var lo, hi := n % 0x100, n / 0x100;
    assert hi % 0x100 == hi;
  }

  lemma GapsAckTold(w: World, tx: nat, j: nat, bitmap: bytes, l: Leaf)
    requires |bitmap| < 0x1_0000
    requires if bitmap == [] then j < Done(l) else Gaps(bitmap, w.geo.Start(j), w.geo.Size(j)) != {}
    ensures Told(w, GapsAck(tx, bitmap), BlastComplete(tx, j), l)
  {
    var t := GapsAck(tx, bitmap).trailing;
    LoHi(|bitmap|);
    assert t[2..] == bitmap;
  }

  lemma AcceptAckTold(w: World, f: Frame, l: Leaf)
    requires l.geo == w.geo && w.geo.chunk < 0x1_0000 && w.geo.bufferKb == MAX_INCREMENT_KB
    ensures Told(w, AcceptAck(l), f, l)
  {
    LoHi(w.geo.chunk);
  }

  lemma GeometryOf(w: World)
    requires Fair(w)
    ensures w.geo.chunk == Min(w.requested, w.maxChunk) && w.geo.bufferKb == MAX_INCREMENT_KB && Sound(w.geo)
    ensures w.geo.fileSize == |w.file|
  {
    NegotiatedFacts(|w.file|, Min(w.requested, w.maxChunk), MAX_INCREMENT_KB);
    NegotiatedParts(|w.file|, Min(w.requested, w.maxChunk), MAX_INCREMENT_KB);
  }

  lemma AnnounceRight(w: World, l: Leaf, f: Frame, willing: bool)
    requires Fair(w) && Sound(w.geo) && |w.file| == w.geo.fileSize && LeafRight(l, w.geo, w.file) && (l.phase != Free ==> l.action == w.action)
    requires f.Announce? && FrameRight(w, f, 0)
    ensures LeafStepRight(w, l, f, DoAnnounce(l, f, w.maxChunk, willing), false)
  {
    GeometryOf(w);
    var h := DoAnnounce(l, f, w.maxChunk, willing);
    var l' := l.(announceTx := f.tx);
    if h == Heard(l', [AckFrame(REJECT, f.tx, [f.action, 0])]) {
      SameLeafRight(w, l, l');
    } else if l.phase != Free {
      AcceptedAgain(w, l, f, h);
    } else {
      NewlyAccepted(w, l, f, h.leaf);
    }
  }

  lemma AcceptedAgain(w: World, l: Leaf, f: Frame, h: Heard)
    requires Fair(w) && |w.file| == w.geo.fileSize && LeafRight(l, w.geo, w.file) && l.action == w.action
    requires l.phase == Receiving && h.leaf == l.(announceTx := h.leaf.announceTx) && h.acks == [AcceptAck(h.leaf)]
    ensures LeafStepRight(w, l, f, h, false)
  {
    GeometryOf(w);
    SameLeafRight(w, l, h.leaf);
    AcceptAckTold(w, f, h.leaf);
  }

  lemma NewlyAccepted(w: World, l: Leaf, f: Frame, l': Leaf)
    requires Fair(w) && Sound(w.geo) && |w.file| == w.geo.fileSize && l.phase == Free && f.Announce?
    requires l' == Leaf(Receiving, w.action, w.geo, f.tx, 0, map[], Empty(w.geo.Size(0)), 0, [], 0, [], l.boot.(staged := None))
    ensures LeafStepRight(w, l, f, Heard(l', [AcceptAck(l')]), false)
  {
    GeometryOf(w);
    NewLeafRight(w, l');
    AcceptAckTold(w, f, l');
  }

  /** A leaf that has just accepted. */
  lemma NewLeafRight(w: World, l: Leaf)
    requires Sound(w.geo) && w.geo.Exact() && |w.file| == w.geo.fileSize
    requires l == Leaf(Receiving, l.action, w.geo, l.announceTx, 0, map[], Empty(w.geo.Size(0)), 0, [], 0, [], l.boot)
    ensures LeafRight(l, w.geo, w.file)
  {
    WholeFile(w.geo, w.file);
    EmptyBuffer(w.geo, 0);
  }

  lemma SameLeafRight(w: World, l: Leaf, l': Leaf)
    requires |w.file| == w.geo.fileSize && LeafRight(l, w.geo, w.file) && l' == l.(announceTx := l'.announceTx)
    ensures LeafRight(l', w.geo, w.file)
  {
  }

  /** The leaf says of an increment in flash that it has all of it. */
  lemma AllThereRight(w: World, l: Leaf, f: Frame)
    requires |w.file| == w.geo.fileSize && LeafRight(l, w.geo, w.file) && (l.phase != Free ==> l.action == w.action)
    requires f.BlastComplete? && l.phase == Receiving && f.increment < l.increment
    ensures LeafStepRight(w, l, f, Heard(l, [GapsAck(f.tx, [])]), false)
  {
    GapsAckTold(w, f.tx, f.increment, [], l);
  }

  lemma WrittenRight(w: World, l: Leaf, f: Frame, flash: Flash, h: Heard)
    requires Fair(w) && Sound(w.geo) && |w.file| == w.geo.fileSize && LeafRight(l, w.geo, w.file) && l.action == w.action
    requires f.BlastComplete? && l.phase == Receiving && f.increment == l.increment && Complete(l)
    requires h == WriteIncrement(l, f.tx, flash) && h != GiveUpOn(l)
    ensures LeafStepRight(w, l, f, h, false)
  {
    WriteKeepsRight(l, f.tx, flash, w.geo, w.file);
    GapsAckTold(w, f.tx, f.increment, [], h.leaf);
  }

  lemma MissingRight(w: World, l: Leaf, f: Frame, l': Leaf)
    requires Fair(w) && Sound(w.geo) && |w.file| == w.geo.fileSize && LeafRight(l, w.geo, w.file) && l.action == w.action
    requires f.BlastComplete? && l.phase == Receiving && f.increment == l.increment && !Complete(l) && l' == l.(round := l.round + 1)
    ensures LeafStepRight(w, l, f, Heard(l', [GapsAck(f.tx, l.bitmap)]), false)
  {
    IncompleteShows(l, w.geo, w.file);
    GapsAckTold(w, f.tx, f.increment, l.bitmap, l');
  }

  lemma BlastCompleteRight(w: World, l: Leaf, f: Frame, flash: Flash)
    requires Fair(w) && Sound(w.geo) && |w.file| == w.geo.fileSize && LeafRight(l, w.geo, w.file) && (l.phase != Free ==> l.action == w.action)
    requires f.BlastComplete?
    ensures LeafStepRight(w, l, f, DoBlastComplete(l, f.tx, f.increment, flash), false)
  {
    var h := DoBlastComplete(l, f.tx, f.increment, flash);
    if h == GiveUpOn(l) {
      GivenUpRight(w, l, f);
    } else if l.phase == Receiving && f.increment < l.increment {
      AllThereRight(w, l, f);
    } else if l.phase == Receiving && f.increment == l.increment {
      if Complete(l) { WrittenRight(w, l, f, flash, h); } else { MissingRight(w, l, f, h.leaf); }
    }
  }

  lemma GivenUpRight(w: World, l: Leaf, f: Frame)
    requires |w.file| == w.geo.fileSize && LeafRight(l, w.geo, w.file)
    ensures LeafStepRight(w, l, f, GiveUpOn(l), false)
  {
  }

  lemma EndRight(w: World, l: Leaf, f: Frame, verdict: byte)
    requires Fair(w) && Sound(w.geo) && |w.file| == w.geo.fileSize && LeafRight(l, w.geo, w.file) && (l.phase != Free ==> l.action == w.action)
    ensures LeafStepRight(w, l, f, DoEnd(l, verdict), false)
  {
    EndKeepsRight(l, verdict, w.geo, w.file);
    WholeFile(w.geo, w.file);
  }

  lemma HearRight(w: World, l: Leaf, f: Frame, mood: Mood, nextTx: nat)
    requires Fair(w) && Sound(w.geo) && |w.file| == w.geo.fileSize && LeafRight(l, w.geo, w.file) && (l.phase != Free ==> l.action == w.action)
    requires FrameRight(w, f, nextTx)
    ensures LeafStepRight(w, l, f, Hear(l, f, w.maxChunk, mood), false)
  {
    match f
    case Announce(_, _, _, _) => AnnounceRight(w, l, f, mood.willing);
    case Data(s, data) => DataKeepsRight(l, s, data, w.geo, w.file);
    case BlastComplete(_, _) => BlastCompleteRight(w, l, f, mood.flash);
    case End => EndRight(w, l, f, mood.verdict);
    case Abort =>
  }

  lemma ImpulseRight(w: World, l: Leaf, i: Impulse)
    requires |w.file| == w.geo.fileSize && LeafRight(l, w.geo, w.file) && (l.phase != Free ==> l.action == w.action)
    ensures LeafStepRight(w, l, End, DoImpulse(l, i), i.Reboot?)
  {
  }

  lemma OldAckStaysRight(w: World, s: System, s': System, a: AckFrame)
    requires s' == s.(leaf := s'.leaf, acks := s'.acks, forgot := s.forgot || Done(s'.leaf) < Done(s.leaf), seen := s'.seen)
    requires s.seen.ended ==> s'.seen.ended
    requires AckRight(w, s, a)
    ensures AckRight(w, s', a)
  {
  }

  lemma NewAckIsRight(w: World, s: System, f: Frame, s': System, a: AckFrame)
    requires |w.file| == w.geo.fileSize && AirRight(w, s.air, s.nextTx) && (f in s.air || f == End)
    requires s'.air == s.air && s'.nextTx == s.nextTx && Told(w, a, f, s'.leaf)
    requires ReportsSuccess(w, a) ==> s'.seen.ended
    ensures AckRight(w, s', a)
  {
  }

  lemma LeafMovesKeepsRight(w: World, s: System, f: Frame, h: Heard, reboots: bool)
    requires Right(w, s) && LeafStepRight(w, s.leaf, f, h, reboots) && (f in s.air || f == End)
    ensures Right(w, LeafMoves(s, h, reboots))
  {
    var s' := LeafMoves(s, h, reboots);
    NotedRight(w, s.leaf, h.leaf, reboots, s.seen);
    EmittedOne(h.acks);
    forall a | a in s'.acks
      ensures AckRight(w, s', a)
    {
      if a in s.acks { OldAckStaysRight(w, s, s', a); } else { NewAckIsRight(w, s, f, s', a); }
    }
  }

  lemma LossKeepsRight(w: World, s: System, lost: set<AckFrame>)
    requires Right(w, s)
    ensures Right(w, s.(acks := s.acks - lost))
  {
    var s' := s.(acks := s.acks - lost);
    forall a | a in s'.acks
      ensures AckRight(w, s', a)
    {
      OldAckStaysRight(w, s, s', a);
    }
  }

  lemma ActionKeepsRight(w: World, s: System, a: Action)
    requires Fair(w) && Right(w, s) && Enabled(w, s, a)
    ensures Right(w, Does(w, s, a))
  {
    match a
    case BridgeActs(e, nextTx) => BridgeActsKeepsRight(w, s, e, nextTx);
    case LeafHears(f, mood) =>
      HearRight(w, s.leaf, f, mood, s.nextTx);
      LeafMovesKeepsRight(w, s, f, Hear(s.leaf, f, w.maxChunk, mood), false);
    case LeafActs(i) =>
      ImpulseRight(w, s.leaf, i);
      LeafMovesKeepsRight(w, s, End, DoImpulse(s.leaf, i), i.Reboot?);
    case AcksLost(lost) => LossKeepsRight(w, s, lost);
  }

  lemma InitialIsRight(w: World, s: System)
    requires Fair(w) && Initial(w, s)
    ensures Right(w, s)
  {
    GeometryOf(w);
    forall a | a in s.acks
      ensures AckRight(w, s, a)
    {
      assert ReportsSuccess(w, a) ==> Stale(w);
    }
  }

  lemma {:induction false} RunsAreRight(w: World, s: System, actions: seq<Action>)
    requires Fair(w) && Initial(w, s)
    ensures Right(w, After(w, s, actions))
  {
    if actions == [] {
      InitialIsRight(w, s);
    } else {
      var front, a := actions[..|actions| - 1], actions[|actions| - 1];
      RunsAreRight(w, s, front);
      if Enabled(w, After(w, s, front), a) { ActionKeepsRight(w, After(w, s, front), a); }
    }
  }

  // The results.

  /**
   When the bridge enters the end phase, and as long as it is in it, a leaf that has not dropped the
   transfer holds every increment: its flash has taken the whole file in order, or has taken some bytes
   twice, and it has done the latter exactly if it answered some increment uncleanly.
   */
  lemma EndingMeansImage(w: World, s0: System, actions: seq<Action>)
    requires Fair(w) && Initial(w, s0)
    ensures var s := After(w, s0, actions);
            s.bridge.phase == Ending && !s.forgot ==>
              && Done(s.leaf) == w.geo.totalIncrements == |s.leaf.answers|
              && |s.leaf.image| == |w.file| + s.leaf.repeated
              && (s.leaf.image == w.file <==> AllClean(w.geo, s.leaf.answers))
  {
    RunsAreRight(w, s0, actions);
    WholeFile(w.geo, w.file);
    ExactShape(w.geo, 0);
  }

  /** In every run, what the flash driver answered to the increments decides whether a received file can be booted. */
  lemma EndsWellIff(w: World, s0: System, actions: seq<Action>, verdict: byte)
    requires Fair(w) && Initial(w, s0) && After(w, s0, actions).leaf.phase == AwaitingEnd
    ensures var l := After(w, s0, actions).leaf;
            && |l.answers| == w.geo.totalIncrements
            && (DoEnd(l, verdict).leaf.phase == Finished <==>
                  verdict == COMPLETE_SUCCESS && forall k: nat :: k < w.geo.totalIncrements ==> Clean(l.answers[k], w.geo.Size(k)))
  {
    RunsAreRight(w, s0, actions);
    InstalledIff(After(w, s0, actions).leaf, verdict, w.geo, w.file);
  }

  /**
   With no report of success left over from before, the bridge reports success only after the leaf has
   found the whole file good. Then the file is what the leaf boots next if and only if no announcement
   has been accepted since, with no reboot in between, or a reboot had taken the file over before.
   */
  lemma SuccessMeansInstalled(w: World, s0: System, actions: seq<Action>)
    requires Fair(w) && Initial(w, s0) && !Stale(w)
    ensures var s := After(w, s0, actions);
            s.bridge.status == SUCCESS ==>
              && s.seen.ended && LikeImage(w.file)
              && (w.before != w.file ==> (s.leaf.boot.Next() == w.file <==> !s.seen.spoiled || s.seen.adopted))
  {
    RunsAreRight(w, s0, actions);
  }
}
