/**
 The elementary moves of the bridge. Every event amounts to at most two of them, each with at
 most one frame, so what holds of every move holds of every run.
 */
module TransferMoves {
  import opened Bytes
  import opened Geometry
  import opened GapBitmap
  import opened Transfer

  predicate Stays(b: Bridge, fs: seq<Frame>, b': Bridge) { b' == b && fs == [] }

  predicate Stops(b: Bridge, fs: seq<Frame>, b': Bridge) {
    && b.Busy() && (fs == [] || fs == [Abort])
    && (b' == Cleared(FAIL, b.percent) || b' == Cleared(SUCCESS, 100))
  }

  predicate Begins(b: Bridge, fs: seq<Frame>, b': Bridge) {
    && !b.Busy() && fs == [] && 0 < b'.fileSize <= MAX_FILE_SIZE && b'.requestedChunk >= MIN_CHUNK
    && b' == Cleared(START_RECEIVED, 0).(
         phase := Announcing, fileSize := b'.fileSize, action := b'.action, requestedChunk := b'.requestedChunk)
  }

  predicate Announces(b: Bridge, fs: seq<Frame>, b': Bridge) {
    && b.phase == Announcing && b.attempts < MAX_CONTROL_RETRIES
    && b' == b.(announceTx := b'.announceTx, attempts := b.attempts + 1)
    && fs == [Announce(b'.announceTx, b.fileSize, b.action, b.requestedChunk)]
  }

  /** The leaf's answer is taken up: its chunk size and buffer fix the geometry. */
  predicate IsAccepted(b: Bridge, fs: seq<Frame>, b': Bridge, chunk: nat, kb: nat) {
    && b.phase == Announcing && fs == [] && 0 < chunk <= b.requestedChunk && 0 < kb
    && b' == RequestIncrement(b.(
         phase := Blasting, status := TRANSFERRING, percent := 0, attempts := 0,
         geo := Negotiate(b.fileSize, chunk, kb),
         increment := 0, round := 0, retries := 0, history := []))
  }

  predicate Enqueues(b: Bridge, fs: seq<Frame>, b': Bridge, c: Chunk) {
    && b.phase == Blasting && fs == [] && c.seqNo in b.requested && |c.data| == b.geo.ExpectedLen(c.seqNo)
    && b' == b.(pending := b.pending + [c], requested := b.requested - {c.seqNo})
  }

  predicate Asks(b: Bridge, fs: seq<Frame>, b': Bridge) {
    && b.phase == Blasting && fs == [] && b.requested == {} && b.sent == {} && b.pending == []
    && b' == RequestIncrement(b)
  }

  function HeadSent(b: Bridge): Bridge
    requires b.pending != []
  {
    b.(sent := b.sent + {b.pending[0].seqNo}, pending := b.pending[1..])
  }

  predicate SendsHead(b: Bridge, fs: seq<Frame>, b': Bridge) {
    && b.phase == Blasting && b.pending != []
    && b' == HeadSent(b) && fs == [Data(b.pending[0].seqNo, b.pending[0].data)]
  }

  predicate ClosesRound(b: Bridge, fs: seq<Frame>, b': Bridge, tx: nat) {
    && (if b.phase == Blasting then b.requested == {} && b.pending == [] && b.sent != {}
        else b.phase == WaitingGaps && b.retries < MAX_BLAST_COMPLETE_RETRIES)
    && b' == b.(phase := WaitingGaps, history := Remember(b.history, tx), retries := b.retries + 1)
    && fs == [BlastComplete(tx, b.increment)]
  }

  predicate Advances(b: Bridge, fs: seq<Frame>, b': Bridge) {
    && b.phase == WaitingGaps && fs == [] && !b.geo.IsLast(b.increment)
    && b' == RequestIncrement(b.(
         percent := Percent(b.geo, b.increment),
         phase := Blasting, retries := 0, history := [], round := 0, increment := Next16(b.increment), gaps := {}))
  }

  predicate Finishes(b: Bridge, fs: seq<Frame>, b': Bridge) {
    && b.phase == WaitingGaps && fs == [] && b.geo.IsLast(b.increment)
    && b' == b.(percent := Percent(b.geo, b.increment), phase := Ending, attempts := 0, status := VERIFYING)
  }

  /** A bitmap without gaps moves on too, but keeps the history and looks at no last increment. */
  predicate Skips(b: Bridge, fs: seq<Frame>, b': Bridge, bitmap: bytes) {
    && b.phase == WaitingGaps && fs == [] && b.round < MAX_RETRANSMIT_ROUNDS
    && Gaps(bitmap, b.geo.Start(b.increment), b.geo.Size(b.increment)) == {}
    && b' == RequestIncrement(b.(phase := Blasting, round := 0, retries := 0, increment := Next16(b.increment), gaps := {}))
  }

  predicate Retransmits(b: Bridge, fs: seq<Frame>, b': Bridge, bitmap: bytes) {
    && b.phase == WaitingGaps && fs == [] && b.round < MAX_RETRANSMIT_ROUNDS
    && var gaps := Gaps(bitmap, b.geo.Start(b.increment), b.geo.Size(b.increment));
    && gaps != {}
    && b' == b.(phase := Blasting, round := b.round + 1, retries := 0, history := [],
                gaps := gaps, requested := gaps, sent := {})
  }

  predicate SendsEnd(b: Bridge, fs: seq<Frame>, b': Bridge) {
    && b.phase == Ending && b.attempts < MAX_CONTROL_RETRIES
    && b' == b.(attempts := b.attempts + 1) && fs == [End]
  }

  /** Which move it is, with what it needs to know beyond the two bridges. */
  datatype Move =
    | Stay | Stop | Begin | AnnounceAgain
    | Accept(chunk: nat, kb: nat)
    | Enqueue(c: Chunk)
    | Ask | SendHead
    | CloseRound(tx: nat)
    | Advance | Finish
    | Skip(bitmap: bytes)
    | Retransmit(bitmap: bytes)
    | SendLast

  predicate Moves(m: Move, b: Bridge, fs: seq<Frame>, b': Bridge) {
    match m
    case Stay => Stays(b, fs, b')
    case Stop => Stops(b, fs, b')
    case Begin => Begins(b, fs, b')
    case AnnounceAgain => Announces(b, fs, b')
    case Accept(chunk, kb) => IsAccepted(b, fs, b', chunk, kb)
    case Enqueue(c) => Enqueues(b, fs, b', c)
    case Ask => Asks(b, fs, b')
    case SendHead => SendsHead(b, fs, b')
    case CloseRound(tx) => ClosesRound(b, fs, b', tx)
    case Advance => Advances(b, fs, b')
    case Finish => Finishes(b, fs, b')
    case Skip(bitmap) => Skips(b, fs, b', bitmap)
    case Retransmit(bitmap) => Retransmits(b, fs, b', bitmap)
    case SendLast => SendsEnd(b, fs, b')
  }

  /** Two moves in a row, the first of them one that leaves room for a second. */
  datatype Path = Path(m1: Move, f1: seq<Frame>, mid: Bridge, m2: Move, f2: seq<Frame>)

  predicate Takes(p: Path, b: Bridge, o: Outcome) {
    && (p.m1.Stay? || p.m1.Begin? || p.m1.SendHead? || p.m1.Finish?)
    && Moves(p.m1, b, p.f1, p.mid) && Moves(p.m2, p.mid, p.f2, o.bridge) && o.frames == p.f1 + p.f2
  }

  /** The leaf answers the BLAST_COMPLETE the bridge waits for. */
  predicate Answers(b: Bridge, e: Event) {
    e.Ack? && e.kind == GAPS && b.phase == WaitingGaps && e.ref in b.history && |e.trailing| >= 2
  }

  predicate Offers(e: Event, tx: nat) {
    match e
    case Ack(_, _, _, radio) => radio == Sent(tx)
    case Control(radio) => radio == Sent(tx)
    case Blast(first, second) => first == Sent(tx) || second == Sent(tx)
    case _ => false
  }

  /** What an event must have been for move `m` to come of it. */
  predicate Caused(m: Move, b: Bridge, e: Event, b': Bridge) {
    match m
    case Begin =>
      && e.Start? && CanStart(b, e.fileSize, e.maxPayload)
      && b'.fileSize == e.fileSize && b'.action == e.action && b'.requestedChunk == ClampChunk(e.maxPayload)
    case Stop => b'.status == SUCCESS ==> IsSuccess(b, e)
    case Accept(chunk, kb) =>
      && e.Ack? && e.kind == ACCEPT && |e.trailing| >= 4
      && chunk == Le16(e.trailing[0], e.trailing[1]) && kb == e.trailing[2] as nat
    case Enqueue(c) => e == Source(c.seqNo, c.data)
    case CloseRound(tx) => Offers(e, tx)
    case Advance => Answers(b, e) && Le16(e.trailing[0], e.trailing[1]) == 0
    case Finish => Answers(b, e) && Le16(e.trailing[0], e.trailing[1]) == 0
    case Skip(bitmap) => Answers(b, e) && IsBitmap(e.trailing, bitmap)
    case Retransmit(bitmap) => Answers(b, e) && IsBitmap(e.trailing, bitmap)
    case _ => true
  }

  predicate IsBitmap(trailing: bytes, bitmap: bytes)
    requires |trailing| >= 2
  {
    var len := Le16(trailing[0], trailing[1]);
    0 < len <= |trailing| - 2 && bitmap == trailing[2..2 + len]
  }

  predicate Explains(p: Path, b: Bridge, e: Event, b': Bridge) {
    Caused(p.m1, b, e, p.mid) && Caused(p.m2, p.mid, e, b')
  }

  function One(m: Move, b: Bridge, o: Outcome): Path { Path(Stay, [], b, m, o.frames) }

  lemma OneTakes(m: Move, b: Bridge, o: Outcome)
    requires Moves(m, b, o.frames, o.bridge)
    ensures Takes(One(m, b, o), b, o)
  {
  }

  lemma StartPath(b: Bridge, e: Event) returns (p: Path)
    requires e.Start?
    ensures Takes(p, b, Step(b, e)) && Explains(p, b, e, Step(b, e).bridge)
  {
    var o := DoStart(b, e.fileSize, e.action, e.maxPayload, e.radio);
    if CanStart(b, e.fileSize, e.maxPayload) {
      var m := match e.radio case Sent(_) => AnnounceAgain case NoMemory => Stay case _ => Stop;
      p := Path(Begin, [], Started(e.fileSize, e.action, e.maxPayload), m, o.frames);
    } else {
      p := One(Stay, b, o);
    }
  }

  lemma SourcePath(b: Bridge, e: Event) returns (p: Path)
    requires e.Source?
    ensures Takes(p, b, Step(b, e)) && Explains(p, b, e, Step(b, e).bridge)
  {
    var o := Quiet(DoSource(b, e.seqNo, e.data));
    p := One(if o == Quiet(b) then Stay else Enqueue(Chunk(e.seqNo, e.data)), b, o);
  }

  lemma ControlPath(b: Bridge, e: Event) returns (p: Path)
    requires e.Control?
    ensures Takes(p, b, Step(b, e)) && Explains(p, b, e, Step(b, e).bridge)
  {
    var o := DoControl(b, e.radio);
    var m :=
      if o == Quiet(b) then Stay
      else if o.bridge.phase == Idle then Stop
      else match b.phase case Announcing => AnnounceAgain case WaitingGaps => CloseRound(e.radio.tx) case _ => SendLast;
    p := One(m, b, o);
  }

  function BlastMove(b: Bridge, radio: Radio): Move {
    match radio case Sent(tx) => CloseRound(tx) case NotFound => Stop case _ => Stay
  }

  lemma BlastPath(b: Bridge, e: Event) returns (p: Path)
    requires e.Blast?
    ensures Takes(p, b, Step(b, e)) && Explains(p, b, e, Step(b, e).bridge)
  {
    var o := DoBlast(b, e.first, e.second);
    if b.phase != Blasting || (b.pending != [] && !e.first.Sent?) {
      p := One(Stay, b, o);
    } else if b.pending == [] {
      p := One(if b.requested == {} && b.sent == {} then Ask
               else if b.requested == {} then BlastMove(b, e.first) else Stay, b, o);
    } else {
      var h, f := HeadSent(b), [Data(b.pending[0].seqNo, b.pending[0].data)];
      if h.pending == [] && h.requested == {} {
        p := Path(SendHead, f, h, BlastMove(h, e.second), SendBlastComplete(h, e.second).frames);
      } else {
        p := Path(SendHead, f, h, Stay, []);
      }
    }
  }

  lemma DonePath(b: Bridge, radio: Radio, e: Event) returns (p: Path)
    requires b.phase == WaitingGaps && Answers(b, e) && Le16(e.trailing[0], e.trailing[1]) == 0
    ensures Takes(p, b, IncrementDone(b, radio)) && Explains(p, b, e, IncrementDone(b, radio).bridge)
  {
    var o := IncrementDone(b, radio);
    if b.geo.IsLast(b.increment) {
      var ending := b.(percent := Percent(b.geo, b.increment), phase := Ending, attempts := 0, status := VERIFYING);
      p := Path(Finish, [], ending, if radio.Sent? then SendLast else Stop, o.frames);
    } else {
      p := One(Advance, b, o);
    }
  }

  lemma MissingMove(b: Bridge, bitmap: bytes, e: Event) returns (m: Move)
    requires b.phase == WaitingGaps && Answers(b, e) && IsBitmap(e.trailing, bitmap)
    ensures Caused(m, b, e, MissingChunks(b, bitmap).bridge)
    ensures Moves(m, b, MissingChunks(b, bitmap).frames, MissingChunks(b, bitmap).bridge)
  {
    var gaps := Gaps(bitmap, b.geo.Start(b.increment), b.geo.Size(b.increment));
    m := if b.round >= MAX_RETRANSMIT_ROUNDS then Stop else if gaps == {} then Skip(bitmap) else Retransmit(bitmap);
  }

  lemma MissingPath(b: Bridge, bitmap: bytes, e: Event) returns (p: Path)
    requires b.phase == WaitingGaps && Answers(b, e) && IsBitmap(e.trailing, bitmap)
    ensures Takes(p, b, MissingChunks(b, bitmap)) && Explains(p, b, e, MissingChunks(b, bitmap).bridge)
  {
    var m := MissingMove(b, bitmap, e);
    p := One(m, b, MissingChunks(b, bitmap));
    OneTakes(m, b, MissingChunks(b, bitmap));
  }

  lemma GapsPath(b: Bridge, trailing: bytes, radio: Radio, e: Event) returns (p: Path)
    requires e.Ack? && e.kind == GAPS && e.trailing == trailing && e.radio == radio && b.phase == WaitingGaps && e.ref in b.history
    ensures Takes(p, b, DoGaps(b, trailing, radio)) && Explains(p, b, e, DoGaps(b, trailing, radio).bridge)
  {
    var o := DoGaps(b, trailing, radio);
    if o == Fail(b, true) {
      p := One(Stop, b, o);
    } else if Le16(trailing[0], trailing[1]) == 0 {
      p := DonePath(b, radio, e);
    } else {
      p := MissingPath(b, trailing[2..2 + Le16(trailing[0], trailing[1])], e);
    }
  }

  lemma AckPath(b: Bridge, e: Event) returns (p: Path)
    requires e.Ack?
    ensures Takes(p, b, Step(b, e)) && Explains(p, b, e, Step(b, e).bridge)
  {
    var o := DoAck(b, e.kind, e.ref, e.trailing, e.radio);
    if o == Quiet(b) {
      p := One(Stay, b, o);
    } else if e.kind == GAPS {
      p := GapsPath(b, e.trailing, e.radio, e);
    } else if e.kind == ACCEPT && o.bridge.phase != Idle {
      p := One(Accept(Le16(e.trailing[0], e.trailing[1]), e.trailing[2] as nat), b, o);
    } else {
      p := One(Stop, b, o);
    }
  }

  /** Every event is at most two moves, each of a kind the event explains. */
  lemma EventPath(b: Bridge, e: Event) returns (p: Path)
    ensures Takes(p, b, Step(b, e)) && Explains(p, b, e, Step(b, e).bridge)
  {
    match e
    case Start(_, _, _, _) => p := StartPath(b, e);
    case Source(_, _) => p := SourcePath(b, e);
    case Ack(_, _, _, _) => p := AckPath(b, e);
    case Control(_) => p := ControlPath(b, e);
    case Blast(_, _) => p := BlastPath(b, e);
    case GiveUp(_) => p := One(if b.Busy() then Stop else Stay, b, Step(b, e));
    case Stutter => p := One(Stay, b, Step(b, e));
  }
}
