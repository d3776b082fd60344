/**
 What every move of the bridge keeps: the chunks of the current round are split without loss or
 repetition between requested, queued and sent.
 */
module TransferInvariants {
  import opened Bytes
  import opened Geometry
  import opened GapBitmap
  import opened Transfer
  import opened TransferMoves

  function Queued(pending: seq<Chunk>): set<nat> {
    if pending == [] then {} else {pending[0].seqNo} + Queued(pending[1..])
  }

  predicate Distinct(pending: seq<Chunk>) {
    pending != [] ==> pending[0].seqNo !in Queued(pending[1..]) && Distinct(pending[1..])
  }

  predicate RightLengths(g: Geometry, pending: seq<Chunk>) {
    forall i :: 0 <= i < |pending| ==> |pending[i].data| == g.ExpectedLen(pending[i].seqNo)
  }

  /** The chunks this round has to deliver. */
  function Target(b: Bridge): set<nat> {
    if b.round == 0 then b.geo.Range(b.increment) else b.gaps
  }

  /** No chunk of the round is lost, and none is in two places. */
  predicate Conserved(b: Bridge) {
    && b.requested + Queued(b.pending) + b.sent == Target(b)
    && b.requested !! Queued(b.pending) && b.requested !! b.sent && Queued(b.pending) !! b.sent
    && Distinct(b.pending)
  }

  predicate Accepted(b: Bridge) {
    && Sound(b.geo) && b.geo.fileSize == b.fileSize && b.geo.chunk <= b.requestedChunk
    && b.percent <= 99
  }

  predicate InRound(b: Bridge) {
    && b.increment <= b.geo.totalIncrements
    && b.round <= MAX_RETRANSMIT_ROUNDS
    && (b.round > 0 ==> b.gaps != {} && b.gaps <= b.geo.Range(b.increment) && b.increment < b.geo.totalIncrements)
    && (b.increment == b.geo.totalIncrements ==> b.geo.Range(b.increment) == {})
  }

  predicate RegularBlast(b: Bridge) {
    InRound(b) && Conserved(b) && RightLengths(b.geo, b.pending) && b.retries == 0
  }

  predicate RegularWait(b: Bridge) {
    && InRound(b) && b.increment < b.geo.totalIncrements
    && b.requested == {} && b.pending == [] && b.sent == Target(b)
    && 0 < b.retries <= MAX_BLAST_COMPLETE_RETRIES && b.history != []
  }

  predicate Regular(b: Bridge) {
    match b.phase
    case Idle => b == Cleared(b.status, b.percent)
    case Announcing =>
      && 0 < b.fileSize <= MAX_FILE_SIZE && b.percent == 0 && b.attempts <= MAX_CONTROL_RETRIES
      && b.requested == {} && b.sent == {} && b.pending == []
    case Blasting => Accepted(b) && RegularBlast(b)
    case WaitingGaps => Accepted(b) && RegularWait(b)
    case Ending =>
      && Accepted(b) && b.percent == Percent(b.geo, b.geo.totalIncrements - 1)
      && b.attempts <= MAX_CONTROL_RETRIES && b.requested == {} && b.pending == []
  }

  /** Unless a truncated increment count lets it run on, the bridge stays inside the planned increments. */
  predicate OnCourse(b: Bridge) {
    b.phase == Blasting && !b.geo.Exact() ==> b.increment < b.geo.totalIncrements
  }

  lemma {:induction false} QueuedAppend(pending: seq<Chunk>, c: Chunk)
    ensures Queued(pending + [c]) == Queued(pending) + {c.seqNo}
    ensures Distinct(pending) && c.seqNo !in Queued(pending) ==> Distinct(pending + [c])
  {
    if pending == [] {
      assert pending + [c] == [c];
      assert Queued([c]) == {c.seqNo} + Queued([]);
    } else {
      QueuedAppend(pending[1..], c);
      assert (pending + [c])[1..] == pending[1..] + [c];
    }
  }

  /** In an exact geometry there is nothing to send past the last increment. */
  lemma PastTheEnd(g: Geometry)
    requires Sound(g) && g.Exact()
    ensures g.Range(g.totalIncrements) == {}
  {
    assert g.Start(g.totalIncrements) == g.totalIncrements * g.perIncrement >= g.totalChunks;
  }

  lemma EnqueueConserves(b: Bridge, b': Bridge, c: Chunk)
    requires Conserved(b) && c.seqNo in b.requested && Target(b') == Target(b) && b'.sent == b.sent
    requires b'.pending == b.pending + [c] && b'.requested == b.requested - {c.seqNo}
    ensures Conserved(b')
  {
    QueuedAppend(b.pending, c);
    assert b'.requested + Queued(b'.pending) + b'.sent == Target(b');
  }

  lemma EnqueueKeepsRegular(b: Bridge, fs: seq<Frame>, b': Bridge, c: Chunk)
    requires Regular(b) && Enqueues(b, fs, b', c)
    ensures Regular(b')
  {
    EnqueueConserves(b, b', c);
  }

  lemma SendHeadKeepsRegular(b: Bridge, fs: seq<Frame>, b': Bridge)
    requires Regular(b) && SendsHead(b, fs, b')
    ensures Regular(b')
  {
    assert Queued(b.pending) == {b.pending[0].seqNo} + Queued(b'.pending);
    assert Target(b') == Target(b);
  }

  /** The re-request at the top of a tick finds nothing to change: an empty round has an empty target. */
  lemma AskChangesNothing(b: Bridge, fs: seq<Frame>, b': Bridge)
    requires Regular(b) && Asks(b, fs, b')
    ensures b' == b
  {
    assert Target(b) == {};
  }

  lemma CloseRoundKeepsRegular(b: Bridge, fs: seq<Frame>, b': Bridge, tx: nat)
    requires Regular(b) && ClosesRound(b, fs, b', tx)
    ensures Regular(b')
  {
    assert b.sent == Target(b) == Target(b');
    assert Remember(b.history, tx) != [];
  }

  lemma AcceptKeepsRegular(b: Bridge, fs: seq<Frame>, b': Bridge, chunk: nat, kb: nat)
    requires Regular(b) && IsAccepted(b, fs, b', chunk, kb)
    ensures Regular(b')
  {
    NegotiatedFacts(b.fileSize, chunk, kb);
  }

  /** Within the planned increments the 16-bit number counts on. */
  lemma NextCounts(b: Bridge)
    requires Regular(b) && b.phase == WaitingGaps
    ensures Next16(b.increment) == b.increment + 1
  {
  }

  /** The next increment starts with its whole range requested. */
  lemma NextIncrementIsRegular(b: Bridge, b': Bridge)
    requires b.phase == WaitingGaps && Sound(b.geo) && RegularWait(b) && OnCourse(b')
    requires b'.phase == Blasting && b'.geo == b.geo && b'.pending == [] && b'.sent == {} && b'.round == 0
    requires b'.retries == 0 && b'.increment == b.increment + 1 && b'.requested == b'.geo.Range(b'.increment)
    ensures RegularBlast(b')
  {
    if b.geo.Exact() { PastTheEnd(b.geo); }
  }

  lemma PercentAtMost99(g: Geometry, inc: nat)
    ensures Percent(g, inc) <= 99
  {
  }

  lemma AdvanceKeepsRegular(b: Bridge, fs: seq<Frame>, b': Bridge)
    requires Regular(b) && Advances(b, fs, b') && OnCourse(b')
    ensures Regular(b')
  {
    PercentAtMost99(b.geo, b.increment);
    NextCounts(b);
    NextIncrementIsRegular(b, b');
  }

  lemma SkipKeepsRegular(b: Bridge, fs: seq<Frame>, b': Bridge, bitmap: bytes)
    requires Regular(b) && Skips(b, fs, b', bitmap) && OnCourse(b')
    ensures Regular(b')
  {
    NextCounts(b);
    NextIncrementIsRegular(b, b');
  }

  lemma RetransmitKeepsRegular(b: Bridge, fs: seq<Frame>, b': Bridge, bitmap: bytes)
    requires Regular(b) && Retransmits(b, fs, b', bitmap)
    ensures Regular(b')
  {
    IncrementShape(b.geo, b.increment);
    assert b'.gaps <= b.geo.Range(b.increment);
  }

  lemma FinishKeepsRegular(b: Bridge, fs: seq<Frame>, b': Bridge)
    requires Regular(b) && Finishes(b, fs, b')
    ensures Regular(b')
  {
    PercentAtMost99(b.geo, b.increment);
  }

  /** The moves before and after the rounds. */
  lemma EdgeMoveKeepsRegular(m: Move, b: Bridge, fs: seq<Frame>, b': Bridge)
    requires Regular(b) && Moves(m, b, fs, b') && (m.Stay? || m.Stop? || m.Begin? || m.AnnounceAgain? || m.SendLast?)
    ensures Regular(b')
  {
  }

  lemma MoveKeepsRegular(m: Move, b: Bridge, fs: seq<Frame>, b': Bridge)
    requires Regular(b) && Moves(m, b, fs, b') && (m.Advance? || m.Skip? ==> OnCourse(b'))
    ensures Regular(b')
  {
    match m
    case Accept(chunk, kb) => AcceptKeepsRegular(b, fs, b', chunk, kb);
    case Enqueue(c) => EnqueueKeepsRegular(b, fs, b', c);
    case Ask => AskChangesNothing(b, fs, b');
    case SendHead => SendHeadKeepsRegular(b, fs, b');
    case CloseRound(tx) => CloseRoundKeepsRegular(b, fs, b', tx);
    case Advance => AdvanceKeepsRegular(b, fs, b');
    case Finish => FinishKeepsRegular(b, fs, b');
    case Skip(bitmap) => SkipKeepsRegular(b, fs, b', bitmap);
    case Retransmit(bitmap) => RetransmitKeepsRegular(b, fs, b', bitmap);
    case _ => EdgeMoveKeepsRegular(m, b, fs, b');
  }

  lemma StepKeepsRegular(b: Bridge, e: Event)
    requires Regular(b) && OnCourse(Step(b, e).bridge)
    ensures Regular(Step(b, e).bridge)
  {
    var p := EventPath(b, e);
    MoveKeepsRegular(p.m1, b, p.f1, p.mid);
    MoveKeepsRegular(p.m2, p.mid, p.f2, Step(b, e).bridge);
  }
}
