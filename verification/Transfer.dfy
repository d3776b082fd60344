/**
 The bridge's side of a file transfer as a state machine on values: what each event does to the
 transfer and which frames it puts on the air. Timers do not appear here; the manager class
 decides from them which event a tick is.
 */
module Transfer {
  import opened Bytes
  import opened Geometry
  import opened GapBitmap

  const MAX_RETRANSMIT_ROUNDS: nat := 10
  const MAX_BLAST_COMPLETE_RETRIES: nat := 20
  const MAX_CONTROL_RETRIES: nat := 3
  const HISTORY_LENGTH: nat := 8
  const RADIO_SILENCE_ABORT_MS: nat := 10000
  const HEADER_OVERHEAD: nat := 29
  const MIN_CHUNK: nat := 64
  const COMPLETE_SUCCESS: byte := 0

  datatype Phase = Idle | Announcing | Blasting | WaitingGaps | Ending

  datatype Status = STATUS_IDLE | START_RECEIVED | TRANSFERRING | VERIFYING | SUCCESS | FAIL

  /** What the radio driver answers when it is handed a frame. */
  datatype Radio = Sent(tx: nat) | NoMemory | NotFound | Failed

  datatype Chunk = Chunk(seqNo: nat, data: bytes)

  datatype Frame =
    | Announce(tx: nat, fileSize: nat, action: byte, chunkSize: nat)
    | Data(seqNo: nat, data: bytes)
    | BlastComplete(tx: nat, increment: nat)
    | End
    | Abort

  datatype AckKind = ACCEPT | REJECT | GAPS | COMPLETE | ABORT | OTHER

  datatype Bridge = Bridge(
    phase: Phase,
    status: Status,
    percent: nat,
    fileSize: nat,
    action: byte,
    requestedChunk: nat,
    announceTx: nat,
    attempts: nat,
    geo: Geometry,
    increment: nat,
    round: nat,
    retries: nat,
    history: seq<nat>,
    gaps: set<nat>,
    requested: set<nat>,
    sent: set<nat>,
    pending: seq<Chunk>)
  {
    predicate Busy() { phase != Idle }
  }

  datatype Outcome = Outcome(bridge: Bridge, frames: seq<Frame>)

  datatype Event =
    | Start(fileSize: nat, action: byte, maxPayload: nat, radio: Radio)
    | Source(seqNo: nat, data: bytes)
    | Ack(kind: AckKind, ref: nat, trailing: bytes, radio: Radio)
    | Control(radio: Radio)
    | Blast(first: Radio, second: Radio)
    | GiveUp(notify: bool)
    | Stutter

  function Cleared(status: Status, percent: nat): Bridge {
    Bridge(Idle, status, percent, 0, 0, 0, 0, 0, NONE, 0, 0, 0, [], {}, {}, {}, [])
  }

  function Fail(b: Bridge, notify: bool): Outcome {
    Outcome(Cleared(FAIL, b.percent), if notify then [Abort] else [])
  }

  function Quiet(b: Bridge): Outcome { Outcome(b, []) }

  function ClampChunk(maxPayload: nat): nat {
    if maxPayload <= HEADER_OVERHEAD then 0 else maxPayload - HEADER_OVERHEAD
  }

  predicate CanStart(b: Bridge, fileSize: nat, maxPayload: nat) {
    0 < fileSize <= MAX_FILE_SIZE && !b.Busy() && ClampChunk(maxPayload) >= MIN_CHUNK
  }

  function Started(fileSize: nat, action: byte, maxPayload: nat): Bridge {
    Cleared(START_RECEIVED, 0).(
      phase := Announcing, fileSize := fileSize, action := action, requestedChunk := ClampChunk(maxPayload))
  }

  function DoStart(b: Bridge, fileSize: nat, action: byte, maxPayload: nat, radio: Radio): Outcome {
    if CanStart(b, fileSize, maxPayload) then SendAnnounce(Started(fileSize, action, maxPayload), radio) else Quiet(b)
  }

  function SendAnnounce(b: Bridge, radio: Radio): Outcome {
    if b.attempts >= MAX_CONTROL_RETRIES then Fail(b, true)
    else match radio
      case Sent(tx) =>
        Outcome(b.(announceTx := tx, attempts := b.attempts + 1),
                [Announce(tx, b.fileSize, b.action, b.requestedChunk)])
      case NoMemory => Quiet(b)
      case _ => Fail(b, false)
  }

  function Remember(history: seq<nat>, tx: nat): seq<nat> {
    var h := history + [tx];
    if |h| > HISTORY_LENGTH then h[1..] else h
  }

  function SendBlastComplete(b: Bridge, radio: Radio): Outcome {
    match radio
    case Sent(tx) =>
      Outcome(b.(phase := WaitingGaps, history := Remember(b.history, tx), retries := b.retries + 1),
              [BlastComplete(tx, b.increment)])
    case NotFound => Fail(b, false)
    case _ => Quiet(b)
  }

  function SendEnd(b: Bridge, radio: Radio): Outcome {
    if b.attempts >= MAX_CONTROL_RETRIES then Fail(b, true)
    else match radio
      case Sent(_) => Outcome(b.(phase := Ending, attempts := b.attempts + 1), [End])
      case NotFound => Fail(b, false)
      case _ => Fail(b, true)
  }

  function DoControl(b: Bridge, radio: Radio): Outcome {
    match b.phase
    case Announcing => SendAnnounce(b, radio)
    case WaitingGaps =>
      if b.retries >= MAX_BLAST_COMPLETE_RETRIES then Fail(b, true) else SendBlastComplete(b, radio)
    case Ending => SendEnd(b, radio)
    case _ => Quiet(b)
  }

  function RequestIncrement(b: Bridge): Bridge {
    b.(requested := if b.round == 0 then b.geo.Range(b.increment) else b.gaps, sent := {})
  }

  function Rerequest(b: Bridge): Bridge {
    if b.requested == {} && b.sent == {} && b.pending == [] then RequestIncrement(b) else b
  }

  function DoSource(b: Bridge, seqNo: nat, data: bytes): Bridge {
    if b.phase == Blasting && seqNo in b.requested && b.geo.ExpectedLen(seqNo) != 0 && |data| == b.geo.ExpectedLen(seqNo)
    then b.(pending := b.pending + [Chunk(seqNo, data)], requested := b.requested - {seqNo})
    else b
  }

  function DoBlast(b: Bridge, first: Radio, second: Radio): Outcome {
    if b.phase != Blasting then Quiet(b)
    else PumpQueue(Rerequest(b), first, second)
  }

  function PumpQueue(b: Bridge, first: Radio, second: Radio): Outcome {
    if b.pending == [] then
      if b.requested == {} && b.sent != {} then SendBlastComplete(b, first) else Quiet(b)
    else if !first.Sent? then Quiet(b)
    else
      var head := b.pending[0];
      var b' := b.(sent := b.sent + {head.seqNo}, pending := b.pending[1..]);
      var frame := Data(head.seqNo, head.data);
      if b'.pending == [] && b'.requested == {} then
        var last := SendBlastComplete(b', second);
        Outcome(last.bridge, [frame] + last.frames)
      else Outcome(b', [frame])
  }

  function DoAccept(b: Bridge, trailing: bytes): Outcome {
    if |trailing| < 4 then Fail(b, true)
    else
      var chunk := Le16(trailing[0], trailing[1]);
      var kb := trailing[2] as nat;
      if trailing[3] != b.action || chunk == 0 || chunk > b.requestedChunk || kb == 0 then Fail(b, true)
      else
        Quiet(RequestIncrement(b.(
          phase := Blasting, status := TRANSFERRING, percent := 0, attempts := 0,
          geo := Negotiate(b.fileSize, chunk, kb),
          increment := 0, round := 0, retries := 0, history := [])))
  }

  /** The percentage reported once increment `inc` is acknowledged. */
  function Percent(g: Geometry, inc: nat): nat {
    if g.fileSize == 0 then 0
    else Min(99, Min(100, Min(g.fileSize, (inc + 1) * g.perIncrement * g.chunk) * 100 / g.fileSize))
  }

  function DoGaps(b: Bridge, trailing: bytes, radio: Radio): Outcome {
    if |trailing| < 2 then Fail(b, true)
    else
      var len := Le16(trailing[0], trailing[1]);
      if |trailing| < 2 + len then Fail(b, true)
      else if len == 0 then IncrementDone(b, radio)
      else MissingChunks(b, trailing[2..2 + len])
  }

  function IncrementDone(b: Bridge, radio: Radio): Outcome {
    var b := b.(percent := Percent(b.geo, b.increment));
    if b.geo.IsLast(b.increment) then
      SendEnd(b.(phase := Ending, attempts := 0, status := VERIFYING), radio)
    else
      Quiet(RequestIncrement(b.(
        phase := Blasting, retries := 0, history := [], round := 0, increment := Next16(b.increment), gaps := {})))
  }

  function MissingChunks(b: Bridge, bitmap: bytes): Outcome {
    if b.round >= MAX_RETRANSMIT_ROUNDS then Fail(b, true)
    else
      var gaps := Gaps(bitmap, b.geo.Start(b.increment), b.geo.Size(b.increment));
      if gaps == {} then
        Quiet(RequestIncrement(b.(phase := Blasting, round := 0, retries := 0, increment := Next16(b.increment), gaps := {})))
      else
        Quiet(b.(phase := Blasting, round := b.round + 1, retries := 0, history := [],
                 gaps := gaps, requested := gaps, sent := {}))
  }

  function DoComplete(b: Bridge, trailing: bytes): Outcome {
    if |trailing| < 2 || trailing[0] != b.action || trailing[1] != COMPLETE_SUCCESS then Fail(b, false)
    else Quiet(Cleared(SUCCESS, 100))
  }

  predicate IsSuccess(b: Bridge, e: Event) {
    e.Ack? && e.kind == COMPLETE && |e.trailing| >= 2 && e.trailing[0] == b.action && e.trailing[1] == COMPLETE_SUCCESS
  }

  function DoAck(b: Bridge, kind: AckKind, ref: nat, trailing: bytes, radio: Radio): Outcome {
    if !b.Busy() then Quiet(b)
    else match kind
      case ACCEPT => if b.phase == Announcing && ref == b.announceTx then DoAccept(b, trailing) else Quiet(b)
      case REJECT => Fail(b, false)
      case GAPS => if b.phase == WaitingGaps && ref in b.history then DoGaps(b, trailing, radio) else Quiet(b)
      case COMPLETE => DoComplete(b, trailing)
      case ABORT => Fail(b, false)
      case OTHER => Quiet(b)
  }

  function Step(b: Bridge, e: Event): Outcome {
    match e
    case Start(fileSize, action, maxPayload, radio) => DoStart(b, fileSize, action, maxPayload, radio)
    case Source(seqNo, data) => Quiet(DoSource(b, seqNo, data))
    case Ack(kind, ref, trailing, radio) => DoAck(b, kind, ref, trailing, radio)
    case Control(radio) => DoControl(b, radio)
    case Blast(first, second) => DoBlast(b, first, second)
    case GiveUp(notify) => if b.Busy() then Fail(b, notify) else Quiet(b)
    case Stutter => Quiet(b)
  }
}
