/**
 The bridge's end of the serial line. Its receive buffer is bounded. A client proves who it is by
 answering a challenge, and whenever the bridge goes back to waiting for that (a client's hello, a
 wrong answer, a minute of silence) it forgets what else it has received. What a frame means is left
 open: the theorems hold for every meaning.
 */
module SerialLine {
  import opened Seqs
  import opened Options
  import opened Octets
  import opened Cobs
  import opened Framing

  const MAX_RX_BUFFER: nat := 131072
  const CONNECTION_TIMEOUT_MS: nat := 60000
  const CLOCK: nat := 0x1_0000_0000

  datatype Auth = WaitingHello | ChallengeSent | Authenticated

  /** What an envelope is to the session; an unreadable one, or one of another version, is passed over. */
  datatype Kind = Unreadable | Hello | Response | Other

  /** What frames mean: their kind, and whether one is a right answer to a challenge, given by its number. */
  datatype Meaning = Meaning(kind: octets -> Kind, answers: (nat, octets) -> bool)

  datatype Session = Session(auth: Auth, challenges: nat, lastData: nat) {
    predicate TimesOut() { auth == Authenticated && lastData != 0 }
    predicate Expired(now: nat) { TimesOut() && (now - lastData) % CLOCK >= CONNECTION_TIMEOUT_MS }
  }

  datatype Link = Link(session: Session, rx: octets) {
    predicate Full() { |rx| == MAX_RX_BUFFER && !HasZero(rx) }
    predicate Deaf() { Full() && !session.TimesOut() }
  }

  const START := Link(Session(WaitingHello, 0, 0), [])

  /** The frame sends the bridge back to waiting, and it forgets what else it has received. */
  predicate Resets(s: Session, frame: octets, m: Meaning) {
    || m.kind(frame) == Hello
    || (s.auth != Authenticated && m.kind(frame) == Response && !m.answers(s.challenges, frame))
  }

  /** The session once the bridge has handled a frame. */
  function Next(s: Session, frame: octets, m: Meaning, now: nat): Session {
    if m.kind(frame) == Hello then Session(ChallengeSent, s.challenges + 1, 0)
    else if s.auth == Authenticated then s.(lastData := now)
    else if m.kind(frame) != Response then Session(ChallengeSent, s.challenges + 1, s.lastData)
    else if m.answers(s.challenges, frame) then s.(auth := Authenticated, lastData := now)
    else Session(WaitingHello, s.challenges, 0)
  }

  predicate Readable(frame: octets, m: Meaning) { frame != [] && m.kind(frame) != Unreadable }

  /** The frames among `frames` that the bridge gets to handle. */
  function Kept(frames: seq<octets>, m: Meaning): seq<octets> {
    if frames == [] then []
    else (if Readable(frames[0], m) then [frames[0]] else []) + Kept(frames[1..], m)
  }

  /** The frames handled, the session they leave, and whether the last of them made the bridge forget the others. */
  datatype Hearing = Hearing(heard: seq<octets>, session: Session, forgot: bool)

  /** What the protocol makes of some frames that come in at once. */
  function Listen(s: Session, frames: seq<octets>, m: Meaning, now: nat): Hearing
    decreases |frames|
  {
    if frames == [] then Hearing([], s, false)
    else if Resets(s, frames[0], m) then Hearing([frames[0]], Next(s, frames[0], m, now), true)
    else
      var h := Listen(Next(s, frames[0], m, now), frames[1..], m, now);
      h.(heard := [frames[0]] + h.heard)
  }

  /** What a segment holds: nothing, if it does not decode. */
  function Content(segment: octets): octets {
    if Frame(segment).Some? then Frame(segment).value else []
  }

  /** What the bridge makes of its buffer, byte by byte: the frames it handles, and the link they leave. */
  function Handled(link: Link, m: Meaning, now: nat): (seq<octets>, Link)
    decreases |link.rx|
  {
    if !HasZero(link.rx) then ([], link)
    else
      var frame, rest := Content(link.rx[..FirstZero(link.rx)]), link.rx[FirstZero(link.rx) + 1..];
      if !Readable(frame, m) then Handled(Link(link.session, rest), m, now)
      else if Resets(link.session, frame, m) then ([frame], Link(Next(link.session, frame, m, now), []))
      else
        var r := Handled(Link(Next(link.session, frame, m, now), rest), m, now);
        ([frame] + r.0, r.1)
  }

  lemma {:induction false} KeptAppend(a: seq<octets>, b: seq<octets>, m: Meaning)
    ensures Kept(a + b, m) == Kept(a, m) + Kept(b, m)
  {
    if a == [] {
      assert a + b == b;
    } else {
      AppendFirst(a, b);
      KeptAppend(a[1..], b, m);
      Assoc(if Readable(a[0], m) then [a[0]] else [], Kept(a[1..], m), Kept(b, m));
    }
  }

  /** Of a first segment and others, the first is kept if it holds something the bridge can read. */
  lemma KeptFirst(segment: octets, others: seq<octets>, m: Meaning)
    ensures var frame := Content(segment);
            Kept(Frames([segment] + others), m) == (if Readable(frame, m) then [frame] else []) + Kept(Frames(others), m)
  {
    var first := Frames([segment]);
    FramesAppend([segment], others);
    KeptAppend(first, Frames(others), m);
    assert Frames([segment][1..]) == [];
    assert first == if Frame(segment).Some? then [Frame(segment).value] else [];
    if Frame(segment).Some? { assert Kept(first[1..], m) == []; }
  }

  /** Byte by byte, the bridge does exactly what the protocol makes of the line's frames; only a reset loses any, and with them the tail. */
  lemma {:induction false} HandledIsListened(link: Link, m: Meaning, now: nat)
    ensures var h := Listen(link.session, Kept(Delivered(link.rx), m), m, now);
            Handled(link, m, now) == (h.heard, Link(h.session, if h.forgot then [] else Tail(link.rx)))
    decreases |link.rx|
  {
    if HasZero(link.rx) {
      var segment, rest := link.rx[..FirstZero(link.rx)], link.rx[FirstZero(link.rx) + 1..];
      var frame := Content(segment);
      KeptFirst(segment, Segments(rest), m);
      if Readable(frame, m) {
        HandledIsListened(Link(Next(link.session, frame, m, now), rest), m, now);
        assert ([frame] + Kept(Delivered(rest), m))[1..] == Kept(Delivered(rest), m);
      } else {
        HandledIsListened(Link(link.session, rest), m, now);
        assert [] + Kept(Delivered(rest), m) == Kept(Delivered(rest), m);
      }
    }
  }

  /** The frames handled are the first ones, and all of them unless one makes the bridge forget the rest. */
  lemma {:induction false} HeardAreFirst(s: Session, frames: seq<octets>, m: Meaning, now: nat)
    ensures var h := Listen(s, frames, m, now);
            h.heard <= frames && (h.heard == frames || h.forgot)
    decreases |frames|
  {
    if frames != [] && !Resets(s, frames[0], m) {
      HeardAreFirst(Next(s, frames[0], m, now), frames[1..], m, now);
    }
  }

  /** What fits into the receive buffer. */
  function Room(s: octets): octets { if |s| > MAX_RX_BUFFER then s[..MAX_RX_BUFFER] else s }

  /** What comes in before a turn of the bridge's loop, and the clock then. */
  datatype Turn = Turn(data: octets, now: nat)

  function Checked(link: Link, now: nat): Link {
    if link.session.Expired(now) then Link(Session(WaitingHello, link.session.challenges, 0), []) else link
  }

  /** One turn of the loop: take in what there is room for, handle it, look at the clock. */
  function AfterTurn(link: Link, turn: Turn, m: Meaning): (seq<octets>, Link) {
    var r := Handled(Link(link.session, Room(link.rx + turn.data)), m, turn.now);
    (r.0, Checked(r.1, turn.now))
  }

  function HandledByTurns(link: Link, turns: seq<Turn>, m: Meaning): (seq<octets>, Link)
    decreases |turns|
  {
    if turns == [] then ([], link)
    else
      var first := AfterTurn(link, turns[0], m);
      var others := HandledByTurns(first.1, turns[1..], m);
      (first.0 + others.0, others.1)
  }

  /** Everything the turns bring. */
  function Line(turns: seq<Turn>): octets {
    if turns == [] then [] else turns[0].data + Line(turns[1..])
  }

  /** No turn brings more than the buffer has room for, and nothing sends the bridge back to waiting. */
  ghost predicate Undisturbed(link: Link, turns: seq<Turn>, m: Meaning)
    decreases |turns|
  {
    turns != [] ==>
      var rx := link.rx + turns[0].data;
      var h := Listen(link.session, Kept(Delivered(rx), m), m, turns[0].now);
      && |rx| <= MAX_RX_BUFFER && !h.forgot && !h.session.Expired(turns[0].now)
      && Undisturbed(Link(h.session, Tail(rx)), turns[1..], m)
  }

  lemma KeptConcat(a: octets, b: octets, m: Meaning)
    ensures Kept(Delivered(a + b), m) == Kept(Delivered(a), m) + Kept(Delivered(Tail(a) + b), m)
    ensures Tail(a + b) == Tail(Tail(a) + b)
  {
    SegmentsAppend(a, b);
    FramesAppend(Segments(a), Segments(Tail(a) + b));
    KeptAppend(Delivered(a), Delivered(Tail(a) + b), m);
  }

  /** Without a reset the bridge handles exactly the line's readable frames, however its turns cut the stream. */
  lemma {:induction false} TurnsDoNotMatter(link: Link, turns: seq<Turn>, m: Meaning)
    requires Undisturbed(link, turns, m) && !HasZero(link.rx)
    ensures var all := link.rx + Line(turns);
            && HandledByTurns(link, turns, m).0 == Kept(Delivered(all), m)
            && HandledByTurns(link, turns, m).1.rx == Tail(all)
    decreases |turns|
  {
    if turns == [] {
      assert link.rx + [] == link.rx;
    } else {
      var first, others := link.rx + turns[0].data, Line(turns[1..]);
      var frames, now := Kept(Delivered(first), m), turns[0].now;
      Assoc(link.rx, turns[0].data, others);
      KeptConcat(first, others, m);
      HandledIsListened(Link(link.session, first), m, now);
      HeardAreFirst(link.session, frames, m, now);
      TailHasNoZero(first);
      TurnsDoNotMatter(Link(Listen(link.session, frames, m, now).session, Tail(first)), turns[1..], m);
    }
  }

  /** An authenticated client's stream: it never overruns the buffer, and is never silent for as long as the timeout. */
  predicate Timely(rx: octets, last: nat, turns: seq<Turn>, m: Meaning)
    decreases |turns|
  {
    turns != [] ==>
      var all := rx + turns[0].data;
      var spoke := Kept(Delivered(all), m) != [];
      && |all| <= MAX_RX_BUFFER
      && (spoke || last <= turns[0].now < last + CONNECTION_TIMEOUT_MS)
      && Timely(Tail(all), if spoke then turns[0].now else last, turns[1..], m)
  }

  predicate NoHello(frames: seq<octets>, m: Meaning) { forall f :: f in frames ==> m.kind(f) != Hello }

  lemma NoHelloSplit(a: seq<octets>, b: seq<octets>, m: Meaning)
    requires NoHello(a + b, m)
    ensures NoHello(a, m) && NoHello(b, m)
  {
    assert forall f :: f in a ==> f in a + b;
    assert forall f :: f in b ==> f in a + b;
  }

  lemma {:induction false} ListenAuthenticated(s: Session, frames: seq<octets>, m: Meaning, now: nat)
    requires s.auth == Authenticated && NoHello(frames, m)
    ensures Listen(s, frames, m, now)
            == Hearing(frames, if frames == [] then s else s.(lastData := now), false)
    decreases |frames|
  {
    if frames != [] { ListenAuthenticated(s.(lastData := now), frames[1..], m, now); }
  }

  lemma SplitLine(rx: octets, turns: seq<Turn>, m: Meaning)
    requires turns != [] && NoHello(Kept(Delivered(rx + Line(turns)), m), m)
    ensures var all := rx + turns[0].data;
            NoHello(Kept(Delivered(all), m), m) && NoHello(Kept(Delivered(Tail(all) + Line(turns[1..])), m), m)
  {
    var all, others := rx + turns[0].data, Line(turns[1..]);
    Assoc(rx, turns[0].data, others);
    KeptConcat(all, others, m);
    NoHelloSplit(Kept(Delivered(all), m), Kept(Delivered(Tail(all) + others), m), m);
  }

  /** Once a client is authenticated, only its hello, an overrun or its silence can lose a frame. */
  lemma {:induction false} AuthenticatedIsUndisturbed(link: Link, turns: seq<Turn>, m: Meaning)
    requires link.session.auth == Authenticated
    requires Timely(link.rx, link.session.lastData, turns, m)
    requires NoHello(Kept(Delivered(link.rx + Line(turns)), m), m)
    ensures Undisturbed(link, turns, m)
    decreases |turns|
  {
    if turns != [] {
      var all := link.rx + turns[0].data;
      var frames, now := Kept(Delivered(all), m), turns[0].now;
      SplitLine(link.rx, turns, m);
      ListenAuthenticated(link.session, frames, m, now);
      var session := if frames == [] then link.session else link.session.(lastData := now);
      NotExpired(session, now);
      AuthenticatedIsUndisturbed(Link(session, Tail(all)), turns[1..], m);
    }
  }

  lemma NotExpired(s: Session, now: nat)
    requires s.lastData <= now < s.lastData + CONNECTION_TIMEOUT_MS
    ensures !s.Expired(now)
  {
  }

  // A full buffer.

  /** A buffer that has filled up without a delimiter takes no byte and handles no frame until its session times out. */
  lemma {:induction false} FullIsStuck(link: Link, turns: seq<Turn>, m: Meaning)
    requires link.Full() && forall t :: t in turns ==> !link.session.Expired(t.now)
    ensures HandledByTurns(link, turns, m) == ([], link)
    decreases |turns|
  {
    if turns != [] {
      FullTurn(link, turns[0], m);
      FullIsStuck(link, turns[1..], m);
      assert [] + HandledByTurns(link, turns[1..], m).0 == [];
    }
  }

  lemma FullTurn(link: Link, turn: Turn, m: Meaning)
    requires link.Full()
    ensures AfterTurn(link, turn, m) == ([], Checked(link, turn.now))
  {
    assert Room(link.rx + turn.data) == link.rx;
  }

  lemma {:induction false} HandledShrinks(link: Link, m: Meaning, now: nat)
    ensures |Handled(link, m, now).1.rx| <= |link.rx|
    ensures HasZero(link.rx) ==> |Handled(link, m, now).1.rx| < |link.rx|
    decreases |link.rx|
  {
    if HasZero(link.rx) {
      var frame, rest := Content(link.rx[..FirstZero(link.rx)]), link.rx[FirstZero(link.rx) + 1..];
      HandledShrinks(Link(link.session, rest), m, now);
      HandledShrinks(Link(Next(link.session, frame, m, now), rest), m, now);
    }
  }

  /** One turn leaves the link deaf exactly when what fits holds no delimiter, fills the buffer, and nobody authenticated can time out. */
  lemma DeafenedIff(link: Link, turn: Turn, m: Meaning)
    requires |link.rx| <= MAX_RX_BUFFER
    ensures AfterTurn(link, turn, m).1.Deaf()
            <==> |link.rx + turn.data| >= MAX_RX_BUFFER && !HasZero(Room(link.rx + turn.data)) && !link.session.TimesOut()
  {
    HandledShrinks(Link(link.session, Room(link.rx + turn.data)), m, turn.now);
  }

  /** A link can go deaf in a single turn, from its start or whenever nobody is authenticated. */
  lemma DeafInOneTurn(link: Link, now: nat, m: Meaning) returns (turn: Turn)
    requires link.rx == [] && !link.session.TimesOut()
    ensures AfterTurn(link, turn, m).1.Deaf()
  {
    turn := Turn(seq(MAX_RX_BUFFER, _ => 1), now);
    assert link.rx + turn.data == turn.data;
    DeafenedIff(link, turn, m);
  }

  /** A bridge with an empty buffer handles a readable payload as soon as it has come in. */
  lemma PayloadIsHandled(link: Link, payload: octets, m: Meaning, now: nat)
    requires link.rx == [] && Readable(payload, m) && |Encoded(payload)| < MAX_RX_BUFFER
    ensures AfterTurn(link, Turn(Encoded(payload) + [0], now), m).0 == [payload]
  {
    var wire := Encoded(payload) + [0];
    assert link.rx + wire == wire;
    WireIsDelivered([payload]);
    assert Wire([payload]) == wire by { assert wire + [] == wire; }
    HandledIsListened(Link(link.session, wire), m, now);
    assert Kept([payload], m) == [payload] + Kept([payload][1..], m);
    HeardAreFirst(link.session, [payload], m, now);
  }

  /** A delimiter, or a minute of silence if the buffer is full, empties the buffer of a link that is not deaf. */
  lemma HearingStarts(link: Link, m: Meaning) returns (turn: Turn)
    requires |link.rx| <= MAX_RX_BUFFER && !HasZero(link.rx) && !link.Deaf()
    ensures AfterTurn(link, turn, m).1.rx == []
  {
    if link.Full() {
      turn := Turn([], link.session.lastData + CONNECTION_TIMEOUT_MS);
      FullTurn(link, turn, m);
    } else {
      turn := Turn([0], 0);
      var all := link.rx + [0];
      HandledIsListened(Link(link.session, all), m, 0);
      TailAfterZero(link.rx);
    }
  }

  /** Exactly a deaf link handles no frame, whatever comes in and whatever the clock shows. */
  lemma DeafIff(link: Link, payload: octets, m: Meaning)
    requires |link.rx| <= MAX_RX_BUFFER && !HasZero(link.rx)
    requires Readable(payload, m) && |Encoded(payload)| < MAX_RX_BUFFER
    ensures link.Deaf() <==> forall turns :: HandledByTurns(link, turns, m).0 == []
  {
    if link.Deaf() {
      forall turns ensures HandledByTurns(link, turns, m).0 == [] { FullIsStuck(link, turns, m); }
    } else {
      var first := HearingStarts(link, m);
      var second := Turn(Encoded(payload) + [0], 0);
      var heard := AfterTurn(link, first, m).1;
      PayloadIsHandled(heard, payload, m, 0);
      assert HandledByTurns(heard, [second], m).0 != [];
      assert [first, second][1..] == [second];
      assert HandledByTurns(link, [first, second], m).0 != [];
    }
  }

  /** Of all there is to handle, `frames` have been, and `link` is left. */
  ghost predicate Handling(all: (seq<octets>, Link), frames: seq<octets>, link: Link, m: Meaning, now: nat) {
    all == (frames + Handled(link, m, now).0, Handled(link, m, now).1)
  }

  lemma HandlingStarts(link: Link, m: Meaning, now: nat)
    ensures Handling(Handled(link, m, now), [], link, m, now)
  {
    assert [] + Handled(link, m, now).0 == Handled(link, m, now).0;
  }

  lemma HandlingEnds(all: (seq<octets>, Link), frames: seq<octets>, link: Link, m: Meaning, now: nat)
    requires Handling(all, frames, link, m, now) && !HasZero(link.rx)
    ensures all == (frames, link)
  {
    assert frames + Handled(link, m, now).0 == frames;
  }

  lemma HandlingPassesOver(all: (seq<octets>, Link), frames: seq<octets>, link: Link, rest: octets, m: Meaning, now: nat)
    requires Handling(all, frames, link, m, now) && HasZero(link.rx)
    requires rest == link.rx[FirstZero(link.rx) + 1..] && !Readable(Content(link.rx[..FirstZero(link.rx)]), m)
    ensures Handling(all, frames, Link(link.session, rest), m, now)
  {
  }

  /** Handling a readable frame: what is left then is `left`. */
  lemma HandlingGoesOn(all: (seq<octets>, Link), frames: seq<octets>, link: Link, frame: octets, left: Link, m: Meaning, now: nat)
    requires Handling(all, frames, link, m, now)
    requires HasZero(link.rx) && frame == Content(link.rx[..FirstZero(link.rx)]) && Readable(frame, m)
    requires left == Link(Next(link.session, frame, m, now),
                          if Resets(link.session, frame, m) then [] else link.rx[FirstZero(link.rx) + 1..])
    ensures Handling(all, frames + [frame], left, m, now)
  {
    HandledFirst(link, frame, left, m, now);
    Assoc(frames, [frame], Handled(left, m, now).0);
  }

  lemma HandledFirst(link: Link, frame: octets, left: Link, m: Meaning, now: nat)
    requires HasZero(link.rx) && frame == Content(link.rx[..FirstZero(link.rx)]) && Readable(frame, m)
    requires left == Link(Next(link.session, frame, m, now),
                          if Resets(link.session, frame, m) then [] else link.rx[FirstZero(link.rx) + 1..])
    ensures Handled(link, m, now) == ([frame] + Handled(left, m, now).0, Handled(left, m, now).1)
  {
    if left.rx == [] { assert [frame] + [] == [frame]; }
  }

  method DecodeContent(segment: octets) returns (frame: octets)
    ensures frame == Content(segment)
  {
    var r := DecodeFrame(segment);
    frame := if r.Some? then r.value else [];
  }

  class SerialLink {
    const m: Meaning
    var rxBuffer: octets
    var rxDropped: nat
    var authState: Auth
    var challenges: nat
    var lastDataMs: nat

    constructor (m: Meaning)
      ensures this.m == m && State() == START && rxDropped == 0
    {
      this.m := m;
      rxBuffer, rxDropped := [], 0;
      authState, challenges, lastDataMs := WaitingHello, 0, 0;
    }

    function State(): Link
      reads this
    {
      Link(Session(authState, challenges, lastDataMs), rxBuffer)
    }

    /** Reads the bytes that are there, one by one, and drops those there is no room for. */
    method Fill(available: octets)
      requires |rxBuffer| <= MAX_RX_BUFFER
      modifies this`rxBuffer, this`rxDropped
      ensures rxBuffer == Room(old(rxBuffer) + available)
      ensures |rxBuffer| + rxDropped == old(|rxBuffer| + rxDropped) + |available|
    {
      var i := 0;
      while i < |available|
        invariant i <= |available|
        invariant rxBuffer == Room(old(rxBuffer) + available[..i])
        invariant |rxBuffer| + rxDropped == old(|rxBuffer| + rxDropped) + i
      {
        if |rxBuffer| < MAX_RX_BUFFER {
          rxBuffer := rxBuffer + [available[i]];
        } else {
          rxDropped := rxDropped + 1;
        }
        i := i + 1;
        assert old(rxBuffer) + available[..i] == old(rxBuffer) + available[..i - 1] + [available[i - 1]];
      }
      assert available[..i] == available;
    }

    method ResetAuth()
      modifies this`authState, this`lastDataMs, this`rxBuffer
      ensures State() == Link(Session(WaitingHello, challenges, 0), [])
    {
      authState, lastDataMs := WaitingHello, 0;
      rxBuffer := [];
    }

    method SendAuthChallenge()
      modifies this`authState, this`challenges
      ensures authState == ChallengeSent && challenges == old(challenges) + 1
    {
      authState, challenges := ChallengeSent, challenges + 1;
    }

    /** Moves the session on as the frame says, and empties the buffer if that is a reset. */
    method HandleEnvelope(frame: octets, now: nat)
      requires Readable(frame, m)
      modifies this`authState, this`challenges, this`lastDataMs, this`rxBuffer
      ensures State() == old(Link(Next(State().session, frame, m, now),
                                  if Resets(State().session, frame, m) then [] else rxBuffer))
    {
      if m.kind(frame) == Hello {
        ResetAuth();
        SendAuthChallenge();
      } else if authState != Authenticated {
        if m.kind(frame) != Response {
          SendAuthChallenge();
        } else if m.answers(challenges, frame) {
          authState, lastDataMs := Authenticated, now;
        } else {
          ResetAuth();
        }
      } else {
        lastDataMs := now;
      }
    }

    /** Handles the frames in the buffer, up to one that empties it. */
    method ProcessRxBuffer(now: nat) returns (frames: seq<octets>)
      modifies this`authState, this`challenges, this`lastDataMs, this`rxBuffer
      ensures (frames, State()) == old(Handled(State(), m, now))
    {
      frames := [];
      ghost var all := Handled(State(), m, now);
      HandlingStarts(State(), m, now);
      while true
        invariant Handling(all, frames, State(), m, now)
        decreases |rxBuffer|
      {
        var z := FindZero(rxBuffer);
        if z < 0 {
          HandlingEnds(all, frames, State(), m, now);
          return;
        }
        ghost var before := State();
        var segment := rxBuffer[..z];
        rxBuffer := rxBuffer[z + 1..];
        var frame := [];
        if segment != [] {
          frame := DecodeContent(segment);
        }
        if frame == [] || m.kind(frame) == Unreadable {
          HandlingPassesOver(all, frames, before, rxBuffer, m, now);
          continue;
        }
        HandleEnvelope(frame, now);
        HandlingGoesOn(all, frames, before, frame, State(), m, now);
        frames := frames + [frame];
      }
    }

    /** An authenticated client that has been silent for a minute is given up, with what it had sent. */
    method CheckConnectionTimeout(now: nat)
      modifies this`authState, this`lastDataMs, this`rxBuffer
      ensures State() == Checked(old(State()), now)
    {
      if authState == Authenticated && lastDataMs != 0 && (now - lastDataMs) % CLOCK >= CONNECTION_TIMEOUT_MS {
        ResetAuth();
      }
    }

    /** One turn of the bridge's loop. */
    method Loop(turn: Turn) returns (frames: seq<octets>)
      requires |rxBuffer| <= MAX_RX_BUFFER
      modifies this
      ensures (frames, State()) == AfterTurn(old(State()), turn, m)
      ensures |rxBuffer| <= MAX_RX_BUFFER
    {
      Fill(turn.data);
      HandledShrinks(State(), m, turn.now);
      frames := ProcessRxBuffer(turn.now);
      CheckConnectionTimeout(turn.now);
    }
  }
}
