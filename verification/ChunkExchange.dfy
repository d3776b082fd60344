/**
 Requests for chunks and their answers under way, over a connection that can be lost and come back.
 Requests travel to the add-on and batches travel back, each kind in order, while the transfer's queue
 drains. The bridge asks on its own when the transfer wants something that its last request did not ask
 for, and asks again when a batch answers an earlier request.
 */
module ChunkExchange {
  import opened Seqs
  import opened Octets
  import opened Bytes
  import opened Geometry
  import opened Transfer
  import opened ChunkWindow

  /**
   The two ends and what is between them. `last` is what the bridge last asked for, until it sees that
   nothing is wanted; `heard` says whether the bridge makes requests, and `online` whether there is a
   client to get them.
   */
  datatype Exchange = Exchange(
    window: Window,
    bridge: Bridge,
    last: set<nat>,
    heard: bool,
    online: bool,
    asked: seq<Request>,
    coming: seq<Batch>)

  /**
   The add-on answers a request; a batch reaches the bridge; something else happens to the transfer; the
   bridge looks whether to ask; a request or a batch is lost; the client's session ends; the bridge
   closes the connection itself; a client authenticates.
   */
  datatype Turn =
    | Answers | Arrives | Happens(e: Event) | Looks
    | LosesRequest(i: nat) | LosesBatch(i: nat)
    | Drops | Closes | Returns

  /** The bridge asks for all that the transfer wants. Without a client the request is gone, but counts as made. */
  ghost function AsksAnew(x: Exchange): Exchange {
    if x.online then
      x.(window := Resend(x.window, x.bridge), last := x.bridge.requested, asked := x.asked + Asked(x.window, x.bridge))
    else
      x.(window := x.window.(requests := x.window.requests + 1), last := x.bridge.requested)
  }

  ghost function Look(x: Exchange): Exchange {
    if !x.heard || !x.window.transferring || !x.bridge.Busy() then x
    else if x.bridge.requested == {} then x.(last := {})
    else if x.bridge.requested <= x.last then x
    else AsksAnew(x)
  }

  ghost function Arrive(x: Exchange): Exchange
    requires x.coming != []
  {
    var r := Take(x.window, x.bridge, x.coming[0]);
    var stale := r.verdict == STALE && x.window.transferring;
    x.(window := r.window, bridge := r.bridge, coming := x.coming[1..],
       last := if stale then x.bridge.requested else x.last,
       asked := if stale then x.asked + Asked(x.window, x.bridge) else x.asked)
  }

  function Without<T>(s: seq<T>, i: nat): seq<T> { if i < |s| then s[..i] + s[i + 1..] else s }

  ghost function After(src: Source, file: bytes, x: Exchange, t: Turn): Exchange {
    match t
    case Answers =>
      if x.asked == [] then x
      else x.(asked := x.asked[1..], coming := x.coming + Reply(src, file, x.asked[0]))
    case Arrives => if x.coming == [] then x else Arrive(x)
    case Happens(e) => x.(bridge := Step(x.bridge, e).bridge)
    case Looks => Look(x)
    case LosesRequest(i) => x.(asked := Without(x.asked, i))
    case LosesBatch(i) => x.(coming := Without(x.coming, i))
    case Drops =>
      x.(window := x.window.(requestId := [], pending := {}), heard := false, online := false, asked := [], coming := [])
    case Closes => x.(online := false, asked := [], coming := [])
    case Returns => x.(heard := true, online := true)
  }

  ghost function Run(src: Source, file: bytes, x: Exchange, turns: seq<Turn>): Exchange
    decreases |turns|
  {
    if turns == [] then x else Run(src, file, After(src, file, x, turns[0]), turns[1..])
  }

  /** Chunks come in batches only, and the transfer stays where it takes them. */
  ghost predicate Blasts(src: Source, file: bytes, x: Exchange, turns: seq<Turn>)
    decreases |turns|
  {
    turns != [] ==>
      && !(turns[0].Happens? && turns[0].e.Source?)
      && After(src, file, x, turns[0]).bridge.phase == Blasting
      && Blasts(src, file, After(src, file, x, turns[0]), turns[1..])
  }

  /** The connection holds, and nothing is lost on it. */
  predicate Steady(t: Turn) { t.Answers? || t.Arrives? || t.Happens? || t.Looks? }

  predicate AllSteady(turns: seq<Turn>) { forall i :: 0 <= i < |turns| ==> Steady(turns[i]) }

  /** Some run brings the transfer everything it wants. */
  ghost predicate CanBeServed(src: Source, file: bytes, x: Exchange) {
    exists turns :: Blasts(src, file, x, turns) && Run(src, file, x, turns).bridge.requested == {}
  }

  /** Some run does so on a connection that holds and loses nothing. */
  ghost predicate CanBeServedSteadily(src: Source, file: bytes, x: Exchange) {
    exists turns :: AllSteady(turns) && Blasts(src, file, x, turns) && Run(src, file, x, turns).bridge.requested == {}
  }

  function Reply(src: Source, file: bytes, r: Request): seq<Batch> { Batches(src, r.requestId, file, r.sequences) }

  function Replies(src: Source, file: bytes, asked: seq<Request>): seq<Batch> {
    if asked == [] then [] else Reply(src, file, asked[0]) + Replies(src, file, asked[1..])
  }

  /** All the batches that will reach the bridge, in order, as things are. */
  function Arriving(src: Source, file: bytes, x: Exchange): seq<Batch> { x.coming + Replies(src, file, x.asked) }

  // Names of requests.

  lemma {:induction false} DecimalDiffers(a: nat, b: nat)
    requires Decimal(a) == Decimal(b)
    ensures a == b
  {
    if a >= 10 && b >= 10 {
      var n := |Decimal(a)| - 1;
      assert Decimal(a)[..n] == Decimal(a / 10) && Decimal(b)[..n] == Decimal(b / 10);
      assert Decimal(a)[n] == DIGIT_ZERO + a % 10 && Decimal(b)[n] == DIGIT_ZERO + b % 10;
      DecimalDiffers(a / 10, b / 10);
    }
  }

  lemma RequestNameDiffers(jobId: octets, a: nat, b: nat)
    requires RequestName(jobId, a) == RequestName(jobId, b)
    ensures a == b
  {
    var n := |jobId| + 1;
    assert RequestName(jobId, a)[n..] == Decimal(a) && RequestName(jobId, b)[n..] == Decimal(b);
    DecimalDiffers(a, b);
  }

  /** The name of a request made so far. */
  ghost predicate Made(w: Window, id: octets) { exists k: nat :: k <= w.requests && id == RequestName(w.jobId, k) }

  lemma NextIsNew(w: Window, id: octets)
    requires Made(w, id)
    ensures id != RequestName(w.jobId, w.requests + 1)
  {
    var k: nat :| k <= w.requests && id == RequestName(w.jobId, k);
    if id == RequestName(w.jobId, w.requests + 1) { RequestNameDiffers(w.jobId, k, w.requests + 1); }
  }

  // What is under way.

  ghost predicate Stale(w: Window, batch: Batch) {
    batch.jobId == w.jobId && batch.requestId != w.requestId && Made(w, batch.requestId)
  }

  ghost predicate AllStale(w: Window, batches: seq<Batch>) { forall i :: 0 <= i < |batches| ==> Stale(w, batches[i]) }

  predicate AllAsk(asked: seq<Request>) { forall i :: 0 <= i < |asked| ==> asked[i].sequences != [] }

  /** The two ends agree on the job and the sizes, and the transfer still wants some of its chunks. */
  ghost predicate Wanting(src: Source, file: bytes, w: Window, b: Bridge) {
    && Sound(b.geo) && |file| == b.geo.fileSize && b.phase == Blasting && b.requested != {}
    && (forall s :: s in b.requested ==> s < b.geo.totalChunks)
    && src.maxChunk == w.maxChunk == b.geo.chunk && BatchSize(src) <= w.maxBatch
    && w.active && w.transferring && src.jobId == w.jobId
  }

  /** The sequences are what the request waited for is still to bring, and what the transfer wants. */
  ghost predicate Answered(w: Window, b: Bridge, sequences: seq<nat>) {
    sequences != [] ==>
      && w.requestId == RequestName(w.jobId, w.requests)
      && Different(sequences) && Elements(sequences) == w.pending == b.requested
  }

  /** Under way are answers to earlier requests, and behind them all that is left of the answer waited for. */
  ghost predicate UnderWay(src: Source, file: bytes, x: Exchange, stale: seq<Batch>, sequences: seq<nat>) {
    && Wanting(src, file, x.window, x.bridge)
    && x.heard && x.online && x.bridge.requested <= x.last
    && Answered(x.window, x.bridge, sequences)
    && AllStale(x.window, stale) && AllAsk(x.asked)
    && Arriving(src, file, x) == stale + Batches(src, x.window.requestId, file, sequences)
  }

  /** Only the answer waited for is coming, or one stale batch and nothing else. */
  predicate Settles(stale: seq<Batch>, sequences: seq<nat>) {
    if sequences != [] then stale == [] else |stale| == 1
  }

  /** Asking for all that is wanted, with nothing else on its way, puts just the answer under way. */
  lemma AskingIsUnderWay(src: Source, file: bytes, x: Exchange)
    requires Wanting(src, file, x.window, x.bridge) && x.heard && x.online && x.asked == [] && x.coming == []
    ensures UnderWay(src, file, AsksAnew(x), [], Ascending(x.bridge.requested))
  {
    var w, b := x.window, x.bridge;
    ResendKeepsWanting(src, file, w, b);
    var asked := Asked(w, b);
    var reply := Reply(src, file, asked[0]);
    assert [] + asked == asked;
    assert Replies(src, file, asked) == reply + Replies(src, file, asked[1..]) == reply + [];
    assert [] + (reply + []) == [] + reply;
  }

  // One turn.

  lemma AnswerMovesOn(src: Source, file: bytes, x: Exchange)
    requires x.asked != []
    ensures Arriving(src, file, After(src, file, x, Answers)) == Arriving(src, file, x)
  {
    Assoc(x.coming, Reply(src, file, x.asked[0]), Replies(src, file, x.asked[1..]));
  }

  lemma BlastingKeepsRequested(b: Bridge, e: Event)
    requires b.phase == Blasting && b.requested != {} && !e.Source? && Step(b, e).bridge.phase == Blasting
    ensures Step(b, e).bridge.requested == b.requested && Step(b, e).bridge.geo == b.geo
  {
  }

  /** Whatever else happens on a steady connection, what is under way stays so. */
  lemma OthersKeepUnderWay(src: Source, file: bytes, x: Exchange, t: Turn, stale: seq<Batch>, sequences: seq<nat>)
    requires UnderWay(src, file, x, stale, sequences) && Steady(t) && !t.Arrives? && !(t.Happens? && t.e.Source?)
    requires After(src, file, x, t).bridge.phase == Blasting
    ensures UnderWay(src, file, After(src, file, x, t), stale, sequences)
    ensures After(src, file, x, t).bridge.requested == x.bridge.requested
  {
    if t.Answers? {
      if x.asked != [] { AnswerMovesOn(src, file, x); }
    } else if t.Happens? {
      BlastingKeepsRequested(x.bridge, t.e);
    }
  }

  lemma {:induction false} BatchesAre(src: Source, requestId: octets, file: bytes, sequences: seq<nat>)
    ensures forall i :: 0 <= i < |Batches(src, requestId, file, sequences)| ==>
              var b := Batches(src, requestId, file, sequences)[i]; b.jobId == src.jobId && b.requestId == requestId
    ensures sequences == [] <==> Batches(src, requestId, file, sequences) == []
    decreases |sequences|
  {
    if sequences != [] {
      var n := if BatchSize(src) < |sequences| then BatchSize(src) else |sequences|;
      BatchesAre(src, requestId, file, sequences[n..]);
    }
  }

  /** Once the bridge asks again, nothing that was coming answers it. */
  lemma AllStaleAfter(src: Source, file: bytes, w: Window, b: Bridge, stale: seq<Batch>, sequences: seq<nat>)
    requires Wanting(src, file, w, b) && Answered(w, b, sequences) && AllStale(w, stale)
    ensures AllStale(Resend(w, b), stale + Batches(src, w.requestId, file, sequences))
  {
    var current, w' := Batches(src, w.requestId, file, sequences), Resend(w, b);
    BatchesAre(src, w.requestId, file, sequences);
    forall i | 0 <= i < |stale + current|
      ensures Stale(w', (stale + current)[i])
    {
      var batch := (stale + current)[i];
      assert Made(w, batch.requestId);
      NextIsNew(w, batch.requestId);
      var k: nat :| k <= w.requests && batch.requestId == RequestName(w.jobId, k);
      assert k <= w'.requests;
    }
  }

  lemma {:induction false} RepliesAppend(src: Source, file: bytes, asked: seq<Request>, r: Request)
    ensures Replies(src, file, asked + [r]) == Replies(src, file, asked) + Reply(src, file, r)
  {
    if asked == [] {
      assert [] + [r] == [r];
      assert Replies(src, file, [r][1..]) == [];
    } else {
      AppendFirst(asked, [r]);
      RepliesAppend(src, file, asked[1..], r);
      Assoc(Reply(src, file, asked[0]), Replies(src, file, asked[1..]), Reply(src, file, r));
    }
  }

  lemma FirstArrives(src: Source, file: bytes, x: Exchange)
    requires x.coming != []
    ensures var all := Arriving(src, file, x);
            all != [] && x.coming[0] == all[0] && x.coming[1..] + Replies(src, file, x.asked) == all[1..]
  {
  }

  /** A request made while batches are coming is answered behind them. */
  lemma AskedArrives(src: Source, file: bytes, coming: seq<Batch>, asked: seq<Request>, r: Request)
    ensures coming + Replies(src, file, asked + [r]) == coming + Replies(src, file, asked) + Reply(src, file, r)
  {
    RepliesAppend(src, file, asked, r);
    Assoc(coming, Replies(src, file, asked), Reply(src, file, r));
  }

  lemma ResendKeepsWanting(src: Source, file: bytes, w: Window, b: Bridge)
    requires Wanting(src, file, w, b)
    ensures Wanting(src, file, Resend(w, b), b) && Answered(Resend(w, b), b, Ascending(b.requested))
    ensures Asked(w, b) == [Request(Resend(w, b).requestId, Ascending(b.requested))] && Ascending(b.requested) != []
  {
    AscendingFacts(b.requested);
  }

  /** A stale batch makes everything stale that was coming, and asks for all of it once more. */
  lemma StaleArrives(src: Source, file: bytes, x: Exchange, stale: seq<Batch>, sequences: seq<nat>)
    requires UnderWay(src, file, x, stale, sequences) && stale != [] && x.coming != []
    ensures var y := After(src, file, x, Arrives);
            && UnderWay(src, file, y, stale[1..] + Batches(src, x.window.requestId, file, sequences), Ascending(x.bridge.requested))
            && y.bridge == x.bridge
  {
    var w, b := x.window, x.bridge;
    var current, w' := Batches(src, w.requestId, file, sequences), Resend(w, b);
    FirstArrives(src, file, x);
    StaleIsNotTaken(w, b, stale, current);
    ResendKeepsWanting(src, file, w, b);
    AllStaleAfter(src, file, w, b, stale, sequences);
    AllStaleTail(w', stale, current);
    AskedArrives(src, file, x.coming[1..], x.asked, Request(w'.requestId, Ascending(b.requested)));
    assert Arrive(x).asked == x.asked + [Request(w'.requestId, Ascending(b.requested))];
  }

  /** A stale batch is answered with one request for all that is wanted: the next look finds nothing more to ask for. */
  lemma StaleAskedOnce(x: Exchange)
    requires x.coming != [] && Take(x.window, x.bridge, x.coming[0]).verdict == STALE && x.window.transferring
    requires x.bridge.requested != {}
    ensures var y := Arrive(x); Look(y) == y && y.asked == x.asked + [Request(y.window.requestId, Ascending(x.bridge.requested))]
    ensures Elements(Ascending(x.bridge.requested)) == x.bridge.requested
  {
    AnswerIsCurrent(x.window, x.bridge, x.coming[0].chunks);
    AscendingFacts(x.bridge.requested);
  }

  lemma StaleIsNotTaken(w: Window, b: Bridge, stale: seq<Batch>, others: seq<Batch>)
    requires w.active && stale != [] && AllStale(w, stale)
    ensures Take(w, b, (stale + others)[0]) == Result(Resend(w, b), b, [], STALE)
  {
  }

  lemma AllStaleTail(w: Window, stale: seq<Batch>, others: seq<Batch>)
    requires stale != [] && AllStale(w, stale + others)
    ensures (stale + others)[1..] == stale[1..] + others && AllStale(w, stale[1..] + others)
  {
    forall i | 0 <= i < |stale[1..] + others|
      ensures Stale(w, (stale[1..] + others)[i])
    {
      assert (stale + others)[i + 1] == (stale[1..] + others)[i];
    }
  }

  /** Hopeless exchanges stay so, whatever comes next, and the transfer gets nothing of what it wants. */
  lemma HopelessStays(src: Source, file: bytes, x: Exchange, t: Turn, stale: seq<Batch>, sequences: seq<nat>)
      returns (stale': seq<Batch>, sequences': seq<nat>)
    requires UnderWay(src, file, x, stale, sequences) && !Settles(stale, sequences)
    requires Steady(t) && !(t.Happens? && t.e.Source?) && After(src, file, x, t).bridge.phase == Blasting
    ensures UnderWay(src, file, After(src, file, x, t), stale', sequences') && !Settles(stale', sequences')
    ensures After(src, file, x, t).bridge.requested == x.bridge.requested
  {
    stale', sequences' := stale, sequences;
    if !t.Arrives? {
      OthersKeepUnderWay(src, file, x, t, stale, sequences);
    } else if x.coming != [] {
      BatchesAre(src, x.window.requestId, file, sequences);
      assert stale == [] ==> Arriving(src, file, x) == [];
      StaleArrives(src, file, x, stale, sequences);
      AscendingFacts(x.bridge.requested);
      stale', sequences' := stale[1..] + Batches(src, x.window.requestId, file, sequences), Ascending(x.bridge.requested);
    }
  }

  lemma {:induction false} HopelessForGood(src: Source, file: bytes, x: Exchange, turns: seq<Turn>, stale: seq<Batch>, sequences: seq<nat>)
    requires UnderWay(src, file, x, stale, sequences) && !Settles(stale, sequences)
    requires AllSteady(turns) && Blasts(src, file, x, turns)
    ensures Run(src, file, x, turns).bridge.requested == x.bridge.requested
    decreases |turns|
  {
    if turns != [] {
      var stale', sequences' := HopelessStays(src, file, x, turns[0], stale, sequences);
      HopelessForGood(src, file, After(src, file, x, turns[0]), turns[1..], stale', sequences');
    }
  }

  /** The first batch of an answer is taken, and leaves the two ends agreed on the rest, if there is any. */
  lemma CurrentIsTaken(src: Source, file: bytes, w: Window, b: Bridge, sequences: seq<nat>, n: nat)
    requires Wanting(src, file, w, b) && Answered(w, b, sequences) && 0 < n <= |sequences| && n <= BatchSize(src)
    ensures var r := Take(w, b, Batch(src.jobId, w.requestId, BuildChunks(src, file, sequences[..n])));
            && r.verdict == TAKEN && r.bridge.phase == Blasting && r.bridge.requested <= b.requested
            && (if n == |sequences| then r.bridge.requested == {}
                else Wanting(src, file, r.window, r.bridge) && Answered(r.window, r.bridge, sequences[n..])
                     && r.window.requestId == w.requestId)
  {
    BatchServed(src, w, b, file, w.requestId, sequences, n);
    SplitElements(sequences, n);
    if n < |sequences| { InElements(sequences[n..], 0); }
  }

  lemma TakenArrives(x: Exchange, r: Result)
    requires x.coming != [] && r == Take(x.window, x.bridge, x.coming[0]) && r.verdict != STALE
    ensures Arrive(x) == x.(window := r.window, bridge := r.bridge, coming := x.coming[1..])
  {
  }

  lemma RestUnderWay(src: Source, file: bytes, y: Exchange, rest: seq<nat>)
    requires Wanting(src, file, y.window, y.bridge) && Answered(y.window, y.bridge, rest)
    requires y.heard && y.online && y.bridge.requested <= y.last && AllAsk(y.asked)
    requires Arriving(src, file, y) == Batches(src, y.window.requestId, file, rest)
    ensures UnderWay(src, file, y, [], rest)
  {
    assert [] + Batches(src, y.window.requestId, file, rest) == Batches(src, y.window.requestId, file, rest);
  }

  /** The next batch of the answer waited for is taken. */
  lemma CurrentArrives(src: Source, file: bytes, x: Exchange, sequences: seq<nat>) returns (rest: seq<nat>)
    requires UnderWay(src, file, x, [], sequences) && x.coming != [] && sequences != []
    ensures var y := After(src, file, x, Arrives);
            && y.bridge.phase == Blasting && |rest| < |sequences|
            && (if rest == [] then y.bridge.requested == {} else UnderWay(src, file, y, [], rest))
  {
    var w, n := x.window, if BatchSize(src) < |sequences| then BatchSize(src) else |sequences|;
    rest := sequences[n..];
    var first, others := Batch(src.jobId, w.requestId, BuildChunks(src, file, sequences[..n])), Batches(src, w.requestId, file, rest);
    FirstArrives(src, file, x);
    NothingAhead(first, others);
    assert Arriving(src, file, x) == [first] + others;
    CurrentIsTaken(src, file, w, x.bridge, sequences, n);
    TakenArrives(x, Take(w, x.bridge, first));
    if rest != [] { RestUnderWay(src, file, Arrive(x), rest); }
  }

  lemma NothingAhead(first: Batch, others: seq<Batch>)
    ensures ([first] + others)[0] == first && ([first] + others)[1..] == others && [] + others == others
  {
  }

  /** An answer with nothing stale ahead of it is taken to its end. */
  lemma {:induction false} CurrentIsServed(src: Source, file: bytes, x: Exchange, sequences: seq<nat>) returns (turns: seq<Turn>)
    requires UnderWay(src, file, x, [], sequences) && sequences != []
    ensures AllSteady(turns) && Blasts(src, file, x, turns) && Run(src, file, x, turns).bridge.requested == {}
    decreases |sequences|, |x.asked|
  {
    var t, rest := Answers, sequences;
    if x.asked != [] {
      OthersKeepUnderWay(src, file, x, t, [], sequences);
    } else {
      BatchesAre(src, x.window.requestId, file, sequences);
      assert x.coming != [];
      t := Arrives;
      rest := CurrentArrives(src, file, x, sequences);
    }
    var others := [];
    if rest != [] { others := CurrentIsServed(src, file, After(src, file, x, t), rest); }
    turns := [t] + others;
  }

  /** A stale batch on its own costs one more request. */
  lemma {:induction false} LoneStaleIsServed(src: Source, file: bytes, x: Exchange, batch: Batch) returns (turns: seq<Turn>)
    requires UnderWay(src, file, x, [batch], [])
    ensures AllSteady(turns) && Blasts(src, file, x, turns) && Run(src, file, x, turns).bridge.requested == {}
    decreases |x.asked|
  {
    if x.asked != [] {
      OthersKeepUnderWay(src, file, x, Answers, [batch], []);
      var others := LoneStaleIsServed(src, file, After(src, file, x, Answers), batch);
      turns := [Answers] + others;
    } else {
      assert Arriving(src, file, x) == [batch];
      StaleArrives(src, file, x, [batch], []);
      AscendingFacts(x.bridge.requested);
      assert [batch][1..] + Batches(src, x.window.requestId, file, []) == [];
      var others := CurrentIsServed(src, file, After(src, file, x, Arrives), Ascending(x.bridge.requested));
      turns := [Arrives] + others;
    }
  }

  /**
   Towards a client that may send what it likes: on a steady connection, what the transfer wants can
   still reach it exactly when only the answer waited for is coming, or one stale batch and nothing
   else. Otherwise every stale batch makes a request whose answer is stale before it arrives.
   */
  lemma ServedIff(src: Source, file: bytes, x: Exchange, stale: seq<Batch>, sequences: seq<nat>)
    requires UnderWay(src, file, x, stale, sequences)
    ensures CanBeServedSteadily(src, file, x) <==> Settles(stale, sequences)
  {
    if Settles(stale, sequences) {
      var turns;
      if sequences != [] {
        turns := CurrentIsServed(src, file, x, sequences);
      } else {
        assert stale == [stale[0]];
        turns := LoneStaleIsServed(src, file, x, stale[0]);
      }
      assert AllSteady(turns) && Blasts(src, file, x, turns) && Run(src, file, x, turns).bridge.requested == {};
    } else {
      forall turns | AllSteady(turns) && Blasts(src, file, x, turns)
        ensures Run(src, file, x, turns).bridge.requested != {}
      {
        HopelessForGood(src, file, x, turns, stale, sequences);
      }
    }
  }

  /** Two batches for the request before, from a client that goes on answering it, and the exchange never settles. */
  lemma TwoStaleBatches(src: Source, file: bytes, x: Exchange, a: seq<WireChunk>, c: seq<WireChunk>)
    requires Wanting(src, file, x.window, x.bridge) && x.heard && x.online && x.asked == [] && x.coming == []
    requires x.window.requestId == RequestName(x.window.jobId, x.window.requests)
    ensures var id := x.window.requestId;
            !CanBeServedSteadily(src, file, AsksAnew(x).(coming := [Batch(src.jobId, id, a), Batch(src.jobId, id, c)]))
  {
    var w, b, id := x.window, x.bridge, x.window.requestId;
    var stale := [Batch(src.jobId, id, a), Batch(src.jobId, id, c)];
    var y, sequences := AsksAnew(x).(coming := stale), Ascending(b.requested);
    AskingIsUnderWay(src, file, x);
    ResendKeepsWanting(src, file, w, b);
    NextIsNew(w, id);
    assert AllStale(y.window, stale) by {
      assert forall i :: 0 <= i < |stale| ==> stale[i].requestId == id;
      assert Made(y.window, id);
    }
    assert [] + Replies(src, file, y.asked) == Replies(src, file, y.asked);
    assert [] + Batches(src, y.window.requestId, file, sequences) == Batches(src, y.window.requestId, file, sequences);
    ServedIff(src, file, y, stale, sequences);
  }
}
