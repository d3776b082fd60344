/**
 What is lost on the way between add-on and bridge stays lost: the bridge asks again only for what it
 has not asked for, so a transfer whose request or answer has lost a batch waits for good.
 */
module LostBatches {
  import opened Seqs
  import opened Octets
  import opened Bytes
  import opened Geometry
  import opened Transfer
  import opened ChunkWindow
  import opened ChunkExchange

  /** No batch brings chunk `s`. */
  predicate Lacks(batches: seq<Batch>, s: nat) { forall b :: b in batches ==> s !in Sequences(b.chunks) }

  predicate Current(w: Window, batches: seq<Batch>) { forall b :: b in batches ==> b.requestId == w.requestId }

  /** The transfer wants chunk `s`, which the bridge has asked for; whatever is coming answers that request without it. */
  ghost predicate Missed(src: Source, file: bytes, x: Exchange, s: nat) {
    var all := Arriving(src, file, x);
    && x.bridge.phase == Blasting && s in x.bridge.requested && x.bridge.requested <= x.last
    && Lacks(all, s) && Current(x.window, all) && (all != [] ==> s in x.window.pending)
  }

  // A missed chunk stays missed.

  lemma {:induction false} InvalidStops(w: Window, b: Bridge, chunks: seq<WireChunk>)
    requires b.phase == Blasting && TakeChunks(w, b, chunks).verdict == INVALID
    ensures TakeChunks(w, b, chunks).bridge.phase == Idle
    decreases |chunks|
  {
    if chunks != [] && Fit(w, b, chunks[0]) {
      InvalidStops(Drop(w, chunks[0].sequence), DoSource(b, chunks[0].sequence, chunks[0].payload), chunks[1..]);
    }
  }

  /** A batch for the request waited for that lacks the chunk leaves it wanted and pending. */
  lemma TakenWithout(w: Window, b: Bridge, batch: Batch, s: nat)
    requires b.phase == Blasting && batch.requestId == w.requestId && s !in Sequences(batch.chunks)
    requires s in b.requested && s in w.pending
    ensures var r := Take(w, b, batch);
            && r.verdict != STALE
            && (r.bridge.phase == Blasting ==>
                  && s in r.bridge.requested && r.bridge.requested <= b.requested
                  && s in r.window.pending && r.window.requestId == w.requestId)
  {
    if w.active && batch.jobId == w.jobId && |batch.chunks| <= w.maxBatch {
      AnswerIsCurrent(w, b, batch.chunks);
      if TakeChunks(w, b, batch.chunks).verdict == TAKEN {
        TakenEffect(w, b, batch.chunks);
      } else {
        InvalidStops(w, b, batch.chunks);
      }
    }
  }

  lemma MissedArrives(src: Source, file: bytes, x: Exchange, s: nat)
    requires Missed(src, file, x, s) && x.coming != [] && Arrive(x).bridge.phase == Blasting
    ensures Missed(src, file, Arrive(x), s)
  {
    var all := Arriving(src, file, x);
    FirstArrives(src, file, x);
    assert all[0] in all;
    TakenWithout(x.window, x.bridge, x.coming[0], s);
    TakenArrives(x, Take(x.window, x.bridge, x.coming[0]));
    assert forall b :: b in all[1..] ==> b in all;
  }

  lemma {:induction false} RepliesConcat(src: Source, file: bytes, a: seq<Request>, c: seq<Request>)
    ensures Replies(src, file, a + c) == Replies(src, file, a) + Replies(src, file, c)
  {
    if a == [] {
      assert a + c == c;
    } else {
      AppendFirst(a, c);
      RepliesConcat(src, file, a[1..], c);
      Assoc(Reply(src, file, a[0]), Replies(src, file, a[1..]), Replies(src, file, c));
    }
  }

  lemma BatchTakenOut(src: Source, file: bytes, x: Exchange, i: nat) returns (before: seq<Batch>, lost: seq<Batch>, behind: seq<Batch>)
    requires i < |x.coming|
    ensures Arriving(src, file, x) == before + lost + behind && lost != []
    ensures Arriving(src, file, After(src, file, x, LosesBatch(i))) == before + behind
  {
    before, lost, behind := x.coming[..i], [x.coming[i]], x.coming[i + 1..] + Replies(src, file, x.asked);
    assert x.coming == before + lost + x.coming[i + 1..];
    Assoc(before + lost, x.coming[i + 1..], Replies(src, file, x.asked));
    Assoc(before, x.coming[i + 1..], Replies(src, file, x.asked));
  }

  lemma RequestTakenOut(src: Source, file: bytes, x: Exchange, i: nat) returns (before: seq<Batch>, lost: seq<Batch>, behind: seq<Batch>)
    requires i < |x.asked|
    ensures Arriving(src, file, x) == before + lost + behind && (AllAsk(x.asked) ==> lost != [])
    ensures Arriving(src, file, After(src, file, x, LosesRequest(i))) == before + behind
  {
    var a, r, c := x.asked[..i], x.asked[i], x.asked[i + 1..];
    before, lost, behind := x.coming + Replies(src, file, a), Reply(src, file, r), Replies(src, file, c);
    assert x.asked == a + ([r] + c) && ([r] + c)[0] == r && ([r] + c)[1..] == c;
    RepliesConcat(src, file, a, [r] + c);
    RepliesConcat(src, file, a, c);
    Assoc(x.coming, Replies(src, file, a), lost + behind);
    Assoc(before, lost, behind);
    Assoc(x.coming, Replies(src, file, a), behind);
    BatchesAre(src, r.requestId, file, r.sequences);
  }

  /** Losing something takes a stretch out of what is arriving. */
  lemma LossTakesOut(src: Source, file: bytes, x: Exchange, t: Turn) returns (before: seq<Batch>, lost: seq<Batch>, behind: seq<Batch>)
    requires (t.LosesRequest? && t.i < |x.asked|) || (t.LosesBatch? && t.i < |x.coming|)
    ensures Arriving(src, file, x) == before + lost + behind
    ensures Arriving(src, file, After(src, file, x, t)) == before + behind
    ensures AllAsk(x.asked) ==> lost != []
    ensures forall b :: b in before + behind ==> b in before + lost + behind
  {
    if t.LosesBatch? {
      before, lost, behind := BatchTakenOut(src, file, x, t.i);
    } else {
      before, lost, behind := RequestTakenOut(src, file, x, t.i);
    }
  }

  lemma MissedUnderLoss(src: Source, file: bytes, x: Exchange, t: Turn, s: nat)
    requires Missed(src, file, x, s) && ((t.LosesRequest? && t.i < |x.asked|) || (t.LosesBatch? && t.i < |x.coming|))
    ensures Missed(src, file, After(src, file, x, t), s)
  {
    var before, lost, behind := LossTakesOut(src, file, x, t);
  }

  lemma MissedStays(src: Source, file: bytes, x: Exchange, t: Turn, s: nat)
    requires Missed(src, file, x, s) && !(t.Happens? && t.e.Source?) && After(src, file, x, t).bridge.phase == Blasting
    ensures Missed(src, file, After(src, file, x, t), s)
  {
    match t
    case Answers => if x.asked != [] { AnswerMovesOn(src, file, x); }
    case Arrives => if x.coming != [] { MissedArrives(src, file, x, s); }
    case Happens(e) => BlastingKeepsRequested(x.bridge, e);
    case Looks =>
    case LosesRequest(i) => if i < |x.asked| { MissedUnderLoss(src, file, x, t, s); }
    case LosesBatch(i) => if i < |x.coming| { MissedUnderLoss(src, file, x, t, s); }
    case Drops =>
    case Closes =>
    case Returns =>
  }

  lemma {:induction false} MissedForGood(src: Source, file: bytes, x: Exchange, turns: seq<Turn>, s: nat)
    requires Missed(src, file, x, s) && Blasts(src, file, x, turns)
    ensures Missed(src, file, Run(src, file, x, turns), s)
    decreases |turns|
  {
    if turns != [] {
      MissedStays(src, file, x, turns[0], s);
      MissedForGood(src, file, After(src, file, x, turns[0]), turns[1..], s);
    }
  }

  /** Whatever the two ends and the connection do, a missed chunk never comes. */
  lemma MissedIsNeverServed(src: Source, file: bytes, x: Exchange, s: nat)
    requires Missed(src, file, x, s)
    ensures !CanBeServed(src, file, x)
  {
    forall turns | Blasts(src, file, x, turns)
      ensures Run(src, file, x, turns).bridge.requested != {}
    {
      MissedForGood(src, file, x, turns, s);
    }
  }

  // The batches of one answer.

  lemma {:induction false} BuiltSequences(src: Source, file: bytes, sequences: seq<nat>)
    ensures Sequences(BuildChunks(src, file, sequences)) == Elements(sequences)
  {
    if sequences != [] {
      BuiltSequences(src, file, sequences[1..]);
      assert BuildChunks(src, file, sequences)[1..] == BuildChunks(src, file, sequences[1..]);
    }
  }

  function FirstSize(src: Source, sequences: seq<nat>): nat {
    if BatchSize(src) < |sequences| then BatchSize(src) else |sequences|
  }

  /** An answer is its first batch and the answer to what is left. */
  lemma FirstBatch(src: Source, requestId: octets, file: bytes, sequences: seq<nat>)
    requires sequences != []
    ensures var n, all := FirstSize(src, sequences), Batches(src, requestId, file, sequences);
            && all != [] && all[1..] == Batches(src, requestId, file, sequences[n..])
            && Sequences(all[0].chunks) == Elements(sequences[..n]) != {}
  {
    var first := sequences[..FirstSize(src, sequences)];
    BuiltSequences(src, file, first);
    InElements(first, 0);
  }

  /** Each batch of an answer brings something, all of it asked for. */
  lemma {:induction false} BatchBrings(src: Source, requestId: octets, file: bytes, sequences: seq<nat>, i: nat)
    requires i < |Batches(src, requestId, file, sequences)|
    ensures {} != Sequences(Batches(src, requestId, file, sequences)[i].chunks) <= Elements(sequences)
    decreases |sequences|
  {
    var n := FirstSize(src, sequences);
    FirstBatch(src, requestId, file, sequences);
    SplitElements(sequences, n);
    if i > 0 { BatchBrings(src, requestId, file, sequences[n..], i - 1); }
  }

  lemma {:induction false} BatchesApart(src: Source, requestId: octets, file: bytes, sequences: seq<nat>, i: nat, j: nat)
    requires Different(sequences) && i < j < |Batches(src, requestId, file, sequences)|
    ensures var all := Batches(src, requestId, file, sequences); Sequences(all[i].chunks) !! Sequences(all[j].chunks)
    decreases |sequences|
  {
    var n := FirstSize(src, sequences);
    FirstBatch(src, requestId, file, sequences);
    SplitElements(sequences, n);
    if i > 0 {
      BatchesApart(src, requestId, file, sequences[n..], i - 1, j - 1);
    } else {
      BatchBrings(src, requestId, file, sequences[n..], j - 1);
    }
  }

  /** A stretch taken out of an answer leaves a chunk that nothing else brings. */
  lemma StretchIsMissed(src: Source, requestId: octets, file: bytes, sequences: seq<nat>,
                        before: seq<Batch>, lost: seq<Batch>, behind: seq<Batch>) returns (s: nat)
    requires Different(sequences) && Batches(src, requestId, file, sequences) == before + lost + behind && lost != []
    ensures s in Elements(sequences) && Lacks(before + behind, s)
  {
    var all, i := Batches(src, requestId, file, sequences), |before|;
    BatchBrings(src, requestId, file, sequences, i);
    s :| s in Sequences(all[i].chunks);
    forall b | b in before + behind
      ensures s !in Sequences(b.chunks)
    {
      var j := OtherPlace(before, lost, behind, b);
      if i < j { BatchesApart(src, requestId, file, sequences, i, j); } else { BatchesApart(src, requestId, file, sequences, j, i); }
    }
  }

  lemma OtherPlace(before: seq<Batch>, lost: seq<Batch>, behind: seq<Batch>, b: Batch) returns (j: nat)
    requires b in before + behind && lost != []
    ensures j < |before + lost + behind| && (before + lost + behind)[j] == b && j != |before|
  {
    if b in before {
      j :| 0 <= j < |before| && before[j] == b;
    } else {
      assert b in behind;
      var k :| 0 <= k < |behind| && behind[k] == b;
      j := |before| + |lost| + k;
    }
  }

  /** Losing a request, or a batch of the answer, makes a chunk missed. */
  lemma LossMisses(src: Source, file: bytes, x: Exchange, sequences: seq<nat>, t: Turn) returns (s: nat)
    requires UnderWay(src, file, x, [], sequences) && sequences != []
    requires (t.LosesRequest? && t.i < |x.asked|) || (t.LosesBatch? && t.i < |x.coming|)
    ensures Missed(src, file, After(src, file, x, t), s)
  {
    var id := x.window.requestId;
    var before, lost, behind := LossTakesOut(src, file, x, t);
    assert [] + Batches(src, id, file, sequences) == Batches(src, id, file, sequences);
    s := StretchIsMissed(src, id, file, sequences, before, lost, behind);
    BatchesAre(src, id, file, sequences);
  }

  // The result.

  /** The connection holds, but may lose what is on its way. */
  predicate Lossy(t: Turn) { Steady(t) || t.LosesRequest? || t.LosesBatch? }

  predicate AllLossy(turns: seq<Turn>) { forall i :: 0 <= i < |turns| ==> Lossy(turns[i]) }

  /** Nothing that was on its way was lost. */
  ghost predicate NothingLost(src: Source, file: bytes, x: Exchange, turns: seq<Turn>)
    decreases |turns|
  {
    turns != [] ==>
      && (turns[0].LosesRequest? ==> turns[0].i >= |x.asked|)
      && (turns[0].LosesBatch? ==> turns[0].i >= |x.coming|)
      && NothingLost(src, file, After(src, file, x, turns[0]), turns[1..])
  }

  /** All along, the transfer still wants something. */
  ghost predicate Wants(src: Source, file: bytes, x: Exchange, turns: seq<Turn>)
    decreases |turns|
  {
    turns != [] ==>
      After(src, file, x, turns[0]).bridge.requested != {} && Wants(src, file, After(src, file, x, turns[0]), turns[1..])
  }

  /** A turn without a loss leaves the rest of the answer under way. */
  lemma KeptUnderWay(src: Source, file: bytes, x: Exchange, sequences: seq<nat>, t: Turn) returns (rest: seq<nat>)
    requires UnderWay(src, file, x, [], sequences) && sequences != [] && Lossy(t) && !(t.Happens? && t.e.Source?)
    requires (t.LosesRequest? ==> t.i >= |x.asked|) && (t.LosesBatch? ==> t.i >= |x.coming|)
    requires After(src, file, x, t).bridge.phase == Blasting && After(src, file, x, t).bridge.requested != {}
    ensures UnderWay(src, file, After(src, file, x, t), [], rest) && rest != []
  {
    rest := sequences;
    if t.Arrives? {
      if x.coming != [] { rest := CurrentArrives(src, file, x, sequences); }
    } else if Steady(t) {
      OthersKeepUnderWay(src, file, x, t, [], sequences);
    } else {
      assert After(src, file, x, t) == x;
    }
  }

  /**
   A request that has been made can be served, whatever the connection does afterwards, if and only if
   nothing of it and of its answer has been lost so far.
   */
  lemma {:induction false} ServedUnlessLost(src: Source, file: bytes, x: Exchange, sequences: seq<nat>, turns: seq<Turn>)
    requires UnderWay(src, file, x, [], sequences) && sequences != []
    requires AllLossy(turns) && Blasts(src, file, x, turns) && Wants(src, file, x, turns)
    ensures CanBeServed(src, file, Run(src, file, x, turns)) <==> NothingLost(src, file, x, turns)
    decreases |turns|
  {
    if turns == [] {
      var more := CurrentIsServed(src, file, x, sequences);
      assert Blasts(src, file, x, more) && Run(src, file, x, more).bridge.requested == {};
    } else {
      var t, y := turns[0], After(src, file, x, turns[0]);
      if (t.LosesRequest? && t.i < |x.asked|) || (t.LosesBatch? && t.i < |x.coming|) {
        var s := LossMisses(src, file, x, sequences, t);
        MissedForGood(src, file, y, turns[1..], s);
        MissedIsNeverServed(src, file, Run(src, file, y, turns[1..]), s);
      } else {
        var rest := KeptUnderWay(src, file, x, sequences, t);
        ServedUnlessLost(src, file, y, rest, turns[1..]);
      }
    }
  }

  /** It happens: the bridge asks, the add-on answers, and the first batch is lost. */
  lemma OneLossStrands(src: Source, file: bytes, x: Exchange)
    requires Wanting(src, file, x.window, x.bridge) && x.heard && x.online && x.asked == [] && x.coming == []
    requires !(x.bridge.requested <= x.last)
    ensures !CanBeServed(src, file, Run(src, file, x, [Looks, Answers, LosesBatch(0)]))
  {
    var y := AsksAnew(x);
    assert After(src, file, x, Looks) == y;
    AskingIsUnderWay(src, file, x);
    var sequences := Ascending(x.bridge.requested);
    AscendingFacts(x.bridge.requested);
    OthersKeepUnderWay(src, file, y, Answers, [], sequences);
    var z := After(src, file, y, Answers);
    ResendKeepsWanting(src, file, x.window, x.bridge);
    BatchesAre(src, y.asked[0].requestId, file, y.asked[0].sequences);
    assert z.coming != [];
    var s := LossMisses(src, file, z, sequences, LosesBatch(0));
    MissedIsNeverServed(src, file, After(src, file, z, LosesBatch(0)), s);
    var turns := [Looks, Answers, LosesBatch(0)];
    assert turns[1..][1..] == [LosesBatch(0)] && turns[1..][0] == Answers;
  }
}
