/**
 The two ends of the chunk window as they run: the bridge's transport, which feeds the transfer
 manager, and the add-on's client, which holds requests back until its transfer has been accepted.
 */
module ChunkTransport {
  import opened Seqs
  import opened Octets
  import opened Bytes
  import opened Transfer
  import opened Crc32
  import opened ChunkWindow
  import ChunkExchange
  import OtaManager

  /** What the bridge keeps of its job. */
  datatype Job = Job(active: bool, transferring: bool, id: octets, requests: nat)

  /** The request the transport waits for an answer to, and what is still to come. */
  datatype Awaited = Awaited(requestId: octets, pending: set<nat>)

  /** What the bridge last asked for, whether it makes requests, and whether a client is there to get them. */
  datatype Client = Client(last: set<nat>, heard: bool, online: bool)

  datatype Sizes = Sizes(maxChunk: nat, maxBatch: nat)

  method DecimalOf(n: nat) returns (digits: octets)
    ensures digits == Decimal(n)
  {
    digits := [DIGIT_ZERO + n % 10];
    var rest: nat := n / 10;
    if rest == 0 { return; }
    while rest > 0
      invariant Decimal(n) == if rest == 0 then digits else Decimal(rest) + digits
    {
      DecimalMore(rest, digits);
      digits := [DIGIT_ZERO + rest % 10] + digits;
      rest := rest / 10;
    }
  }

  lemma DecimalMore(n: nat, digits: octets)
    ensures Decimal(n) + digits
            == if n < 10 then [DIGIT_ZERO + n % 10] + digits else Decimal(n / 10) + ([DIGIT_ZERO + n % 10] + digits)
  {
    if n >= 10 { Assoc(Decimal(n / 10), [DIGIT_ZERO + n % 10], digits); }
  }

  method RequestNameOf(jobId: octets, n: nat) returns (name: octets)
    ensures name == RequestName(jobId, n)
  {
    var digits := DecimalOf(n);
    name := jobId + [DASH] + digits;
  }

  method TakeLeast(s: set<nat>) returns (m: nat)
    requires s != {}
    ensures m == Least(s)
  {
    m :| m in s;
    var rest := s - {m};
    while rest != {}
      invariant rest <= s && m in s && forall x :: x in s && x !in rest ==> m <= x
      decreases |rest|
    {
      var x :| x in rest;
      rest := rest - {x};
      if x < m { m := x; }
    }
    assert IsLeast(s, m) && IsLeast(s, Least(s));
  }

  /** The elements of a set as an ordered set yields them. */
  method InOrder(s: set<nat>) returns (sequences: seq<nat>)
    ensures sequences == Ascending(s)
  {
    sequences := [];
    var rest := s;
    while rest != {}
      invariant sequences + Ascending(rest) == Ascending(s)
      decreases |rest|
    {
      var m := TakeLeast(rest);
      Assoc(sequences, [m], Ascending(rest - {m}));
      sequences, rest := sequences + [m], rest - {m};
    }
  }

  class Transport {
    const manager: OtaManager.OtaManager

    var job: Job
    var awaited: Awaited
    var sizes: Sizes
    var client: Client

    constructor (manager: OtaManager.OtaManager)
      ensures this.manager == manager && !job.active && View().pending == {}
    {
      this.manager := manager;
      job, awaited, sizes := Job(false, false, [], 0), Awaited([], {}), Sizes(0, 6);
      client := Client({}, false, false);
    }

    ghost function View(): Window
      reads this
    {
      Window(job.active, job.id, job.transferring, awaited.requestId, awaited.pending, job.requests, sizes.maxChunk, sizes.maxBatch)
    }

    /** A new request replaces whatever was still pending. */
    method OnOtaChunkRequest(requestId: octets, sequences: seq<nat>)
      modifies this`awaited
      ensures awaited == Awaited(requestId, Elements(sequences))
    {
      var pending: set<nat>, i := {}, |sequences|;
      while i > 0
        invariant 0 <= i <= |sequences| && pending == Elements(sequences[i..])
      {
        i := i - 1;
        NextSuffix(sequences, i);
        pending := {sequences[i]} + pending;
      }
      assert sequences[0..] == sequences;
      awaited := Awaited(requestId, pending);
    }

    /** The exchange as it stands, with these requests on their way. */
    ghost function Ends(asked: seq<Request>): ChunkExchange.Exchange
      reads this, manager
    {
      ChunkExchange.Exchange(View(), manager.View(), client.last, client.heard, client.online, asked, [])
    }

    /** Makes the next request, for what the transfer wants; without a client it goes nowhere. */
    method MakeRequest() returns (asked: seq<Request>)
      requires job.transferring && manager.View().requested != {}
      modifies this`job, this`awaited, this`client
      ensures Ends(asked) == ChunkExchange.AsksAnew(old(Ends([])))
    {
      var requested := InOrder(manager.tracker.requested);
      AscendingFacts(manager.View().requested);
      job := job.(requests := job.requests + 1);
      client := client.(last := manager.tracker.requested);
      asked := [];
      if client.online {
        var name := RequestNameOf(job.id, job.requests);
        OnOtaChunkRequest(name, requested);
        asked := [Request(name, requested)];
      }
    }

    /** Asks again for all that the transfer wants. */
    method ResendChunkRequest() returns (asked: seq<Request>)
      requires client.heard && client.online
      modifies this`job, this`awaited, this`client
      ensures View() == Resend(old(View()), manager.View())
      ensures asked == Asked(old(View()), manager.View())
      ensures client == old(client).(last := if job.transferring then manager.View().requested else old(client.last))
    {
      asked := [];
      if job.transferring {
        client := client.(last := {});
        if manager.tracker.requested != {} { asked := MakeRequest(); }
      }
    }

    /** A pass of the bridge's loop while the job is transferring: it asks for what its last request did not. */
    method EmitOtaEvents() returns (asked: seq<Request>)
      modifies this`job, this`awaited, this`client
      ensures Ends(asked) == ChunkExchange.Look(old(Ends([])))
    {
      asked := [];
      if !client.heard || !job.transferring || manager.state == Idle {
        return;
      }
      if manager.tracker.requested == {} {
        client := client.(last := {});
      } else if client.last == {} || !(manager.tracker.requested <= client.last) {
        asked := MakeRequest();
      }
    }

    /** The client's session has ended: its request is forgotten, and no more are made. */
    method FinishSession()
      modifies this`awaited, this`client
      ensures Ends([]) == old(Ends([])).(window := old(View()).(requestId := [], pending := {}), heard := false, online := false)
    {
      awaited, client := Awaited([], {}), client.(heard := false, online := false);
    }

    /** The bridge closes the connection itself, and goes on making requests. */
    method CloseClient()
      modifies this`client
      ensures Ends([]) == old(Ends([])).(online := false)
    {
      client := client.(online := false);
    }

    method Authenticate()
      modifies this`client
      ensures Ends([]) == old(Ends([])).(heard := true, online := true)
    {
      client := client.(heard := true, online := true);
    }

    method AbortActiveJob()
      requires manager.Fits()
      modifies this`job, manager
      ensures job == old(job).(active := false, transferring := false)
      ensures manager.View() == Step(old(manager.View()), GiveUp(true)).bridge && manager.Fits()
      ensures manager.air == old(manager.air) + Step(old(manager.View()), GiveUp(true)).frames
    {
      manager.OnSourceAbort();
      job := job.(active := false, transferring := false);
    }

    method CheckChunk(c: WireChunk) returns (ok: bool)
      ensures ok == Admissible(View(), c)
    {
      var expectedOffset := c.sequence * sizes.maxChunk;
      if c.sequence !in awaited.pending || |c.payload| == 0 || |c.payload| > sizes.maxChunk
         || c.offset != expectedOffset || c.flags > LAST_CHUNK {
        return false;
      }
      var crc := Crc32Bytes(c.payload);
      ok := crc == c.crc32;
    }

    /** Admits one chunk, hands it to the transfer, and stops waiting for it. */
    method TakeChunk(c: WireChunk) returns (ok: bool)
      requires manager.Fits()
      modifies this`awaited, manager
      ensures manager.Fits() && manager.air == old(manager.air)
      ensures ok == Fit(old(View()), old(manager.View()), c)
      ensures if ok then View() == Drop(old(View()), c.sequence) && manager.View() == DoSource(old(manager.View()), c.sequence, c.payload)
              else View() == old(View()) && manager.View() == old(manager.View())
    {
      ok := CheckChunk(c);
      if !ok || !job.transferring {
        return false;
      }
      ok := manager.OnSourceChunk(c.sequence, c.payload);
      if ok {
        var pending := awaited.pending - {c.sequence};
        awaited := Awaited(if pending == {} then [] else awaited.requestId, pending);
      }
    }

    /** Takes a batch, refuses it, gives the job up over it, or asks again. */
    method HandleOtaChunkBatch(batch: Batch) returns (verdict: Verdict, asked: seq<Request>)
      requires manager.Fits() && client.heard && client.online
      modifies this, manager
      ensures manager.Fits()
      ensures client == old(client).(last := if verdict == STALE && old(job.transferring) then old(manager.View()).requested else old(client.last))
      ensures Result(View(), manager.View(), manager.air, verdict)
              == var r := Take(old(View()), old(manager.View()), batch); r.(frames := old(manager.air) + r.frames)
      ensures asked == if verdict == STALE then Asked(old(View()), old(manager.View())) else []
      ensures Ends(asked) == ChunkExchange.Arrive(old(Ends([])).(coming := [batch]))
    {
      asked := [];
      if !job.active || batch.jobId != job.id {
        verdict := NO_JOB;
      } else if batch.requestId != awaited.requestId {
        verdict := STALE;
        asked := ResendChunkRequest();
      } else {
        verdict := TakeAnswer(batch.chunks);
        AnswerIsCurrent(old(View()), old(manager.View()), batch.chunks);
      }
    }

    method TakeAnswer(chunks: seq<WireChunk>) returns (verdict: Verdict)
      requires manager.Fits()
      modifies this`job, this`awaited, manager
      ensures manager.Fits()
      ensures Result(View(), manager.View(), manager.air, verdict)
              == var r := Answer(old(View()), old(manager.View()), chunks); r.(frames := old(manager.air) + r.frames)
    {
      if |chunks| > sizes.maxBatch {
        AbortActiveJob();
        verdict := TOO_LARGE;
      } else {
        verdict := TakeChunksOf(chunks);
      }
    }

    method TakeChunksOf(chunks: seq<WireChunk>) returns (verdict: Verdict)
      requires manager.Fits()
      modifies this`job, this`awaited, manager
      ensures manager.Fits()
      ensures var r := TakeChunks(old(View()), old(manager.View()), chunks);
              && verdict == r.verdict && View() == r.window && manager.View() == r.bridge
              && manager.air == old(manager.air) + r.frames
    {
      ghost var w, b := View(), manager.View();
      ghost var r := TakeChunks(w, b, chunks);
      var i := 0;
      assert chunks[0..] == chunks;
      while i < |chunks|
        invariant i <= |chunks| && manager.Fits() && manager.air == old(manager.air)
        invariant w == View() && b == manager.View() && r == TakeChunks(w, b, chunks[i..])
      {
        TakeNext(w, b, chunks, i);
        var ok := TakeChunk(chunks[i]);
        if !ok {
          AbortActiveJob();
          return INVALID;
        }
        w, b, i := View(), manager.View(), i + 1;
      }
      return TAKEN;
    }
  }

  /** An answer given ahead of others is in order only if those are the same. */
  lemma Overtakes(answered: seq<Request>, flushing: seq<Request>, r: Request)
    ensures answered + flushing + [] + [r] == answered + [r] + flushing + [] <==> forall q :: q in flushing ==> q == r
  {
    var a, b := answered + flushing + [r], answered + [r] + flushing;
    assert answered + flushing + [] + [r] == a && answered + [r] + flushing + [] == b;
    if a == b {
      assert a[|answered|..] == flushing + [r] && b[|answered|..] == [r] + flushing;
      AllTheSame(flushing, r);
    }
    if forall q :: q in flushing ==> q == r {
      assert forall i :: 0 <= i < |flushing| ==> flushing[i] in flushing;
      assert flushing + [r] == [r] + flushing;
      Assoc(answered, flushing, [r]);
      Assoc(answered, [r], flushing);
    }
  }

  lemma {:induction false} AllTheSame(s: seq<Request>, r: Request)
    requires s + [r] == [r] + s
    ensures forall q :: q in s ==> q == r
  {
    if s != [] {
      assert s[0] == (s + [r])[0] == r;
      assert s == [r] + s[1..];
      assert s[1..] + [r] == (s + [r])[1..] == s;
      AllTheSame(s[1..], r);
    }
  }

  /** The add-on's client. Its flush of waiting requests is interrupted by every request that arrives meanwhile. */
  class OtaClient {
    var ready: bool
    var buffered: seq<Request>
    var flushing: seq<Request>
    ghost var received: seq<Request>
    ghost var answered: seq<Request>

    /** Every request received has been answered, or waits; none is lost or answered twice. */
    ghost predicate Accounted()
      reads this
    {
      && multiset(received) == multiset(answered) + multiset(flushing) + multiset(buffered)
      && (if ready then buffered == [] else flushing == [] == answered)
    }

    /** And they have been answered in the order in which they came. */
    ghost predicate InOrder()
      reads this
    {
      received == answered + flushing + buffered
    }

    constructor ()
      ensures Accounted() && InOrder() && received == [] && !ready
    {
      ready, buffered, flushing, received, answered := false, [], [], [], [];
    }

    /** A request that comes while others are being flushed overtakes them. */
    method HandleChunkRequest(r: Request)
      requires Accounted()
      modifies this`received, this`buffered, this`answered
      ensures Accounted() && received == old(received) + [r]
      ensures answered == if ready then old(answered) + [r] else []
      ensures old(InOrder()) ==> (InOrder() <==> (ready ==> forall q :: q in flushing ==> q == r))
    {
      if !ready {
        Assoc(answered + flushing, buffered, [r]);
        received, buffered := received + [r], buffered + [r];
        return;
      }
      Overtakes(answered, flushing, r);
      received, answered := received + [r], answered + [r];
    }

    /** The transfer is accepted: what has waited is going to be answered. */
    method Start()
      requires Accounted() && flushing == []
      modifies this`ready, this`buffered, this`flushing
      ensures Accounted() && ready && flushing == old(buffered) && (InOrder() <==> old(InOrder()))
    {
      flushing, buffered, ready := flushing + buffered, [], true;
      assert answered + [] == answered;
    }

    method FlushNext()
      requires Accounted() && flushing != []
      modifies this`flushing, this`answered
      ensures Accounted() && flushing == old(flushing)[1..] && answered == old(answered) + [old(flushing)[0]]
      ensures InOrder() <==> old(InOrder())
    {
      assert flushing == [flushing[0]] + flushing[1..];
      answered, flushing := answered + [flushing[0]], flushing[1..];
    }

    /** Once the flush is over, every request has been answered exactly once. */
    lemma AllAnswered()
      requires Accounted() && ready && flushing == []
      ensures multiset(answered) == multiset(received)
    {
    }
  }
}
