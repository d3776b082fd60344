/**
 How a file is cut into chunks and increments once the leaf has accepted a transfer.

 The bridge keeps the increment counts in 16-bit fields, so the stored geometry can differ from
 the intended one. `Exact` says when it does not, and `ExactIff` gives the file sizes for which
 that is so.
 */
module Geometry {
  import opened Seqs
  import opened Bytes

  const MAX_INCREMENT_KB: nat := 8
  const MAX_FILE_SIZE: nat := 1073741824

  function CeilDiv(n: nat, d: nat): nat
    requires d > 0
  {
    n / d + (if n % d != 0 then 1 else 0)
  }

  datatype Geometry = Geometry(
    fileSize: nat,
    chunk: nat,
    bufferKb: nat,
    perIncrement: nat,
    totalChunks: nat,
    totalIncrements: nat,
    lastIncrement: nat)
  {
    predicate IsLast(inc: nat) { inc + 1 >= totalIncrements }

    function Size(inc: nat): nat { if IsLast(inc) then lastIncrement else perIncrement }

    function Start(inc: nat): nat { inc * perIncrement }

    function End(inc: nat): nat { Min(Start(inc) + Size(inc), totalChunks) }

    /** The chunk sequence numbers of one increment. */
    function Range(inc: nat): set<nat> { Interval(Start(inc), End(inc)) }

    function ExpectedLen(s: nat): nat {
      if chunk == 0 || s >= totalChunks || s * chunk >= fileSize then 0
      else Min(fileSize - s * chunk, chunk)
    }

    /** The 16-bit fields hold what the arithmetic meant. */
    predicate Exact() {
      && totalIncrements > 0
      && (totalIncrements - 1) * perIncrement < totalChunks <= totalIncrements * perIncrement
      && lastIncrement == totalChunks - (totalIncrements - 1) * perIncrement
    }
  }

  /** Chunks per increment, as stored: never none. */
  function PerIncrement(chunk: nat, kb: nat): (r: nat)
    requires chunk > 0 && kb <= MAX_INCREMENT_KB
    ensures 0 < r <= 8192
  {
    PerIncrementFacts(chunk, kb);
    var raw := U16(kb * 1024 / chunk);
    if raw == 0 then 1 else raw
  }

  /** As many chunks as fit into the leaf's buffer, and one if none does. */
  lemma IncrementFillsBuffer(chunk: nat, kb: nat)
    requires chunk > 0 && kb <= MAX_INCREMENT_KB
    ensures var per := PerIncrement(chunk, kb);
            if chunk <= kb * 1024 then per * chunk <= kb * 1024 < (per + 1) * chunk else per == 1
  {
    PerIncrementFacts(chunk, kb);
    var q := QuotientBounds(kb * 1024, chunk);
    MulDist(q, 1, chunk);
    if q == 0 { assert kb * 1024 < chunk; } else { MulMono(1, q, chunk); }
  }

  /** The number of increments, as stored: never none. */
  function StoredIncrements(chunks: nat, per: nat): nat
    requires per > 0
  {
    var t := U16(CeilDiv(chunks, per));
    if t == 0 then 1 else t
  }

  /** The chunks in the last increment, as stored: never none. */
  function StoredLast(chunks: nat, incs: nat, per: nat): nat {
    var t := U16((chunks - (incs - 1) * per) % 0x1_0000_0000);
    if t == 0 then per else t
  }

  /** The geometry the bridge stores for an accepted chunk size and leaf buffer. */
  function Negotiate(fileSize: nat, chunk: nat, remoteKb: nat): Geometry
    requires chunk > 0
  {
    var kb := Min(remoteKb, MAX_INCREMENT_KB);
    var per := PerIncrement(chunk, kb);
    var chunks := CeilDiv(fileSize, chunk);
    var incs := StoredIncrements(chunks, per);
    Geometry(fileSize, chunk, kb, per, chunks, incs, StoredLast(chunks, incs, per))
  }

  const NONE: Geometry := Geometry(0, 0, MAX_INCREMENT_KB, 0, 0, 0, 0)

  /**
   What holds of every stored geometry: the chunks just cover the file, every increment but the
   last fits before the last chunk, and either the fields are exact or the tail is out of reach.
   */
  predicate Sound(g: Geometry) {
    && g.chunk > 0 && 0 < g.perIncrement <= 8192 && 0 < g.totalChunks <= g.fileSize
    && (g.totalChunks - 1) * g.chunk < g.fileSize <= g.totalChunks * g.chunk
    && 0 < g.totalIncrements <= 65535 && 0 < g.lastIncrement <= 65535
    && (g.Exact() || (g.totalIncrements - 1) * g.perIncrement + 65535 < g.totalChunks)
  }

  lemma CeilDivBounds(n: nat, d: nat)
    requires d > 0
    ensures CeilDiv(n, d) * d - d < n <= CeilDiv(n, d) * d
  {
    assert n == (n / d) * d + n % d;
    assert (n / d + 1) * d == (n / d) * d + d;
  }

  lemma CeilDivAtMost(n: nat, d: nat, k: nat)
    requires d > 0
    ensures CeilDiv(n, d) <= k <==> n <= k * d
  {
    CeilDivBounds(n, d);
    var c := CeilDiv(n, d);
    if c <= k {
      MulMono(c, k, d);
    } else {
      MulMono(k, c - 1, d);
      assert (c - 1) * d == c * d - d;
    }
  }

  lemma ChunksFacts(fileSize: nat, chunk: nat)
    requires chunk > 0 && fileSize > 0
    ensures 0 < CeilDiv(fileSize, chunk) <= fileSize
    ensures (CeilDiv(fileSize, chunk) - 1) * chunk < fileSize <= CeilDiv(fileSize, chunk) * chunk
  {
    CeilDivBounds(fileSize, chunk);
    CeilDivAtMost(fileSize, chunk, 0);
    CeilDivAtMost(fileSize, chunk, fileSize);
    MulMono(1, chunk, fileSize);
    assert (CeilDiv(fileSize, chunk) - 1) * chunk == CeilDiv(fileSize, chunk) * chunk - chunk;
  }

  lemma PerIncrementFacts(chunk: nat, kb: nat)
    requires chunk > 0 && kb <= MAX_INCREMENT_KB
    ensures kb * 1024 / chunk <= 8192
  {
    var q := kb * 1024 / chunk;
    assert q * chunk <= kb * 1024;
    MulMono(1, chunk, q);
  }

  /** What the 16-bit stores leave of `n` chunks cut into increments of `per`. */
  lemma IncrementFacts(n: nat, per: nat, incs: nat, last: nat)
    requires n > 0 && 0 < per <= 8192
    requires incs == StoredIncrements(n, per) && last == StoredLast(n, incs, per)
    requires n <= MAX_FILE_SIZE
    ensures 0 < incs <= 65535 && 0 < last <= 65535
    ensures (incs - 1) * per < n
    ensures CeilDiv(n, per) <= 65535 ==> n <= incs * per && last == n - (incs - 1) * per
    ensures CeilDiv(n, per) > 65535 ==> n > incs * per && (incs - 1) * per + 65535 < n
  {
    var t := CeilDiv(n, per);
    CeilDivAtMost(n, per, 0);
    CeilDivBounds(n, per);
    MulDist(t - 1, 1, per);
    MulDist(incs - 1, 1, per);
    if t <= 65535 {
      assert incs == t;
    } else {
      var d := t - 1 - (incs - 1);
      assert d >= 65535;
      MulDist(incs - 1, d, per);
      MulMono(65535, d, per);
      MulMono(incs, t - 1, per);
    }
  }

  lemma NegotiatedParts(fileSize: nat, chunk: nat, remoteKb: nat)
    requires chunk > 0
    ensures var g := Negotiate(fileSize, chunk, remoteKb);
            g.fileSize == fileSize && g.chunk == chunk && 0 < g.perIncrement <= 8192
            && g.totalChunks == CeilDiv(fileSize, chunk)
  {
  }

  lemma NegotiatedFacts(fileSize: nat, chunk: nat, remoteKb: nat)
    requires chunk > 0 && 0 < fileSize <= MAX_FILE_SIZE
    ensures Sound(Negotiate(fileSize, chunk, remoteKb))
    ensures var g := Negotiate(fileSize, chunk, remoteKb);
            g.Exact() <==> CeilDiv(g.totalChunks, g.perIncrement) <= 65535
  {
    NegotiatedParts(fileSize, chunk, remoteKb);
    ChunksFacts(fileSize, chunk);
    var g := Negotiate(fileSize, chunk, remoteKb);
    IncrementFacts(g.totalChunks, g.perIncrement, g.totalIncrements, g.lastIncrement);
  }

  /** The stored geometry is the intended one exactly for files the 16-bit increment count can address. */
  lemma ExactIff(fileSize: nat, chunk: nat, remoteKb: nat)
    requires chunk > 0 && 0 < fileSize <= MAX_FILE_SIZE
    ensures var g := Negotiate(fileSize, chunk, remoteKb);
            g.Exact() <==> fileSize <= 65535 * g.perIncrement * chunk
  {
    var g := Negotiate(fileSize, chunk, remoteKb);
    NegotiatedFacts(fileSize, chunk, remoteKb);
    CeilDivAtMost(g.totalChunks, g.perIncrement, 65535);
    CeilDivAtMost(fileSize, chunk, 65535 * g.perIncrement);
  }

  /** Stored exactly or not, every increment is a non-empty run of `Size` chunks that starts where the previous ended. */
  lemma IncrementShape(g: Geometry, k: nat)
    requires Sound(g) && k < g.totalIncrements
    ensures g.Start(k) < g.End(k) == g.Start(k) + g.Size(k) <= g.totalChunks
    ensures k + 1 < g.totalIncrements ==> g.End(k) == g.Start(k + 1)
    ensures g.IsLast(k) ==> (g.End(k) == g.totalChunks <==> g.Exact())
  {
    MulMono(k, g.totalIncrements - 1, g.perIncrement);
    MulDist(k, 1, g.perIncrement);
    if k + 1 < g.totalIncrements {
      MulMono(k + 1, g.totalIncrements - 1, g.perIncrement);
    }
  }

  lemma LocateAt(g: Geometry, s: nat, q: nat)
    requires Sound(g) && g.Exact() && s < g.totalChunks
    requires q * g.perIncrement <= s < q * g.perIncrement + g.perIncrement
    ensures q < g.totalIncrements && s in g.Range(q)
    ensures forall k: nat :: k < g.totalIncrements && s in g.Range(k) ==> k == q
  {
    var per := g.perIncrement;
    if q >= g.totalIncrements { MulMono(g.totalIncrements, q, per); assert false; }
    IncrementShape(g, q);
    forall k: nat | k < g.totalIncrements && s in g.Range(k)
      ensures k == q
    {
      IncrementShape(g, k);
      MulDist(k, 1, per);
      MulDist(q, 1, per);
      if k < q { MulMono(k + 1, q, per); }
      if q < k { MulMono(q + 1, k, per); }
    }
  }

  lemma QuotientBounds(s: nat, d: nat) returns (q: nat)
    requires d > 0
    ensures q == s / d && q * d <= s < q * d + d
  {
    q := s / d;
    assert s == q * d + s % d;
  }

  /** In an exact geometry a chunk lies in one increment and in no other. */
  lemma Locate(g: Geometry, s: nat) returns (q: nat)
    requires Sound(g) && g.Exact() && s < g.totalChunks
    ensures q < g.totalIncrements && s in g.Range(q)
    ensures forall k: nat :: k < g.totalIncrements && s in g.Range(k) ==> k == q
  {
    q := QuotientBounds(s, g.perIncrement);
    LocateAt(g, s, q);
  }

  /** Some increment contains chunk `s`. */
  predicate Covered(g: Geometry, s: nat) {
    exists k: nat :: k < g.totalIncrements && s in g.Range(k)
  }

  /**
   The increments cover the file exactly when the geometry is exact; otherwise the last chunk
   belongs to no increment at all.
   */
  lemma CoversIffExact(g: Geometry)
    requires Sound(g)
    ensures g.Exact() <==> forall s: nat :: s < g.totalChunks ==> Covered(g, s)
    ensures g.Exact() <==> Covered(g, g.totalChunks - 1)
  {
    if g.Exact() {
      forall s: nat | s < g.totalChunks
        ensures Covered(g, s)
      {
        var q := Locate(g, s);
      }
    } else {
      forall k: nat | k < g.totalIncrements
        ensures g.totalChunks - 1 !in g.Range(k)
      {
        IncrementShape(g, k);
        if k + 1 < g.totalIncrements { IncrementShape(g, k + 1); }
      }
      var tail: nat := g.totalChunks - 1;
      assert !Covered(g, tail);
    }
  }

  /** The chunks' byte ranges are non-empty, at most `chunk` long, and adjacent, and the last one ends the file. */
  lemma ChunkShape(g: Geometry, s: nat)
    requires Sound(g) && s < g.totalChunks
    ensures 1 <= g.ExpectedLen(s) <= g.chunk
    ensures s * g.chunk + g.ExpectedLen(s) == Min(g.fileSize, (s + 1) * g.chunk)
    ensures s + 1 == g.totalChunks ==> s * g.chunk + g.ExpectedLen(s) == g.fileSize
  {
    MulMono(s, g.totalChunks - 1, g.chunk);
    MulDist(s, 1, g.chunk);
  }

  /** The bytes of chunk `s`. */
  function Slice(g: Geometry, file: bytes, s: nat): bytes
    requires |file| == g.fileSize
  {
    var len := g.ExpectedLen(s);
    if len == 0 then [] else file[s * g.chunk..s * g.chunk + len]
  }

  /** How many bytes of the file precede chunk `s`. */
  function Offset(g: Geometry, s: nat): nat { Min(g.fileSize, s * g.chunk) }

  function Slices(g: Geometry, file: bytes, lo: nat, hi: nat): seq<bytes>
    requires |file| == g.fileSize && lo <= hi
  {
    seq(hi - lo, i requires 0 <= i < hi - lo => Slice(g, file, lo + i))
  }

  /** Consecutive chunks put together are the file between their offsets. */
  lemma {:induction false} SlicesFlatten(g: Geometry, file: bytes, lo: nat, hi: nat)
    requires Sound(g) && |file| == g.fileSize && lo <= hi <= g.totalChunks
    ensures Offset(g, lo) <= Offset(g, hi)
    ensures Flatten(Slices(g, file, lo, hi)) == file[Offset(g, lo)..Offset(g, hi)]
    decreases hi - lo
  {
    if lo < hi {
      SlicesFlatten(g, file, lo, hi - 1);
      ChunkShape(g, hi - 1);
      MulMono(hi - 1, hi, g.chunk);
      var front := Slices(g, file, lo, hi - 1);
      assert Slices(g, file, lo, hi) == front + [Slice(g, file, hi - 1)];
      FlattenSnoc(front, Slice(g, file, hi - 1));
    }
  }
}
