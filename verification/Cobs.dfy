/**
 Consistent overhead byte stuffing: the codec that keeps zero bytes out of a serial frame. The
 encoder patches each block's length into the output once the block is closed.
 */
module Cobs {
  import opened Seqs
  import opened Options
  import opened Octets

  /** The encoding of `x` behind an open block of bytes. */
  function Blocks(x: octets, block: octets): octets
    requires |block| < 254
  {
    if x == [] then [|block| + 1] + block
    else if x[0] == 0 then [|block| + 1] + block + Blocks(x[1..], [])
    else if |block| == 253 then [255] + block + [x[0]] + Blocks(x[1..], [])
    else Blocks(x[1..], block + [x[0]])
  }

  function Encoded(x: octets): octets { Blocks(x, []) }

  function Prepend(p: octets, r: Option<octets>): Option<octets> {
    if r.Some? then Some(p + r.value) else None
  }

  /** What a frame decodes to, block by block. */
  function Decoded(e: octets): Option<octets> {
    if e == [] || e[0] == 0 || |e| < e[0] then None
    else if |e| == e[0] then Some(e[1..])
    else Prepend(e[1..e[0]] + (if e[0] < 255 then [0] else []), Decoded(e[e[0]..]))
  }

  lemma {:induction false} BlocksRoundTrip(x: octets, block: octets)
    requires |block| < 254
    ensures Decoded(Blocks(x, block)) == Some(block + x)
    decreases |x|, 0
  {
    if x == [] {
      assert Blocks(x, block)[1..] == block + x;
    } else if x[0] == 0 {
      BlockThenRest(block, [0], x[1..]);
      assert block + [0] + x[1..] == block + x;
    } else if |block| == 253 {
      assert Blocks(x, block) == [255] + (block + [x[0]]) + Blocks(x[1..], []);
      BlockThenRest(block + [x[0]], [], x[1..]);
      assert [255] + (block + [x[0]]) == [255] + block + [x[0]];
      assert block + [x[0]] + [] == block + [x[0]];
      assert block + [x[0]] + x[1..] == block + x;
    } else {
      BlocksRoundTrip(x[1..], block + [x[0]]);
      assert block + [x[0]] + x[1..] == block + x;
    }
  }

  /** A closed block, full or followed by a zero, decodes to its bytes and then the rest. */
  lemma {:induction false} BlockThenRest(block: octets, zero: octets, rest: octets)
    requires if |block| < 254 then zero == [0] else |block| == 254 && zero == []
    ensures Decoded([|block| + 1] + block + Blocks(rest, [])) == Some(block + zero + rest)
    decreases |rest|, 1
  {
    var e := [|block| + 1] + block + Blocks(rest, []);
    BlocksShape(rest, []);
    assert e[1..e[0]] == block && e[e[0]..] == Blocks(rest, []);
    BlocksRoundTrip(rest, []);
    assert [] + rest == rest;
  }

  /** Decoding gives back every byte string. */
  lemma RoundTrip(x: octets)
    ensures Decoded(Encoded(x)) == Some(x)
  {
    BlocksRoundTrip(x, []);
    assert [] + x == x;
  }

  lemma {:induction false} BlocksShape(x: octets, block: octets)
    requires |block| < 254
    ensures |x| + |block| < |Blocks(x, block)| <= |x| + |block| + (|x| + |block|) / 254 + 1
    ensures NoZero(block) ==> NoZero(Blocks(x, block))
  {
    if x != [] {
      BlocksShape(x[1..], if x[0] == 0 || |block| == 253 then [] else block + [x[0]]);
    }
  }

  /** An encoding is free of zeros and longer than its input by at most one byte in 254 and one more. */
  lemma Shape(x: octets)
    ensures NoZero(Encoded(x))
    ensures |x| < |Encoded(x)| <= |x| + |x| / 254 + 1
  {
    BlocksShape(x, []);
  }

  /** Decoding any frame, encoded or not, gives fewer bytes than it takes. */
  lemma {:induction false} DecodedShorter(e: octets)
    ensures Decoded(e).Some? ==> |Decoded(e).value| < |e|
  {
    if e != [] && 0 < e[0] < |e| { DecodedShorter(e[e[0]..]); }
  }

  /** The encoding is the closed blocks, the open block's bytes and what they and the rest of the input make. */
  ghost predicate Pending(input: octets, i: nat, closed: octets, block: octets)
    requires i <= |input|
  {
    |block| < 254 && closed + Blocks(input[i..], block) == Encoded(input)
  }

  lemma OneByte(input: octets, i: nat, closed: octets, block: octets)
    requires i < |input| && Pending(input, i, closed, block)
    ensures if input[i] == 0 then Pending(input, i + 1, closed + ([|block| + 1] + block), [])
            else if |block| == 253 then Pending(input, i + 1, closed + ([255] + (block + [input[i]])), [])
            else Pending(input, i + 1, closed, block + [input[i]])
  {
    var x, rest := input[i..], Blocks(input[i + 1..], []);
    assert x[1..] == input[i + 1..];
    if input[i] == 0 {
      assert closed + ([|block| + 1] + block + rest) == closed + ([|block| + 1] + block) + rest;
    } else if |block| == 253 {
      assert closed + ([255] + block + [x[0]] + rest) == closed + ([255] + (block + [input[i]])) + rest;
    }
  }

  lemma RoomLeft(input: octets, i: nat, closed: octets, block: octets)
    requires i <= |input| && Pending(input, i, closed, block)
    ensures |closed| + |block| + (|input| - i) < |Encoded(input)| <= |input| + |input| / 254 + 1
  {
    Shape(input);
    BlocksShape(input[i..], block);
  }

  /** Patches the length of the block that started at `codeAt`. */
  method CloseBlock(output: array<octet>, codeAt: nat, n: nat)
    requires codeAt < n <= output.Length && n - codeAt < 256
    modifies output
    ensures output[..n] == old(output[..codeAt]) + ([n - codeAt] + old(output[codeAt + 1..n]))
  {
    output[codeAt] := n - codeAt;
  }

  /** Puts one byte behind the open block at `codeAt`, and closes the block where it must be closed. */
  method EncodeByte(b: octet, output: array<octet>, codeAt: nat, n: nat) returns (codeAt': nat, m: nat)
    requires codeAt < n <= codeAt + 254 && n < output.Length
    requires b != 0 && n == codeAt + 254 ==> n + 1 < output.Length
    modifies output
    ensures var closed, block := old(output[..codeAt]), old(output[codeAt + 1..n]);
            if b == 0 then codeAt' == n && m == n + 1 && output[..codeAt'] == closed + ([n - codeAt] + block)
            else if n == codeAt + 254
            then codeAt' == n + 1 && m == n + 2 && output[..codeAt'] == closed + ([255] + (block + [b]))
            else codeAt' == codeAt && m == n + 1 && output[..codeAt] == closed && output[codeAt + 1..m] == block + [b]
  {
    codeAt', m := codeAt, n;
    if b == 0 {
      CloseBlock(output, codeAt, m);
      codeAt', m := m, m + 1;
    } else {
      output[m] := b;
      m := m + 1;
      if m - codeAt == 255 {
        CloseBlock(output, codeAt, m);
        codeAt', m := m, m + 1;
      }
    }
  }

  /** Takes in byte `i`; there is always room for it. */
  method EncodeNext(input: octets, i: nat, output: array<octet>, codeAt: nat, n: nat) returns (codeAt': nat, m: nat)
    requires output.Length >= |input| + |input| / 254 + 1
    requires i < |input| && codeAt < n <= output.Length && Pending(input, i, output[..codeAt], output[codeAt + 1..n])
    modifies output
    ensures codeAt' < m <= output.Length && Pending(input, i + 1, output[..codeAt'], output[codeAt' + 1..m])
  {
    ghost var closed, block := output[..codeAt], output[codeAt + 1..n];
    RoomLeft(input, i, closed, block);
    OneByte(input, i, closed, block);
    if input[i] != 0 && |block| == 253 { RoomLeft(input, i + 1, closed + ([255] + (block + [input[i]])), []); }
    codeAt', m := EncodeByte(input[i], output, codeAt, n);
  }

  method Encode(input: octets, output: array<octet>) returns (n: nat)
    requires output.Length >= |input| + |input| / 254 + 1
    modifies output
    ensures n <= output.Length && output[..n] == Encoded(input)
  {
    if |input| == 0 {
      output[0] := 1;
      return 1;
    }
    var i: nat, codeAt: nat := 0, 0;
    n := 1;
    assert [] + Blocks(input[0..], []) == Encoded(input);
    while i < |input|
      invariant i <= |input| && codeAt < n <= output.Length
      invariant Pending(input, i, output[..codeAt], output[codeAt + 1..n])
    {
      codeAt, n := EncodeNext(input, i, output, codeAt, n);
      i := i + 1;
    }
    CloseBlock(output, codeAt, n);
  }

  lemma PrependTwice(p: octets, q: octets, r: Option<octets>)
    ensures Prepend(p, Prepend(q, r)) == Prepend(p + q, r)
    ensures Prepend([], r) == r
  {
    if r.Some? {
      assert p + (q + r.value) == p + q + r.value;
      assert [] + r.value == r.value;
    }
  }

  /** `done` and what is left of the input make up its decoding. */
  ghost predicate Partial(all: Option<octets>, rest: octets, done: octets) {
    all == if rest != [] then Prepend(done, Decoded(rest)) else Some(done)
  }

  lemma BadBlock(all: Option<octets>, rest: octets, done: octets)
    requires rest != [] && Partial(all, rest, done) && (rest[0] == 0 || |rest| < rest[0])
    ensures all == None
  {
  }

  lemma OneBlock(all: Option<octets>, rest: octets, done: octets)
    requires rest != [] && Partial(all, rest, done) && 0 < rest[0] <= |rest|
    ensures var code := rest[0];
            Partial(all, rest[code..], if |rest| == code || code == 255 then done + rest[1..code] else done + rest[1..code] + [0])
  {
    var code := rest[0];
    if |rest| == code {
      assert rest[1..] == rest[1..code] && rest[code..] == [];
    } else {
      InnerBlock(rest, done);
    }
  }

  lemma InnerBlock(rest: octets, done: octets)
    requires rest != [] && 0 < rest[0] < |rest|
    ensures var code := rest[0];
            Prepend(done, Decoded(rest))
            == Prepend(if code < 255 then done + rest[1..code] + [0] else done + rest[1..code], Decoded(rest[code..]))
  {
    var code := rest[0];
    var block, zero := rest[1..code], if code < 255 then [0] else [];
    PrependTwice(done, block + zero, Decoded(rest[code..]));
    assert done + (block + zero) == if code < 255 then done + block + [0] else done + block;
  }

  /** Copies `input[at..at + count]` to `output[n..]`. */
  method Copy(input: octets, at: nat, count: nat, output: array<octet>, n: nat) returns (m: nat)
    requires at + count <= |input| && n + count <= output.Length
    modifies output
    ensures m == n + count && output[..m] == old(output[..n]) + input[at..at + count]
  {
    forall i | 0 <= i < count { output[n + i] := input[at + i]; }
    m := n + count;
  }

  /** Moves one block to the output, with the zero that followed it. */
  method DecodeBlock(input: octets, at: nat, output: array<octet>, n: nat) returns (next: nat, m: nat)
    requires n <= at < |input| <= output.Length && 0 < input[at] <= |input| - at
    modifies output
    ensures next == at + input[at] && m <= next
    ensures output[..m] == if next == |input| || input[at] == 255 then old(output[..n]) + input[at + 1..next]
                           else old(output[..n]) + input[at + 1..next] + [0]
  {
    m := Copy(input, at + 1, input[at] - 1, output, n);
    next := at + input[at];
    if input[at] < 255 && next < |input| {
      output[m] := 0;
      m := m + 1;
    }
  }

  /** What is left of the input after one block of it, seen from the whole. */
  lemma BlockAt(all: Option<octets>, input: octets, at: nat, next: nat, done: octets, result: octets)
    requires at < next <= |input| && next == at + input[at] && Partial(all, input[at..], done)
    requires result == if next == |input| || input[at] == 255 then done + input[at + 1..next] else done + input[at + 1..next] + [0]
    ensures Partial(all, input[next..], result)
  {
    var rest, code := input[at..], input[at];
    assert rest[0] == code && |rest| == |input| - at;
    SliceOfSuffix(input, at, 1, code);
    SliceOfSuffix(input, at, code, code);
    OneBlock(all, rest, done);
  }

  /** Decodes the next block, if it is whole. */
  method NextBlock(input: octets, at: nat, output: array<octet>, n: nat, ghost all: Option<octets>) returns (ok: bool, next: nat, m: nat)
    requires n <= at < |input| <= output.Length && Partial(all, input[at..], output[..n])
    modifies output
    ensures if ok then at < next <= |input| && m <= next && Partial(all, input[next..], output[..m]) else all == None
  {
    ok, next, m := 0 < input[at] <= |input| - at, at, n;
    ghost var done := output[..n];
    if ok {
      next, m := DecodeBlock(input, at, output, n);
      BlockAt(all, input, at, next, done, output[..m]);
    } else {
      BadBlock(all, input[at..], done);
    }
  }

  method Decode(input: octets, output: array<octet>) returns (ok: bool, n: nat)
    requires output.Length >= |input|
    modifies output
    ensures n <= output.Length
    ensures Decoded(input) == if ok then Some(output[..n]) else None
  {
    n := 0;
    if |input| == 0 {
      return false, n;
    }
    ghost var all := Decoded(input);
    var at := 0;
    PrependTwice([], [], all);
    assert input[0..] == input && output[..0] == [];
    while at < |input|
      invariant n <= at <= |input|
      invariant Partial(all, input[at..], output[..n])
    {
      ok, at, n := NextBlock(input, at, output, n, all);
      if !ok {
        return false, 0;
      }
    }
    return true, n;
  }
}
