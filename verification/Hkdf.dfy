/**
 HKDF-Expand (section 2.3 of RFC 5869) as the session keys are derived, over an arbitrary function
 in the place of HMAC-SHA256. Each round's input is put together in a block of fixed size.
 */
module Hkdf {
  import opened Octets

  const HASH: nat := 32
  const BLOCK_SIZE: nat := 96

  type Hmac = (octets, octets) -> octets

  ghost predicate IsHash(hmac: Hmac) { forall key, data :: |hmac(key, data)| == HASH }

  /** T(n). */
  function T(hmac: Hmac, prk: octets, info: octets, n: nat): octets {
    if n == 0 then [] else hmac(prk, T(hmac, prk, info, n - 1) + info + [n % 0x100])
  }

  /** T(1), ..., T(n) put together. */
  function Stream(hmac: Hmac, prk: octets, info: octets, n: nat): octets {
    if n == 0 then [] else Stream(hmac, prk, info, n - 1) + T(hmac, prk, info, n)
  }

  function Rounds(len: nat): nat { (len + HASH - 1) / HASH }

  /** The output keying material. */
  function Expand(hmac: Hmac, prk: octets, info: octets, len: nat): (r: octets)
    requires IsHash(hmac)
    ensures |r| == len
  {
    StreamLength(hmac, prk, info, Rounds(len));
    Stream(hmac, prk, info, Rounds(len))[..len]
  }

  lemma {:induction false} StreamLength(hmac: Hmac, prk: octets, info: octets, n: nat)
    requires IsHash(hmac)
    ensures |Stream(hmac, prk, info, n)| == HASH * n
  {
    if n > 0 { StreamLength(hmac, prk, info, n - 1); }
  }

  lemma {:induction false} StreamPrefix(hmac: Hmac, prk: octets, info: octets, m: nat, n: nat)
    requires m <= n
    ensures Stream(hmac, prk, info, m) <= Stream(hmac, prk, info, n)
    decreases n
  {
    if m < n { StreamPrefix(hmac, prk, info, m, n - 1); }
  }

  /** Block `n` of the output, counted from 0. */
  function BlockAt(r: octets, n: nat): octets
    requires HASH * (n + 1) <= |r|
  {
    r[HASH * n..HASH * n + HASH]
  }

  lemma {:induction false} StreamBlock(hmac: Hmac, prk: octets, info: octets, n: nat, k: nat)
    requires IsHash(hmac) && k < n
    ensures |Stream(hmac, prk, info, n)| == HASH * n && BlockAt(Stream(hmac, prk, info, n), k) == T(hmac, prk, info, k + 1)
    decreases n
  {
    StreamLength(hmac, prk, info, n);
    StreamLength(hmac, prk, info, n - 1);
    if k < n - 1 {
      StreamBlock(hmac, prk, info, n - 1, k);
      assert HASH * (k + 1) <= HASH * (n - 1);
    }
  }

  /** The output as the standard has it: each block is the hash of the block before it, the info and a counter from 1. */
  lemma BlocksChain(hmac: Hmac, prk: octets, info: octets, len: nat, k: nat)
    requires IsHash(hmac) && HASH * (k + 1) <= len
    ensures var r := Expand(hmac, prk, info, len);
            BlockAt(r, k) == hmac(prk, (if k == 0 then [] else BlockAt(r, k - 1)) + info + [(k + 1) % 0x100])
  {
    var n := Rounds(len);
    assert k < n;
    StreamBlock(hmac, prk, info, n, k);
    assert BlockAt(Expand(hmac, prk, info, len), k) == BlockAt(Stream(hmac, prk, info, n), k);
    if k > 0 {
      StreamBlock(hmac, prk, info, n, k - 1);
      assert BlockAt(Expand(hmac, prk, info, len), k - 1) == BlockAt(Stream(hmac, prk, info, n), k - 1);
    }
  }

  /** A shorter key is the beginning of a longer one. */
  lemma ExpandPrefix(hmac: Hmac, prk: octets, info: octets, short: nat, long: nat)
    requires IsHash(hmac) && short <= long
    ensures Expand(hmac, prk, info, short) == Expand(hmac, prk, info, long)[..short]
  {
    StreamPrefix(hmac, prk, info, Rounds(short), Rounds(long));
    StreamLength(hmac, prk, info, Rounds(short));
  }

  /** The input of every round fits its block: the first holds the info and a counter, the others a hash as well. */
  predicate Fits(infoLen: nat, outLen: nat) {
    (outLen > 0 ==> infoLen + 1 <= BLOCK_SIZE) && (outLen > HASH ==> HASH + infoLen + 1 <= BLOCK_SIZE)
  }

  method Append(block: array<octet>, at: nat, data: octets) returns (end: nat)
    requires at + |data| <= block.Length
    modifies block
    ensures end == at + |data| && block[..end] == old(block[..at]) + data
  {
    forall i | 0 <= i < |data| { block[at + i] := data[i]; }
    end := at + |data|;
  }

  /** The input of round `counter`. */
  method RoundInput(t: octets, info: octets, counter: octet) returns (data: octets)
    requires counter > 0 && (if counter == 1 then 0 else |t|) + |info| + 1 <= BLOCK_SIZE
    ensures data == (if counter == 1 then [] else t) + info + [counter]
  {
    var block := new octet[BLOCK_SIZE](_ => 0);
    var len: nat := 0;
    if counter != 1 { len := Append(block, len, t); }
    len := Append(block, len, info);
    block[len] := counter;
    len := len + 1;
    data := block[..len];
  }

  lemma TakeSome(s: octets, t: octets, n: nat)
    requires n <= |t|
    ensures (s + t)[..|s| + n] == s[..|s|] + t[..n]
  {
  }

  method HkdfExpand(hmac: Hmac, prk: octets, info: octets, out: array<octet>)
    requires IsHash(hmac) && out.Length <= 255 * HASH && Fits(|info|, out.Length)
    modifies out
    ensures out[..] == Expand(hmac, prk, info, out.Length)
  {
    var t: octets := [];
    var offset: nat, counter: nat := 0, 0;
    while offset < out.Length
      invariant offset <= out.Length
      invariant offset == (if HASH * counter < out.Length then HASH * counter else out.Length) && HASH * counter <= out.Length + 31
      invariant t == T(hmac, prk, info, counter) && (counter > 0 ==> |t| == HASH)
      invariant offset <= |Stream(hmac, prk, info, counter)| && out[..offset] == Stream(hmac, prk, info, counter)[..offset]
    {
      StreamLength(hmac, prk, info, counter);
      ghost var stream := Stream(hmac, prk, info, counter);
      counter := counter + 1;
      var data := RoundInput(t, info, counter);
      t := hmac(prk, data);
      var copy := if offset + HASH <= out.Length then HASH else out.Length - offset;
      TakeSome(stream, t, copy);
      var end := Append(out, offset, t[..copy]);
      offset := end;
    }
    assert out[..offset] == out[..];
    assert counter == Rounds(out.Length);
  }
}
