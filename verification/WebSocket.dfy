/**
 The frames of the bridge's WebSocket (sections 5.2 and 5.3 of RFC 6455): it reads masked, final
 frames with lengths up to 16 bits, unmasking them in place, and sends unmasked ones.
 */
module WebSocket {
  import opened Seqs
  import opened Options
  import opened Octets
  import opened Quotients

  const MAX_FRAME_BYTES: nat := 65536

  /** Exclusive or of the lowest `n` bits. */
  function XorBits(a: nat, b: nat, n: nat): nat {
    if n == 0 then 0 else (a + b) % 2 + 2 * XorBits(a / 2, b / 2, n - 1)
  }

  function Xor(a: octet, b: octet): octet {
    XorBelow(a, b, 8);
    assert Pow2(8) == 0x100;
    XorBits(a, b, 8)
  }

  function Pow2(n: nat): (p: nat)
    ensures p > 0
  {
    if n == 0 then 1 else 2 * Pow2(n - 1)
  }

  lemma {:induction false} XorBelow(a: nat, b: nat, n: nat)
    ensures XorBits(a, b, n) < Pow2(n)
  {
    if n > 0 { XorBelow(a / 2, b / 2, n - 1); }
  }

  lemma LowBit(bit: nat, rest: nat, b: nat)
    requires bit < 2
    ensures (bit + 2 * rest) / 2 == rest && (bit + 2 * rest + b) % 2 == (bit + b) % 2
  {
  }

  lemma BitTwice(a: nat, b: nat)
    ensures ((a + b) % 2 + b) % 2 == a % 2
  {
  }

  lemma {:induction false} XorBitsTwice(a: nat, b: nat, n: nat)
    requires a < Pow2(n)
    ensures XorBits(XorBits(a, b, n), b, n) == a
  {
    if n > 0 {
      var bit, rest := (a + b) % 2, XorBits(a / 2, b / 2, n - 1);
      XorBitsTwice(a / 2, b / 2, n - 1);
      LowBit(bit, rest, b);
      BitTwice(a, b);
    }
  }

  lemma XorTwice(a: octet, b: octet)
    ensures Xor(Xor(a, b), b) == a
  {
    assert Pow2(8) == 0x100;
    XorBitsTwice(a, b, 8);
  }

  lemma {:induction false} XorBitsAt(a: nat, b: nat, n: nat, k: nat)
    requires k < n
    ensures XorBits(a, b, n) / Pow2(k) % 2 == (a / Pow2(k) + b / Pow2(k)) % 2
    decreases k
  {
    var bit, rest := (a + b) % 2, XorBits(a / 2, b / 2, n - 1);
    LowBit(bit, rest, 0);
    if k == 0 {
      assert XorBits(a, b, n) % 2 == bit;
    } else {
      XorBitsAt(a / 2, b / 2, n - 1, k - 1);
      DivideTwice(XorBits(a, b, n), 2, Pow2(k - 1));
      DivideTwice(a, 2, Pow2(k - 1));
      DivideTwice(b, 2, Pow2(k - 1));
    }
  }

  /** Every bit of an exclusive or is set iff exactly one of the two is. */
  lemma XorIs(a: octet, b: octet, k: nat)
    requires k < 8
    ensures Xor(a, b) / Pow2(k) % 2 == (a / Pow2(k) + b / Pow2(k)) % 2
  {
    XorBitsAt(a, b, 8, k);
  }

  /** The payload with byte `i` combined with byte `i % 4` of the mask. */
  function Masked(payload: octets, mask: octets): octets
    requires |mask| == 4
  {
    seq(|payload|, i requires 0 <= i < |payload| => Xor(payload[i], mask[i % 4]))
  }

  lemma MaskedTwice(payload: octets, mask: octets)
    requires |mask| == 4
    ensures Masked(Masked(payload, mask), mask) == payload
  {
    forall i | 0 <= i < |payload|
      ensures Masked(Masked(payload, mask), mask)[i] == payload[i]
    {
      XorTwice(payload[i], mask[i % 4]);
    }
  }

  // Frames as the standard has them.

  datatype Frame = Frame(final: bool, opcode: nat, masked: bool, payload: octets)

  /** How many bytes of extended length follow a length field. */
  function Extended(field: nat): nat { if field == 126 then 2 else if field == 127 then 8 else 0 }

  function PayloadLen(s: octets): nat
    requires |s| >= 2 && |s| >= 2 + Extended(s[1] % 0x80)
  {
    var ext := Extended(s[1] % 0x80);
    if ext == 0 then s[1] % 0x80 else BigEndian(s[2..2 + ext])
  }

  /** Any frame at the front of `s`, whatever its length form, masked or not. */
  function AnyFrame(s: octets): Option<Read<Frame>> {
    if |s| < 2 || |s| < 2 + Extended(s[1] % 0x80) then None
    else
      var len, masked := PayloadLen(s), s[1] >= 0x80;
      var start := 2 + Extended(s[1] % 0x80) + if masked then 4 else 0;
      if |s| < start + len then None
      else
        var data := s[start..start + len];
        Some(Read(Frame(s[0] >= 0x80, s[0] % 0x10, masked, if masked then Masked(data, s[start - 4..start]) else data), start + len))
  }

  /** The shortest encoding of a length below 65536. */
  function LengthField(len: nat): octets
    requires len <= 0xFFFF
  {
    if len < 126 then [len] else [126, len / 0x100, len % 0x100]
  }

  function WithMaskBit(field: octets): octets
    requires field != [] && field[0] < 0x80
  {
    [field[0] + 0x80] + field[1..]
  }

  /** What a client sends. */
  function ClientFrame(opcode: nat, mask: octets, payload: octets): octets
    requires opcode < 0x10 && |mask| == 4 && |payload| <= 0xFFFF
  {
    [0x80 + opcode] + WithMaskBit(LengthField(|payload|)) + mask + Masked(payload, mask)
  }

  // The bridge.

  /** What the bridge reads: the opcode and the payload, and how much of its input they took. */
  function ReadSpec(s: octets): Option<Read<(nat, octets)>> {
    if |s| < 2 || s[0] < 0x80 || s[1] < 0x80 || s[1] % 0x80 == 127 then None
    else if |s| < 2 + Extended(s[1] % 0x80) || PayloadLen(s) > MAX_FRAME_BYTES then None
    else
      var len, start := PayloadLen(s), 2 + Extended(s[1] % 0x80) + 4;
      if |s| < start + len then None
      else Some(Read((s[0] % 0x10, Masked(s[start..start + len], s[start - 4..start])), start + len))
  }

  /** The bridge reads a frame exactly when the standard's reader finds a final masked one without a 64-bit length, and reads the same. */
  lemma ReadsIff(s: octets)
    ensures var any := AnyFrame(s);
            ReadSpec(s) == if any.Some? && any.value.value.final && any.value.value.masked && s[1] % 0x80 != 127
                           then Some(Read((any.value.value.opcode, any.value.value.payload), any.value.used))
                           else None
  {
    if |s| >= 2 && s[1] % 0x80 == 126 && |s| >= 4 { NumberOfTwo(s[2], s[3]); assert s[2..4] == [s[2], s[3]]; }
  }

  lemma NumberOfTwo(a: octet, b: octet)
    ensures BigEndian([a, b]) == a * 0x100 + b <= 0xFFFF
  {
    assert [a, b][..1] == [a] && [a][..0] == [];
    assert BigEndian([a]) == BigEndian([]) * 0x100 + a;
  }

  lemma ClientHeader(opcode: nat, mask: octets, payload: octets, rest: octets)
    requires opcode < 0x10 && |mask| == 4 && |payload| <= 0xFFFF
    ensures var s := ClientFrame(opcode, mask, payload) + rest;
            var start := if |payload| < 126 then 6 else 8;
            && |s| >= start + |payload| && s[0] == 0x80 + opcode && s[1] == LengthField(|payload|)[0] + 0x80
            && (|payload| >= 126 ==> s[2..4] == [|payload| / 0x100, |payload| % 0x100])
            && s[start - 4..start] == mask && s[start..start + |payload|] == Masked(payload, mask)
            && |ClientFrame(opcode, mask, payload)| == start + |payload|
  {
    var head := [0x80 + opcode] + WithMaskBit(LengthField(|payload|));
    if |payload| >= 126 { assert head == [0x80 + opcode, 0xFE, |payload| / 0x100, |payload| % 0x100]; }
    FourParts(head, mask, Masked(payload, mask), rest);
  }

  lemma FourParts(a: octets, b: octets, c: octets, rest: octets)
    ensures var s := a + b + c + rest;
            && |s| == |a| + |b| + |c| + |rest| && s[|a|..|a| + |b|] == b && s[|a| + |b|..|a| + |b| + |c|] == c
            && (forall i :: 0 <= i < |a| ==> s[i] == a[i])
  {
  }

  /** Every payload a client can send with a 16-bit length is read back, unmasked, and nothing after it is touched. */
  lemma ClientRoundTrip(opcode: nat, mask: octets, payload: octets, rest: octets)
    requires opcode < 0x10 && |mask| == 4 && |payload| <= 0xFFFF
    ensures ReadSpec(ClientFrame(opcode, mask, payload) + rest)
         == Some(Read((opcode, payload), |ClientFrame(opcode, mask, payload)|))
  {
    ClientHeader(opcode, mask, payload, rest);
    MaskedTwice(payload, mask);
    NumberOfTwo(|payload| / 0x100, |payload| % 0x100);
  }

  /** What the bridge sends, unless it refuses to. */
  function SendSpec(opcode: octet, payload: octets): Option<octets> {
    if |payload| > 0xFFFF then None
    else Some([0x80 + opcode % 0x10] + LengthField(|payload|) + payload)
  }

  lemma ServerHeader(opcode: octet, payload: octets, rest: octets)
    requires |payload| <= 0xFFFF
    ensures var s := SendSpec(opcode, payload).value + rest;
            var start := if |payload| < 126 then 2 else 4;
            && |s| >= start + |payload| && s[0] == 0x80 + opcode % 0x10 && s[1] == LengthField(|payload|)[0]
            && (|payload| >= 126 ==> s[2..4] == [|payload| / 0x100, |payload| % 0x100])
            && s[start..start + |payload|] == payload && |SendSpec(opcode, payload).value| == start + |payload|
  {
  }

  /** A frame sent is one the standard's reader finds whole: final, unmasked, with its opcode and payload. */
  lemma ServerRoundTrip(opcode: octet, payload: octets, rest: octets)
    requires |payload| <= 0xFFFF
    ensures AnyFrame(SendSpec(opcode, payload).value + rest)
         == Some(Read(Frame(true, opcode % 0x10, false, payload), |SendSpec(opcode, payload).value|))
  {
    ServerHeader(opcode, payload, rest);
    NumberOfTwo(|payload| / 0x100, |payload| % 0x100);
  }

  /** No frame with the same payload is shorter than the one sent. */
  lemma ServerFrameIsShortest(opcode: octet, payload: octets, other: octets)
    requires |payload| <= 0xFFFF
    requires AnyFrame(other).Some? && AnyFrame(other).value.value.payload == payload && AnyFrame(other).value.used == |other|
    ensures |SendSpec(opcode, payload).value| <= |other|
  {
    assert |SendSpec(opcode, payload).value| == (if |payload| < 126 then 2 else 4) + |payload|;
  }

  class Socket {
    var incoming: octets  // what the peer has sent and the bridge has not read
    var outgoing: octets

    constructor (incoming: octets)
      ensures this.incoming == incoming && outgoing == []
    {
      this.incoming, outgoing := incoming, [];
    }

    method ReadExact(n: nat) returns (ok: bool, data: octets)
      modifies this`incoming
      ensures ok <==> n <= |old(incoming)|
      ensures ok ==> data == old(incoming)[..n] && incoming == old(incoming)[n..]
    {
      ok, data := n <= |incoming|, [];
      if ok { data, incoming := incoming[..n], incoming[n..]; }
    }

    /** Unmasks a payload where it is. */
    static method Unmask(payload: array<octet>, mask: octets)
      requires |mask| == 4
      modifies payload
      ensures payload[..] == Masked(old(payload[..]), mask)
    {
      for i := 0 to payload.Length
        invariant forall k :: 0 <= k < i ==> payload[k] == Xor(old(payload[k]), mask[k % 4])
        invariant forall k :: i <= k < payload.Length ==> payload[k] == old(payload[k])
      {
        payload[i] := Xor(payload[i], mask[i % 4]);
      }
    }

    /** Reads the mask and a payload of the given length, unmasked. */
    method ReadBody(len: nat) returns (ok: bool, payload: octets)
      modifies this`incoming
      ensures ok <==> |old(incoming)| >= 4 + len
      ensures ok ==> payload == Masked(old(incoming)[4..4 + len], old(incoming)[..4]) && incoming == old(incoming)[4 + len..]
    {
      var mask, data;
      payload := [];
      ok, mask := ReadExact(4);
      if !ok {
        return;
      }
      ok, data := ReadExact(len);
      if !ok {
        return;
      }
      var buffer := new octet[len](i requires 0 <= i < len => data[i]);
      assert buffer[..] == data;
      Unmask(buffer, mask);
      payload := buffer[..];
    }

    /** Reads one frame; a frame it does not accept ends the session. */
    method ReadFrame() returns (ok: bool, opcode: nat, payload: octets)
      modifies this`incoming
      ensures ReadSpec(old(incoming)).Some? <==> ok
      ensures ok ==> (opcode, payload) == ReadSpec(old(incoming)).value.value
      ensures ok ==> incoming == old(incoming)[ReadSpec(old(incoming)).value.used..]
    {
      var header, ext;
      opcode, payload := 0, [];
      ghost var s := incoming;
      ok, header := ReadExact(2);
      if !ok {
        return;
      }
      opcode := header[0] % 0x10;
      var len: nat := header[1] % 0x80;
      ghost var start: nat := 2;
      if header[0] < 0x80 || header[1] < 0x80 || len == 127 {
        return false, opcode, payload;
      }
      if len == 126 {
        ok, ext := ReadExact(2);
        if !ok {
          return;
        }
        var high: nat := ext[0];
        len, start := high * 0x100 + ext[1], 4;
        NumberOfTwo(ext[0], ext[1]);
        assert ext == s[2..4] == [ext[0], ext[1]];
      }
      assert len == PayloadLen(s) && incoming == s[start..];
      if len > MAX_FRAME_BYTES {
        return false, opcode, payload;
      }
      if |s| >= start + 4 + len {
        SliceOfSuffix(s, start, 0, 4);
        SliceOfSuffix(s, start, 4, 4 + len);
        SliceOfSuffix(s, start, 4 + len, 4 + len);
      }
      ok, payload := ReadBody(len);
    }

    method SendFrame(opcode: octet, payload: octets) returns (ok: bool)
      modifies this`outgoing
      ensures ok <==> SendSpec(opcode, payload).Some?
      ensures outgoing == if ok then old(outgoing) + SendSpec(opcode, payload).value else old(outgoing)
    {
      var len := |payload|;
      if len > MAX_FRAME_BYTES {
        return false;
      }
      var header: octets;
      if len < 126 {
        header := [0x80 + opcode % 0x10, len];
      } else if len <= 0xFFFF {
        header := [0x80 + opcode % 0x10, 126, len / 0x100 % 0x100, len % 0x100];
      } else {
        return false;
      }
      assert header == [0x80 + opcode % 0x10] + LengthField(len);
      outgoing := outgoing + header;
      if len > 0 { outgoing := outgoing + payload; }
      return true;
    }
  }
}
