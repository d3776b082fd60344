/**
 A few frames written out byte by byte, as the standards and the message definitions have them. The
 round trips elsewhere hold of any pair of writer and reader that agree; these fix what they agree on.
 */
module WireExamples {
  import opened Seqs
  import opened Options
  import opened Octets
  import P = Protobuf
  import W = WebSocket

  // Protobuf.

  lemma SmallVarint(v: nat)
    requires v < 0x80
    ensures P.VarintBytes(v) == [v]
  {
  }

  /** A scalar field with a number up to 15 and a value up to 127 takes two bytes. */
  lemma SmallScalar(number: nat, n: nat)
    requires number < 16 && n < 0x80
    ensures P.FieldBytes(P.Field(number, P.Varint(n))) == [8 * number, n]
  {
    SmallVarint(8 * number);
    SmallVarint(n);
  }

  lemma SmallString(number: nat, data: octets)
    requires number < 16 && |data| < 0x80 && 8 * number + 2 < 0x80
    ensures P.FieldBytes(P.Field(number, P.Delimited(data))) == [8 * number + 2, |data|] + data
  {
    SmallVarint(8 * number + 2);
    SmallVarint(|data|);
  }

  /** The batch message is field 31 of the envelope. */
  lemma BatchField(msg: octets)
    requires |msg| < 0x80
    ensures P.FieldBytes(P.Field(31, P.Delimited(msg))) == [0xFA, 0x01, |msg|] + msg
  {
    SmallVarint(|msg|);
    assert P.VarintBytes(250) == [250 % 0x80 + 0x80] + P.VarintBytes(250 / 0x80);
    SmallVarint(1);
  }

  lemma ThreeFields(a: P.Field, b: P.Field, c: P.Field)
    ensures P.MessageBytes([a, b, c]) == P.FieldBytes(a) + (P.FieldBytes(b) + P.FieldBytes(c))
  {
    assert [a, b, c][1..] == [b, c] && [b, c][1..] == [c] && [c][1..] == [];
    assert P.MessageBytes([c]) == P.FieldBytes(c) + P.MessageBytes([]);
    assert P.MessageBytes([b, c]) == P.FieldBytes(b) + P.MessageBytes([c]);
  }

  /** An envelope: field 1 is the request's id, field 2 the version, and the message follows under its own number. */
  lemma EnvelopeExample(id: octet, msg: octet)
    ensures P.MessageBytes(P.EnvelopeFields([id], 31, [msg])) == [0x0A, 1, id, 0x10, 2, 0xFA, 0x01, 1, msg]
  {
    SmallString(1, [id]);
    SmallScalar(2, 2);
    BatchField([msg]);
    var a, b, c := P.Field(1, P.Delimited([id])), P.Field(2, P.Varint(2)), P.Field(31, P.Delimited([msg]));
    assert P.EnvelopeFields([id], 31, [msg]) == [a, b, c];
    ThreeFields(a, b, c);
  }

  /** A chunk: its sequence, offset, payload, flags and checksum are fields 1 to 5. */
  lemma ChunkExample(s: nat, offset: nat, data: octet, flags: nat, crc: nat, z: P.Zeros)
    requires 0 < s < 0x80 && 0 < offset < 0x80 && 0 < flags < 0x80 && 0 < crc < 0x80
    ensures P.MessageBytes(P.ChunkFields(P.Chunk(s, offset, Some([data]), flags, crc), z))
         == [0x08, s, 0x10, offset, 0x1A, 1, data, 0x20, flags, 0x28, crc]
  {
    SmallScalar(1, s);
    SmallScalar(2, offset);
    SmallString(3, [data]);
    SmallScalar(4, flags);
    SmallScalar(5, crc);
    var a, b, c, d, e := P.Field(1, P.Varint(s)), P.Field(2, P.Varint(offset)), P.Field(3, P.Delimited([data])),
                         P.Field(4, P.Varint(flags)), P.Field(5, P.Varint(crc));
    assert P.ChunkFields(P.Chunk(s, offset, Some([data]), flags, crc), z) == [a, b, c] + [d] + [e];
    ThreeFields(a, b, c);
    P.MessageSnoc([a, b, c], d);
    P.MessageSnoc([a, b, c] + [d], e);
  }

  // WebSocket.

  lemma FiveMasked(data: octets, mask: octets)
    requires |data| == 5 && |mask| == 4
    ensures W.Masked(data, mask)
         == [W.Xor(data[0], mask[0]), W.Xor(data[1], mask[1]), W.Xor(data[2], mask[2]), W.Xor(data[3], mask[3]), W.Xor(data[4], mask[0])]
  {
  }

  /** A masked text message of five bytes, as the bridge reads it: two bytes of header, the mask, and each byte with its own of the mask. */
  lemma TextFromClient(mask: octets, data: octets)
    requires |mask| == 4 && |data| == 5
    ensures W.ReadSpec([0x81, 0x85] + mask + data)
         == Some(Read((1, [W.Xor(data[0], mask[0]), W.Xor(data[1], mask[1]), W.Xor(data[2], mask[2]), W.Xor(data[3], mask[3]),
                           W.Xor(data[4], mask[0])]), 11))
  {
    var s := [0x81, 0x85] + mask + data;
    assert s[2..6] == mask && s[6..11] == data;
    assert s[0] == 0x81 && s[1] == 0x85 && |s| == 11;
    FiveMasked(data, mask);
  }

  /** An unmasked one, as the bridge sends it. */
  lemma TextFromBridge(data: octets)
    requires |data| == 5
    ensures W.SendSpec(1, data) == Some([0x81, 0x05] + data)
  {
    assert [0x80 + 1 % 0x10] + W.LengthField(|data|) == [0x81, 0x05];
  }

  /** A longer one says so with 126 and a big-endian length. */
  lemma LongFromBridge(data: octets)
    requires |data| == 300
    ensures W.SendSpec(2, data) == Some([0x82, 126, 0x01, 0x2C] + data)
  {
    assert [0x80 + 2 % 0x10] + W.LengthField(|data|) == [0x82, 126, 0x01, 0x2C];
  }
}
