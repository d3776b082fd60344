/**
 Consistent overhead byte stuffing as its authors describe it, by laws rather than by a procedure.
 */
module CobsLaws {
  import opened Octets
  import opened Cobs

  lemma {:induction false} ZeroFree(x: octets, block: octets, y: octets)
    requires NoZero(x) && |block| + |x| < 254
    ensures Blocks(x + y, block) == Blocks(y, block + x)
  {
    if x == [] {
      assert x + y == y && block + x == block;
    } else {
      assert (x + y)[0] == x[0] && (x + y)[1..] == x[1..] + y;
      ZeroFree(x[1..], block + [x[0]], y);
      assert block + [x[0]] + x[1..] == block + x;
    }
  }

  /**
   The three laws that make the encoding: a stretch without zeros is preceded by its length and one; a
   zero is left out between two encodings; and a full stretch of 254 bytes is preceded by 255, with
   nothing left out behind it.
   */
  lemma EncodingIs(x: octets, y: octets)
    requires NoZero(x)
    ensures |x| < 254 ==> Encoded(x) == [|x| + 1] + x
    ensures |x| < 254 ==> Encoded(x + [0] + y) == [|x| + 1] + x + Encoded(y)
    ensures |x| == 254 ==> Encoded(x + y) == [255] + x + Encoded(y)
  {
    if |x| < 254 {
      ZeroFree(x, [], []);
      assert x + [] == x && [] + x == x;
      ZeroFree(x, [], [0] + y);
      assert x + [0] + y == x + ([0] + y) && ([0] + y)[1..] == y;
    } else if |x| == 254 {
      var front, last := x[..253], x[253];
      ZeroFree(front, [], [last] + y);
      assert [] + front == front;
      assert x + y == front + ([last] + y) && ([last] + y)[1..] == y;
      assert [255] + front + [last] == [255] + x;
    }
  }
}
