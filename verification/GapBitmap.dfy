/**
 The received-chunks bitmap of an increment, least significant bit first: how the leaf marks it
 and what the bridge reads back as missing.
 */
module GapBitmap {
  import opened Bytes

  /** `1 << k` in a byte. */
  function Weight(k: nat): byte
    requires k < 8
  {
    if k == 0 then 0x01 else if k == 1 then 0x02 else if k == 2 then 0x04 else if k == 3 then 0x08
    else if k == 4 then 0x10 else if k == 5 then 0x20 else if k == 6 then 0x40 else 0x80
  }

  predicate Bit(b: byte, k: nat)
    requires k < 8
  {
    b & Weight(k) != 0
  }

  lemma BitAt0(b: byte)
    ensures (b & 0x01 != 0) <==> (b >> 0) & 1 == 1
  {
  }

  lemma BitAt1(b: byte)
    ensures (b & 0x02 != 0) <==> (b >> 1) & 1 == 1
  {
  }

  lemma BitAt2(b: byte)
    ensures (b & 0x04 != 0) <==> (b >> 2) & 1 == 1
  {
  }

  lemma BitAt3(b: byte)
    ensures (b & 0x08 != 0) <==> (b >> 3) & 1 == 1
  {
  }

  lemma BitAt4(b: byte)
    ensures (b & 0x10 != 0) <==> (b >> 4) & 1 == 1
  {
  }

  lemma BitAt5(b: byte)
    ensures (b & 0x20 != 0) <==> (b >> 5) & 1 == 1
  {
  }

  lemma BitAt6(b: byte)
    ensures (b & 0x40 != 0) <==> (b >> 6) & 1 == 1
  {
  }

  lemma BitAt7(b: byte)
    ensures (b & 0x80 != 0) <==> (b >> 7) & 1 == 1
  {
  }

  /** Bit `k` is the one `k` places from the right. */
  lemma BitOrder(b: byte, k: nat)
    requires k < 8
    ensures Bit(b, k) <==> (b >> k) & 1 == 1
  {
    if k == 0 { BitAt0(b); } else if k == 1 { BitAt1(b); } else if k == 2 { BitAt2(b); } else if k == 3 { BitAt3(b); }
    else if k == 4 { BitAt4(b); } else if k == 5 { BitAt5(b); } else if k == 6 { BitAt6(b); } else { BitAt7(b); }
  }

  function SetBit(b: byte, k: nat): (r: byte)
    requires k < 8
    ensures forall j: nat :: j < 8 ==> Bit(r, j) == (j == k || Bit(b, j))
  {
    b | Weight(k)
  }

  /** Whether chunk `i` of the increment is marked; a bitmap that is too short says no. */
  predicate Marked(bitmap: bytes, i: nat) {
    i / 8 < |bitmap| && Bit(bitmap[i / 8], i % 8)
  }

  function BitmapLen(n: nat): nat { (n + 7) / 8 }

  function Empty(n: nat): (r: bytes)
    ensures |r| == BitmapLen(n) && forall i: nat :: !Marked(r, i)
  {
    seq(BitmapLen(n), _ => 0)
  }

  function Mark(bitmap: bytes, i: nat): (r: bytes)
    ensures |r| == |bitmap|
    ensures i / 8 < |bitmap| ==> forall j: nat :: Marked(r, j) <==> j == i || Marked(bitmap, j)
    ensures i / 8 >= |bitmap| ==> r == bitmap
  {
    if i / 8 < |bitmap|
    then bitmap[i / 8 := SetBit(bitmap[i / 8], i % 8)]
    else bitmap
  }

  predicate Missing(bitmap: bytes, start: nat, s: nat) {
    start <= s && !Marked(bitmap, s - start)
  }

  /** The sequences of an increment of `n` chunks starting at `start` that the bitmap does not show. */
  function Gaps(bitmap: bytes, start: nat, n: nat): (r: set<nat>)
    ensures forall s: nat :: s in r <==> s < start + n && Missing(bitmap, start, s)
  {
    set s | s in Interval(start, start + n) && Missing(bitmap, start, s)
  }

  lemma GapsSnoc(bitmap: bytes, start: nat, n: nat)
    ensures Gaps(bitmap, start, n + 1)
         == if Marked(bitmap, n) then Gaps(bitmap, start, n) else Gaps(bitmap, start, n) + {start + n}
  {
    assert Missing(bitmap, start, start + n) <==> !Marked(bitmap, n);
  }

  /** The bitmap after chunks arrive in the given order, repeats included. */
  function MarkAll(bitmap: bytes, arrivals: seq<nat>): bytes {
    if arrivals == [] then bitmap else Mark(MarkAll(bitmap, arrivals[..|arrivals| - 1]), arrivals[|arrivals| - 1])
  }

  /** Whatever the order and however often chunks arrive, the bridge reads back exactly those that did not. */
  lemma {:induction false} GapsAreTheMissing(n: nat, start: nat, arrivals: seq<nat>)
    requires forall k :: 0 <= k < |arrivals| ==> arrivals[k] < n
    ensures |MarkAll(Empty(n), arrivals)| == BitmapLen(n)
    ensures forall i: nat :: Marked(MarkAll(Empty(n), arrivals), i) <==> i in arrivals
    ensures forall i: nat :: start + i in Gaps(MarkAll(Empty(n), arrivals), start, n) <==> i < n && i !in arrivals
  {
    if arrivals != [] {
      var front, last := arrivals[..|arrivals| - 1], arrivals[|arrivals| - 1];
      assert arrivals == front + [last];
      GapsAreTheMissing(n, start, front);
      var marked := MarkAll(Empty(n), front);
      assert last < n && last / 8 < |marked|;
    }
  }
}
