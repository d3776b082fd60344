/** A byte's value fits back into a byte. */
module ByteValues {
  lemma ByteAndBack(n: int)
    requires 0 <= n < 0x100
    ensures (n as bv8) as int == n
  {
  }
}

/** Bytes, little-endian 16-bit fields and small facts about numbers. */
module Bytes {
  import ByteValues

  type byte = bv8
  type bytes = seq<byte>

  function Min(a: int, b: int): int { if a <= b then a else b }

  /** The value a `uint16_t` field holds after storing `n` in it. */
  function U16(n: nat): nat { n % 0x1_0000 }

  /** A `uint16_t` counted on by one. */
  function Next16(n: nat): nat { if n == 0xFFFF then 0 else n + 1 }

  function ByteOf(n: int): (b: byte)
    requires 0 <= n < 0x100
    ensures b as int == n
  {
    ByteValues.ByteAndBack(n);
    n as bv8
  }

  function Le16(lo: byte, hi: byte): nat { lo as nat + 0x100 * (hi as nat) }

  /** The numbers `lo`, ..., `hi - 1`. */
  function Interval(lo: nat, hi: nat): (r: set<nat>)
    ensures forall s: nat :: s in r <==> lo <= s < hi
    ensures |r| == if lo < hi then hi - lo else 0
    decreases hi - lo
  {
    if lo < hi then {lo} + Interval(lo + 1, hi) else {}
  }

  lemma IntervalSnoc(lo: nat, hi: nat)
    requires lo <= hi
    ensures Interval(lo, hi + 1) == Interval(lo, hi) + {hi}
  {
  }

  lemma MulMono(a: nat, b: nat, c: nat)
    requires a <= b
    ensures a * c <= b * c
  {
  }

  lemma MulDist(a: int, b: int, c: int)
    ensures (a + b) * c == a * c + b * c
  {
  }
}
