/** Byte strings as the wire codecs see them: sequences of numbers below 256. */
module Octets {
  type octet = n: int | 0 <= n < 0x100
  type octets = seq<octet>

  /** A value read from the front of a byte string, and how many bytes it took. */
  datatype Read<+T> = Read(value: T, used: nat)

  predicate NoZero(s: octets) { forall i :: 0 <= i < |s| ==> s[i] != 0 }

  /** A big-endian number. */
  function BigEndian(s: octets): nat {
    if s == [] then 0 else BigEndian(s[..|s| - 1]) * 0x100 + s[|s| - 1]
  }
}
