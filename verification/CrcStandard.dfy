/**
 The chunks' checksum is the one IEEE 802.3 defines (section 3.2.9): the remainder of a division of
 polynomials over bits. That definition is written down here on lists of bits, without a register, and
 the register's result is shown to be its value for all data.
 */
module CrcStandard {
  import opened Seqs
  import opened Bytes
  import opened Crc32

  type bits = seq<bool>

  // The standard's definition. A list holds a polynomial's coefficients, the highest first.

  /** x^26 + x^23 + x^22 + x^16 + x^12 + x^11 + x^10 + x^8 + x^7 + x^5 + x^4 + x^2 + x + 1, the generator without its x^32. */
  const GENERATOR: bits := [
    false, false, false, false, false, true, false, false,
    true, true, false, false, false, false, false, true,
    false, false, false, true, true, true, false, true,
    true, false, true, true, false, true, true, true]

  function Zeros(n: nat): (s: bits)
    ensures |s| == n
  {
    seq(n, _ => false)
  }

  /** `s` added to the front of `m`. */
  function Added(m: bits, s: bits): (r: bits)
    ensures |r| == |m|
  {
    seq(|m|, i requires 0 <= i < |m| => if i < |s| then m[i] != s[i] else m[i])
  }

  /** The remainder of dividing by the generator: the leading coefficient goes, and the generator is subtracted for it. */
  function Remainder(m: bits): bits
    decreases |m|
  {
    if |m| <= 32 then m
    else if m[0] then Remainder(Added(m[1..], GENERATOR))
    else Remainder(m[1..])
  }

  function Complement(m: bits): (r: bits)
    ensures |r| == |m|
  {
    seq(|m|, i requires 0 <= i < |m| => !m[i])
  }

  /** The first 32 bits complemented. */
  function FirstComplemented(m: bits): (r: bits)
    ensures |r| == |m|
  {
    seq(|m|, i requires 0 <= i < |m| => if i < 32 then !m[i] else m[i])
  }

  /** `n` bits, one after the other. */
  function Read<T(!new)>(low: T -> bool, half: T -> T, w: T, n: nat): (s: bits)
    ensures |s| == n
    decreases n
  {
    if n == 0 then [] else [low(w)] + Read(low, half, half(w), n - 1)
  }

  function Low(w: word): bool { w & 1 == 1 }

  /** The `n` low bits of a word, the lowest first. */
  function BitsOf(w: word, n: nat): (s: bits)
    ensures |s| == n
  {
    Read(Low, Half, w, n)
  }

  /** The message as it goes out: byte after byte, each with its lowest bit first. */
  function Message(data: bytes): bits {
    if data == [] then [] else Message(data[..|data| - 1]) + BitsOf(data[|data| - 1] as word, 8)
  }

  /** The check sequence: the message followed by 32 zeros, its first 32 bits complemented, divided, and the remainder complemented. */
  function Standard(data: bytes): bits {
    Complement(Remainder(FirstComplemented(Message(data) + Zeros(32))))
  }

  // Division bit by bit.

  function Step(s: bits, b: bool): (r: bits)
    requires |s| == 32
    ensures |r| == 32
  {
    var moved := s[1..] + [false];
    if s[0] != b then Added(moved, GENERATOR) else moved
  }

  function Fed(s: bits, m: bits): (r: bits)
    requires |s| == 32
    ensures |r| == 32
    decreases |m|
  {
    if m == [] then s else Fed(Step(s, m[0]), m[1..])
  }

  lemma AddedTwice(m: bits, s: bits, t: bits)
    requires |s| == |t| <= |m|
    ensures Added(Added(m, s), t) == Added(m, Added(s, t))
  {
  }

  lemma AddedTail(m: bits, s: bits)
    requires |s| == 32 && |m| > 32
    ensures Added(m, s)[0] == (m[0] != s[0]) && Added(m, s)[1..] == Added(m[1..], s[1..] + [false])
  {
  }

  /** A register fed with a message holds the remainder of the message with the register's contents added in front. */
  lemma {:induction false} FedIsRemainder(s: bits, m: bits)
    requires |s| == 32
    ensures Remainder(Added(m + Zeros(32), s)) == Fed(s, m)
    decreases |m|
  {
    if m == [] {
      assert Added(m + Zeros(32), s) == s;
    } else {
      var all, moved := m + Zeros(32), s[1..] + [false];
      AppendFirst(m, Zeros(32));
      AddedTail(all, s);
      if s[0] != m[0] { AddedTwice(m[1..] + Zeros(32), moved, GENERATOR); }
      FedIsRemainder(Step(s, m[0]), m[1..]);
    }
  }

  lemma {:induction false} FedAppend(s: bits, a: bits, b: bits)
    requires |s| == 32
    ensures Fed(s, a + b) == Fed(Fed(s, a), b)
    decreases |a|
  {
    if a == [] {
      assert a + b == b;
    } else {
      AppendFirst(a, b);
      FedAppend(Step(s, a[0]), a[1..], b);
    }
  }

  // Words and lists of bits.

  /** The word has no bits but its `n` lowest. */
  predicate Fits(w: word, n: nat) {
    if n == 0 then w == 0 else Fits(w >> 1, n - 1)
  }

  lemma LowOfXor(a: word, b: word)
    ensures Low(Xor(a, b)) == (Low(a) != Low(b))
  {
  }

  lemma AddedCons(x: bool, m: bits, y: bool, s: bits)
    ensures Added([x] + m, [y] + s) == [x != y] + Added(m, s)
  {
  }

  lemma {:induction false} ReadMixed<T(!new)>(low: T -> bool, half: T -> T, mix: (T, T) -> T, a: T, b: T, n: nat)
    requires forall x, y :: low(mix(x, y)) == (low(x) != low(y))
    requires forall x, y :: half(mix(x, y)) == mix(half(x), half(y))
    ensures Read(low, half, mix(a, b), n) == Added(Read(low, half, a, n), Read(low, half, b, n))
    decreases n
  {
    if n > 0 {
      ReadMixed(low, half, mix, half(a), half(b), n - 1);
      AddedCons(low(a), Read(low, half, half(a), n - 1), low(b), Read(low, half, half(b), n - 1));
    }
  }

  lemma BitsOfXor(a: word, b: word, n: nat)
    ensures BitsOf(Xor(a, b), n) == Added(BitsOf(a, n), BitsOf(b, n))
  {
    forall x, y ensures Low(Xor(x, y)) == (Low(x) != Low(y)) { LowOfXor(x, y); }
    forall x, y ensures Half(Xor(x, y)) == Xor(Half(x), Half(y)) { HalfOfXor(x, y); }
    ReadMixed(Low, Half, Xor, a, b, n);
  }

  lemma BitsOfCons(w: word, n: nat)
    requires n > 0
    ensures BitsOf(w, n) == [w & 1 == 1] + BitsOf(w >> 1, n - 1)
  {
  }

  lemma {:induction false} BitsOfMore(w: word, n: nat)
    requires Fits(w, n)
    ensures BitsOf(w, n + 1) == BitsOf(w, n) + [false]
  {
    if n == 0 {
      BitsOfCons(w, 1);
    } else {
      BitsOfMore(w >> 1, n - 1);
      BitsOfCons(w, n);
      BitsOfCons(w, n + 1);
      Assoc([w & 1 == 1], BitsOf(w >> 1, n - 1), [false]);
    }
  }

  lemma FitsThree(w: word)
    requires w <= 7
    ensures Fits(w, 3)
  {
    assert w >> 1 <= 3 && w >> 1 >> 1 <= 1 && w >> 1 >> 1 >> 1 == 0;
    assert Fits(w >> 1 >> 1, 1);
  }

  lemma FourMoved(w: word)
    ensures w >> 1 >> 1 >> 1 >> 1 == w >> 4
  {
  }

  lemma FitsFour(w: word, n: nat)
    requires n >= 4
    ensures Fits(w, n) == Fits(w >> 4, n - 4)
  {
    FourMoved(w);
    assert Fits(w >> 1, n - 1) == Fits(w >> 1 >> 1, n - 2);
    assert Fits(w >> 1 >> 1 >> 1, n - 3) == Fits(w >> 1 >> 1 >> 1 >> 1, n - 4);
  }

  lemma NextSmaller(w: word)
    ensures w <= 0x7FFF_FFFF ==> w >> 4 <= 0x7FF_FFFF
    ensures w <= 0x7FF_FFFF ==> w >> 4 <= 0x7F_FFFF
    ensures w <= 0x7F_FFFF ==> w >> 4 <= 0x7_FFFF
    ensures w <= 0x7_FFFF ==> w >> 4 <= 0x7FFF
    ensures w <= 0x7FFF ==> w >> 4 <= 0x7FF
    ensures w <= 0x7FF ==> w >> 4 <= 0x7F
    ensures w <= 0x7F ==> w >> 4 <= 7
  {
  }

  /** Whether a word is below the power of two, for the lengths needed here. */
  predicate Below(w: word, n: nat) {
    match n
    case 31 => w <= 0x7FFF_FFFF
    case 27 => w <= 0x7FF_FFFF
    case 23 => w <= 0x7F_FFFF
    case 19 => w <= 0x7_FFFF
    case 15 => w <= 0x7FFF
    case 11 => w <= 0x7FF
    case 7 => w <= 0x7F
    case 3 => w <= 7
    case _ => false
  }

  lemma {:induction false} BelowFits(w: word, n: nat)
    requires Below(w, n)
    ensures Fits(w, n)
  {
    if n == 3 {
      FitsThree(w);
    } else {
      NextSmaller(w);
      FitsFour(w, n);
      BelowFits(w >> 4, n - 4);
    }
  }

  lemma HalfFits(w: word)
    ensures Fits(w >> 1, 31)
  {
    BelowFits(w >> 1, 31);
  }

  lemma ByteGone(b: byte)
    ensures (b as word) >> 4 >> 4 == 0
  {
  }

  lemma ByteFits(b: byte)
    ensures Fits(b as word, 8)
  {
    FitsFour(b as word, 8);
    FitsFour((b as word) >> 4, 4);
    ByteGone(b);
  }

  lemma Prepended(a: bool, b: bool, c: bool, d: bool, rest: bits)
    ensures [a] + ([b] + ([c] + ([d] + rest))) == [a, b, c, d] + rest
  {
  }

  lemma ReadFour<T(!new)>(low: T -> bool, half: T -> T, w: T, n: nat)
    requires n >= 4
    ensures var x := half(w);
            var y := half(x);
            var z := half(y);
            Read(low, half, w, n) == [low(w), low(x), low(y), low(z)] + Read(low, half, half(z), n - 4)
  {
    var x := half(w);
    var y := half(x);
    var z := half(y);
    Prepended(low(w), low(x), low(y), low(z), Read(low, half, half(z), n - 4));
    assert Read(low, half, x, n - 1) == [low(x)] + Read(low, half, y, n - 2);
    assert Read(low, half, y, n - 2) == [low(y)] + Read(low, half, z, n - 3);
  }

  lemma HalfTwice(w: word)
    ensures Half(Half(w)) == w >> 2
  {
  }

  lemma HalfThrice(w: word)
    ensures Half(Half(Half(w))) == w >> 3
  {
  }

  lemma HalfFourTimes(w: word)
    ensures Half(Half(Half(Half(w)))) == w >> 4
  {
  }

  lemma LowIs(w: word, x: word)
    requires x == w
    ensures Low(x) == (w & 1 == 1)
  {
  }

  /** The four bits of a word's last hexadecimal digit. */
  lemma Digit(w: word, n: nat, a: bool, b: bool, c: bool, d: bool, rest: word)
    requires n >= 4 && rest == w >> 4
    requires a == (w & 1 == 1) && b == ((w >> 1) & 1 == 1) && c == ((w >> 2) & 1 == 1) && d == ((w >> 3) & 1 == 1)
    ensures BitsOf(w, n) == [a, b, c, d] + BitsOf(rest, n - 4)
  {
    HalfTwice(w);
    HalfThrice(w);
    HalfFourTimes(w);
    LowIs(w >> 1, Half(w));
    LowIs(w >> 2, Half(Half(w)));
    LowIs(w >> 3, Half(Half(Half(w))));
    ReadFour(Low, Half, w, n);
  }

  lemma GeneratorStarts()
    ensures BitsOf(POLYNOMIAL, 32) == [false, false, false, false] + ([false, true, false, false]
              + ([true, true, false, false] + ([false, false, false, true] + BitsOf(0xEDB8, 16))))
  {
    Digit(0xEDB8_8320, 32, false, false, false, false, 0xEDB_8832);
    Digit(0xEDB_8832, 28, false, true, false, false, 0xED_B883);
    Digit(0xED_B883, 24, true, true, false, false, 0xE_DB88);
    Digit(0xE_DB88, 20, false, false, false, true, 0xEDB8);
  }

  lemma GeneratorEnds()
    ensures BitsOf(0xEDB8, 16) == [false, false, false, true] + ([true, true, false, true]
              + ([true, false, true, true] + ([false, true, true, true] + [])))
  {
    Digit(0xEDB8, 16, false, false, false, true, 0xEDB);
    Digit(0xEDB, 12, true, true, false, true, 0xED);
    Digit(0xED, 8, true, false, true, true, 0xE);
    Digit(0xE, 4, false, true, true, true, 0);
  }

  lemma Digits(low: bits, high: bits)
    requires low == [false, false, false, true] + ([true, true, false, true] + ([true, false, true, true] + ([false, true, true, true] + [])))
    requires high == [false, false, false, false] + ([false, true, false, false]
              + ([true, true, false, false] + ([false, false, false, true] + low)))
    ensures high == GENERATOR
  {
  }

  lemma GeneratorIs()
    ensures BitsOf(POLYNOMIAL, 32) == GENERATOR
  {
    GeneratorStarts();
    GeneratorEnds();
    Digits(BitsOf(0xEDB8, 16), BitsOf(POLYNOMIAL, 32));
  }

  lemma OnesAre()
    ensures BitsOf(ONES, 32) == Complement(Zeros(32))
  {
    Digit(0xFFFF_FFFF, 32, true, true, true, true, 0xFFF_FFFF);
    Digit(0xFFF_FFFF, 28, true, true, true, true, 0xFF_FFFF);
    Digit(0xFF_FFFF, 24, true, true, true, true, 0xF_FFFF);
    Digit(0xF_FFFF, 20, true, true, true, true, 0xFFFF);
    Digit(0xFFFF, 16, true, true, true, true, 0xFFF);
    Digit(0xFFF, 12, true, true, true, true, 0xFF);
    Digit(0xFF, 8, true, true, true, true, 0xF);
    Digit(0xF, 4, true, true, true, true, 0);
  }

  // The register.

  /** The register's contents, as bits. */
  function List(w: word): (s: bits)
    ensures |s| == 32
  {
    BitsOf(w, 32)
  }

  lemma HalfMoves(w: word)
    ensures List(w)[0] == Low(w) && List(w)[1..] + [false] == List(Half(w))
  {
    HalfFits(w);
    BitsOfMore(w >> 1, 31);
    BitsOfCons(w, 32);
  }

  lemma CarriedIs(x: word)
    ensures Carried(x) == if Low(x) then POLYNOMIAL else 0
  {
    LowBit(x);
  }

  lemma NothingAdded(x: word)
    ensures Xor(x, 0) == x
  {
  }

  /** What the bit shifted out brings back. */
  lemma Brought(r: word, w: word, x: word, h: word)
    requires x == Xor(r, w)
    ensures Xor(h, Carried(x)) == if Low(r) != Low(w) then Xor(h, POLYNOMIAL) else h
  {
    LowOfXor(r, w);
    CarriedIs(x);
    NothingAdded(h);
  }

  lemma StepMoves(s: bits, b: bool, moved: bits)
    requires |s| == 32 && s[1..] + [false] == moved
    ensures Step(s, b) == if s[0] != b then Added(moved, GENERATOR) else moved
  {
  }

  /** A bit of the message taken in. */
  lemma BitTaken(r: word, w: word)
    ensures Step(List(r), Low(w)) == List(Xor(Half(r), Carried(Xor(r, w))))
  {
    HalfMoves(r);
    StepMoves(List(r), Low(w), List(Half(r)));
    Brought(r, w, Xor(r, w), Half(r));
    BitsOfXor(Half(r), POLYNOMIAL, 32);
    GeneratorIs();
  }

  lemma ShiftTaken(r: word, w: word)
    ensures Xor(Xor(Half(r), Carried(Xor(r, w))), Half(w)) == Shift(Xor(r, w))
  {
    HalfOfXor(r, w);
    Swapped(Half(r), Carried(Xor(r, w)), Half(w));
  }

  lemma Swapped(a: word, c: word, b: word)
    ensures Xor(Xor(a, c), b) == Xor(Xor(a, b), c)
  {
    XorAssociates(a, c, b);
    XorCommutes(c, b);
    XorAssociates(a, b, c);
  }

  lemma {:induction false} BitsTaken(r: word, w: word, n: nat)
    requires Fits(w, n)
    ensures Fed(List(r), BitsOf(w, n)) == List(Shifts(CRC32(), Xor(r, w), n))
    decreases n
  {
    if n == 0 {
      XorZero(r);
    } else {
      var r' := Xor(Half(r), Carried(Xor(r, w)));
      BitsOfCons(w, n);
      BitTaken(r, w);
      ShiftTaken(r, w);
      BitsTaken(r', Half(w), n - 1);
    }
  }

  lemma {:induction false} RegisterIsFed(x: word, data: bytes)
    ensures List(Register(CRC32(), x, data)) == Fed(List(x), Message(data))
  {
    if data != [] {
      var front, b := data[..|data| - 1], data[|data| - 1];
      RegisterIsFed(x, front);
      FedAppend(List(x), Message(front), BitsOf(b as word, 8));
      ByteFits(b);
      BitsTaken(Register(CRC32(), x, front), b as word, 8);
    }
  }

  lemma AddedOnes(m: bits)
    requires |m| >= 32
    ensures Added(m, Complement(Zeros(32))) == FirstComplemented(m) && (|m| == 32 ==> FirstComplemented(m) == Complement(m))
  {
  }

  lemma StandardIs(data: bytes, r: bits)
    requires |r| == 32 && Remainder(Added(Message(data) + Zeros(32), Complement(Zeros(32)))) == r
    ensures Standard(data) == Added(r, Complement(Zeros(32)))
  {
    AddedOnes(Message(data) + Zeros(32));
    AddedOnes(r);
  }

  lemma CrcIs(data: bytes)
    ensures Crc(data) == Xor(Register(CRC32(), ONES, data), ONES)
  {
  }

  /** For all data, the checksum computed is the one the standard defines. */
  lemma ChecksumIsStandard(data: bytes)
    ensures BitsOf(Crc(data), 32) == Standard(data)
  {
    var r := Register(CRC32(), ONES, data);
    OnesAre();
    RegisterIsFed(ONES, data);
    FedIsRemainder(List(ONES), Message(data));
    StandardIs(data, List(r));
    CrcIs(data);
    BitsOfXor(r, ONES, 32);
  }

  /** Eight shifts. */
  function Eighth<T(!new)>(shift: T -> T, x: T): T { shift(shift(shift(shift(shift(shift(shift(shift(x)))))))) }

  lemma EighthIs<T(!new)>(m: Machine<T>, x: T)
    ensures Shifts(m, x, 8) == Eighth(m.shift, x)
  {
    var p := m.shift(m.shift(x));
    var q := m.shift(m.shift(p));
    var r := m.shift(m.shift(q));
    EightShifts(m, x, p, q, r, m.shift(m.shift(r)));
  }

  lemma FirstDigits()
    ensures Eighth(Shift, Xor(0xFFFF_FFFF, Of(0x31))) == 0x7C23_1048
    ensures Eighth(Shift, Xor(0x7C23_1048, Of(0x32))) == 0xB0AC_BB32
    ensures Eighth(Shift, Xor(0xB0AC_BB32, Of(0x33))) == 0x77B7_9C2D
  {
  }

  lemma MiddleDigits()
    ensures Eighth(Shift, Xor(0x77B7_9C2D, Of(0x34))) == 0x641C_1F5C
    ensures Eighth(Shift, Xor(0x641C_1F5C, Of(0x35))) == 0x340A_C5E3
    ensures Eighth(Shift, Xor(0x340A_C5E3, Of(0x36))) == 0xF68D_2C9E
  {
  }

  lemma LastDigits()
    ensures Eighth(Shift, Xor(0xF68D_2C9E, Of(0x37))) == 0xAFFC_9660
    ensures Eighth(Shift, Xor(0xAFFC_9660, Of(0x38))) == 0x651F_2550
    ensures Eighth(Shift, Xor(0x651F_2550, Of(0x39))) == 0x340B_C6D9
  {
  }

  /** A register that each byte takes to the next in a list ends in the last of it. */
  lemma {:induction false} RegisterRuns<T(!new)>(m: Machine<T>, d: bytes, contents: seq<T>)
    requires |contents| == |d| + 1
    requires forall i :: 0 <= i < |d| ==> contents[i + 1] == Eighth(m.shift, m.mix(contents[i], m.of(d[i])))
    ensures Register(m, contents[0], d) == contents[|d|]
  {
    if d != [] {
      var n := |d| - 1;
      RegisterRuns(m, d[..n], contents[..|d|]);
      EighthIs(m, m.mix(contents[n], m.of(d[n])));
    }
  }

  /** The check value of the catalogue entry, for the digits 1 to 9. */
  lemma CheckValue()
    ensures Crc([0x31, 0x32, 0x33, 0x34, 0x35, 0x36, 0x37, 0x38, 0x39]) == 0xCBF4_3926
  {
    var d: bytes := [0x31, 0x32, 0x33, 0x34, 0x35, 0x36, 0x37, 0x38, 0x39];
    var contents: seq<word> := [0xFFFF_FFFF, 0x7C23_1048, 0xB0AC_BB32, 0x77B7_9C2D, 0x641C_1F5C,
                                0x340A_C5E3, 0xF68D_2C9E, 0xAFFC_9660, 0x651F_2550, 0x340B_C6D9];
    FirstDigits();
    MiddleDigits();
    LastDigits();
    RegisterRuns(CRC32(), d, contents);
  }
}
