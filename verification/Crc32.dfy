/**
 The chunks' CRC-32 (IEEE 802.3, reflected), bit by bit, and the errors it cannot miss. The argument
 about bytes is made for any shift register that is linear and loses nothing; the bit-level facts
 about this one are proved separately.
 */
module Crc32 {
  import opened Bytes

  type word = bv32

  const POLYNOMIAL: word := 0xEDB8_8320
  const ONES: word := 0xFFFF_FFFF

  /** A register: one shift, the mixing of two contents, and a byte as contents. */
  datatype Machine<!T(!new)> = Machine(shift: T -> T, mix: (T, T) -> T, of: byte -> T)

  /** One step of dividing by the polynomial. */
  function Shift(crc: word): word { Xor(Half(crc), Carried(crc)) }

  function Half(crc: word): word { crc >> 1 }

  /** What the bit shifted out brings back in. */
  function Carried(crc: word): word { if crc & 1 == 0 then 0 else POLYNOMIAL }

  function Xor(a: word, b: word): word { a ^ b }

  function Of(b: byte): word { b as word }

  function Shifts<T(!new)>(m: Machine<T>, x: T, n: nat): T
    decreases n
  {
    if n == 0 then x else Shifts(m, m.shift(x), n - 1)
  }

  /** The register after taking in some bytes. */
  function Register<T(!new)>(m: Machine<T>, x: T, data: bytes): T {
    if data == [] then x
    else Shifts(m, m.mix(Register(m, x, data[..|data| - 1]), m.of(data[|data| - 1])), 8)
  }

  function CRC32(): Machine<word> { Machine(Shift, Xor, Of) }

  function Crc(data: bytes): word { Register(CRC32(), ONES, data) ^ ONES }

  // Any register.

  ghost predicate Lossless<T(!new)>(m: Machine<T>) { forall a, b :: m.shift(a) == m.shift(b) ==> a == b }

  ghost predicate Cancels<T(!new)>(m: Machine<T>) {
    && (forall a, b, c :: m.mix(a, b) == m.mix(a, c) ==> b == c)
    && (forall a, b, c :: m.mix(b, a) == m.mix(c, a) ==> b == c)
  }

  ghost predicate Linear<T(!new)>(m: Machine<T>) {
    forall a, b {:trigger m.shift(m.mix(a, b))} :: m.shift(m.mix(a, b)) == m.mix(m.shift(a), m.shift(b))
  }

  lemma {:induction false} ShiftsLossless<T(!new)>(m: Machine<T>, a: T, b: T, n: nat)
    requires Lossless(m) && Shifts(m, a, n) == Shifts(m, b, n)
    ensures a == b
    decreases n
  {
    if n > 0 { ShiftsLossless(m, m.shift(a), m.shift(b), n - 1); }
  }

  lemma {:induction false} ShiftsLinear<T(!new)>(m: Machine<T>, a: T, b: T, n: nat)
    requires Linear(m)
    ensures Shifts(m, m.mix(a, b), n) == m.mix(Shifts(m, a, n), Shifts(m, b, n))
    decreases n
  {
    if n > 0 { ShiftsLinear(m, m.shift(a), m.shift(b), n - 1); }
  }

  lemma {:induction false} ShiftsAdd<T(!new)>(m: Machine<T>, x: T, j: nat, n: nat)
    ensures Shifts(m, Shifts(m, x, j), n) == Shifts(m, x, j + n)
    decreases j
  {
    if j > 0 { ShiftsAdd(m, m.shift(x), j - 1, n); }
  }

  lemma {:induction false} RegisterAppend<T(!new)>(m: Machine<T>, x: T, a: bytes, b: bytes)
    ensures Register(m, x, a + b) == Register(m, Register(m, x, a), b)
  {
    if b == [] {
      assert a + b == a;
    } else {
      var front := b[..|b| - 1];
      RegisterAppend(m, x, a, front);
      assert (a + b)[..|a + b| - 1] == a + front;
    }
  }

  /** Two registers that differ still differ after the same bytes. */
  lemma {:induction false} RegisterLossless<T(!new)>(m: Machine<T>, x: T, y: T, data: bytes)
    requires Lossless(m) && Cancels(m) && Register(m, x, data) == Register(m, y, data)
    ensures x == y
  {
    if data != [] {
      var front, b := data[..|data| - 1], m.of(data[|data| - 1]);
      ShiftsLossless(m, m.mix(Register(m, x, front), b), m.mix(Register(m, y, front), b), 8);
      RegisterLossless(m, x, y, front);
    }
  }

  /** `place(b, k)` is contents that `8 * k` shifts turn into byte `b`. */
  predicate ArrivesAt<T(!new, ==)>(m: Machine<T>, place: (byte, nat) -> T, b: byte, k: nat) {
    Shifts(m, place(b, k), 8 * k) == m.of(b)
  }

  ghost predicate Arrives<T(!new)>(m: Machine<T>, place: (byte, nat) -> T, limit: nat) {
    forall b: byte, k: nat :: k < limit ==> ArrivesAt(m, place, b, k)
  }

  /** A few bytes as contents taken in at once. */
  function Spread<T(!new)>(m: Machine<T>, place: (byte, nat) -> T, x: T, w: bytes): T {
    if w == [] then x else m.mix(Spread(m, place, x, w[..|w| - 1]), place(w[|w| - 1], |w| - 1))
  }

  /** Taking bytes in one after the other is taking them in at once and then shifting. */
  lemma {:induction false} WindowAtOnce<T(!new)>(m: Machine<T>, place: (byte, nat) -> T, limit: nat, x: T, w: bytes)
    requires Linear(m) && Arrives(m, place, limit) && |w| <= limit
    ensures Register(m, x, w) == Shifts(m, Spread(m, place, x, w), 8 * |w|)
  {
    if w != [] {
      var k := |w| - 1;
      WindowAtOnce(m, place, limit, x, w[..k]);
      var front := Spread(m, place, x, w[..k]);
      ShiftsLinear(m, front, place(w[k], k), 8 * k);
      assert ArrivesAt(m, place, w[k], k);
      ShiftsAdd(m, m.mix(front, place(w[k], k)), 8 * k, 8);
    }
  }

  // This register.

  lemma LowBit(crc: word)
    ensures crc & 1 == 0 || crc & 1 == 1
  {
  }

  lemma MaskOfBit(bit: word)
    requires bit == 0 || bit == 1
    ensures POLYNOMIAL & (0 - bit) == if bit == 0 then 0 else POLYNOMIAL
  {
  }

  lemma XorZero(x: word)
    ensures x ^ 0 == x
  {
  }

  /** The branch-free form of a shift. */
  lemma MaskedShift(crc: word)
    ensures (crc >> 1) ^ (POLYNOMIAL & (0 - (crc & 1))) == Shift(crc)
  {
    LowBit(crc);
    MaskOfBit(crc & 1);
    XorZero(crc >> 1);
  }

  lemma HalfOfXor(a: word, b: word)
    ensures Half(Xor(a, b)) == Xor(Half(a), Half(b))
  {
  }

  lemma CarriedByXor(a: word, b: word)
    ensures Carried(Xor(a, b)) == Xor(Carried(a), Carried(b))
  {
    LowBit(a);
    LowBit(b);
  }

  lemma XorCommutes(a: word, b: word)
    ensures Xor(a, b) == Xor(b, a)
  {
  }

  lemma XorAssociates(a: word, b: word, c: word)
    ensures Xor(Xor(a, b), c) == Xor(a, Xor(b, c))
  {
  }

  /** A shift is linear if its two parts are. */
  lemma PartsLinear<T(!new)>(shift: T -> T, half: T -> T, carried: T -> T, mix: (T, T) -> T)
    requires forall x :: shift(x) == mix(half(x), carried(x))
    requires forall a, b :: half(mix(a, b)) == mix(half(a), half(b))
    requires forall a, b :: carried(mix(a, b)) == mix(carried(a), carried(b))
    requires forall a, b :: mix(a, b) == mix(b, a)
    requires forall a, b, c :: mix(mix(a, b), c) == mix(a, mix(b, c))
    ensures forall a, b :: shift(mix(a, b)) == mix(shift(a), shift(b))
  {
    forall a, b
      ensures shift(mix(a, b)) == mix(shift(a), shift(b))
    {
      var x, y, p, q := half(a), half(b), carried(a), carried(b);
      assert mix(mix(x, y), mix(p, q)) == mix(x, mix(mix(y, p), q)) == mix(x, mix(mix(p, y), q)) == mix(mix(x, p), mix(y, q));
    }
  }

  lemma ShiftLinear()
    ensures forall a, b :: Shift(Xor(a, b)) == Xor(Shift(a), Shift(b))
  {
    forall a, b ensures Half(Xor(a, b)) == Xor(Half(a), Half(b)) { HalfOfXor(a, b); }
    forall a, b ensures Carried(Xor(a, b)) == Xor(Carried(a), Carried(b)) { CarriedByXor(a, b); }
    forall a, b ensures Xor(a, b) == Xor(b, a) { XorCommutes(a, b); }
    forall a, b, c ensures Xor(Xor(a, b), c) == Xor(a, Xor(b, c)) { XorAssociates(a, b, c); }
    PartsLinear(Shift, Half, Carried, Xor);
  }

  lemma ShiftLosesNothing(a: word, b: word)
    ensures Shift(a) == Shift(b) ==> a == b
  {
  }

  lemma XorCancels(a: word, b: word, c: word)
    ensures Xor(a, b) == Xor(a, c) ==> b == c
    ensures Xor(b, a) == Xor(c, a) ==> b == c
  {
  }

  lemma Crc32Machine()
    ensures Lossless(CRC32()) && Cancels(CRC32()) && Linear(CRC32())
  {
    var m := CRC32();
    ShiftLinear();
    forall a, b | m.shift(a) == m.shift(b)
      ensures a == b
    {
      ShiftLosesNothing(a, b);
    }
    forall a, b, c
      ensures m.mix(a, b) == m.mix(a, c) ==> b == c
      ensures m.mix(b, a) == m.mix(c, a) ==> b == c
    {
      XorCancels(a, b, c);
    }
  }

  method ShiftMasked(crc: word) returns (r: word)
    ensures r == Shift(crc)
  {
    MaskedShift(crc);
    r := (crc >> 1) ^ (POLYNOMIAL & (0 - (crc & 1)));
  }

  method TakeByte(crc: word, b: byte) returns (r: word)
    ensures r == Shifts(CRC32(), Xor(crc, Of(b)), 8)
  {
    r := Xor(crc, Of(b));
    var bit := 0;
    while bit < 8
      invariant bit <= 8 && Shifts(CRC32(), Xor(crc, Of(b)), 8) == Shifts(CRC32(), r, 8 - bit)
    {
      r := ShiftMasked(r);
      bit := bit + 1;
    }
  }

  lemma NextRegister<T(!new)>(m: Machine<T>, x: T, data: bytes, i: nat)
    requires i < |data|
    ensures Register(m, x, data[..i + 1]) == Shifts(m, m.mix(Register(m, x, data[..i]), m.of(data[i])), 8)
  {
    assert data[..i + 1][..i] == data[..i];
  }

  method Crc32Bytes(data: bytes) returns (crc: word)
    ensures crc == Crc(data)
  {
    crc := ONES;
    var i := 0;
    while i < |data|
      invariant i <= |data| && crc == Register(CRC32(), ONES, data[..i])
    {
      NextRegister(CRC32(), ONES, data, i);
      crc := TakeByte(crc, data[i]);
      i := i + 1;
    }
    assert data[..i] == data;
    crc := crc ^ ONES;
  }

  // Four bytes.

  function Place(b: byte, k: nat): word {
    if k == 0 then b as word else if k == 1 then (b as word) << 8 else if k == 2 then (b as word) << 16
    else if k == 3 then (b as word) << 24 else 0
  }

  /** Contents without a low bit are only moved. */
  ghost predicate Plain(m: Machine<word>) { forall a :: a & 1 == 0 ==> m.shift(a) == a >> 1 }

  lemma TwoDown(m: Machine<word>, p: word, q: word)
    requires Plain(m) && p & 3 == 0 && q == p >> 2
    ensures Shifts(m, p, 2) == q
  {
    assert m.shift(m.shift(p)) == p >> 2;
  }

  lemma ClearBits(p: word)
    ensures p & 0xFF == 0 ==> p & 3 == 0 && (p >> 2) & 0x3F == 0
    ensures p & 0x3F == 0 ==> p & 3 == 0 && (p >> 2) & 0xF == 0
    ensures p & 0xF == 0 ==> p & 3 == 0 && (p >> 2) & 3 == 0
  {
  }

  lemma FourMoves(p: word)
    ensures (((p >> 2) >> 2) >> 2) >> 2 == p >> 8
  {
  }

  lemma EightShifts<T(!new)>(m: Machine<T>, p: T, q: T, r: T, s: T, t: T)
    requires Shifts(m, p, 2) == q && Shifts(m, q, 2) == r && Shifts(m, r, 2) == s && Shifts(m, s, 2) == t
    ensures Shifts(m, p, 8) == t
  {
    ShiftsAdd(m, p, 2, 6);
    ShiftsAdd(m, q, 2, 4);
    ShiftsAdd(m, r, 2, 2);
  }

  lemma ByteDown(m: Machine<word>, p: word)
    requires Plain(m) && p & 0xFF == 0
    ensures Shifts(m, p, 8) == p >> 8
  {
    var q := p >> 2;
    var r := q >> 2;
    var s := r >> 2;
    var t := s >> 2;
    ClearBits(p);
    ClearBits(q);
    ClearBits(r);
    FourMoves(p);
    TwoDown(m, p, q);
    TwoDown(m, q, r);
    TwoDown(m, r, s);
    TwoDown(m, s, t);
    EightShifts(m, p, q, r, s, t);
  }

  lemma PlaceBits(b: byte, k: nat)
    requires 0 < k < 4
    ensures Place(b, k) & 0xFF == 0 && Place(b, k) >> 8 == Place(b, k - 1)
  {
  }

  lemma {:induction false} PlaceArrives(m: Machine<word>, b: byte, k: nat)
    requires Plain(m) && k < 4
    ensures Shifts(m, Place(b, k), 8 * k) == b as word
  {
    if k > 0 {
      PlaceBits(b, k);
      ByteDown(m, Place(b, k));
      ShiftsAdd(m, Place(b, k), 8, 8 * (k - 1));
      PlaceArrives(m, b, k - 1);
    }
  }

  lemma Crc32Arrives()
    ensures Arrives(CRC32(), Place, 4)
  {
    forall b: byte, k: nat | k < 4
      ensures ArrivesAt(CRC32(), Place, b, k)
    {
      PlaceArrives(CRC32(), b, k);
    }
  }

  function ByteAt(w: bytes, i: nat): byte { if i < |w| then w[i] else 0 }

  /** The bytes of a window as one word, mixed with `x`. */
  function Window(x: word, a: byte, b: byte, c: byte, d: byte): word {
    x ^ Place(a, 0) ^ Place(b, 1) ^ Place(c, 2) ^ Place(d, 3)
  }

  lemma WindowInjective(x: word, a: byte, b: byte, c: byte, d: byte, a': byte, b': byte, c': byte, d': byte)
    requires Window(x, a, b, c, d) == Window(x, a', b', c', d')
    ensures a == a' && b == b' && c == c' && d == d'
  {
  }

  lemma WindowStarts(x: word)
    ensures Window(x, 0, 0, 0, 0) == x
  {
  }

  lemma WindowTakes0(x: word, a: byte)
    ensures Xor(Window(x, 0, 0, 0, 0), Place(a, 0)) == Window(x, a, 0, 0, 0)
  {
  }

  lemma WindowTakes1(x: word, a: byte, b: byte)
    ensures Xor(Window(x, a, 0, 0, 0), Place(b, 1)) == Window(x, a, b, 0, 0)
  {
  }

  lemma WindowTakes2(x: word, a: byte, b: byte, c: byte)
    ensures Xor(Window(x, a, b, 0, 0), Place(c, 2)) == Window(x, a, b, c, 0)
  {
  }

  lemma WindowTakes3(x: word, a: byte, b: byte, c: byte, d: byte)
    ensures Xor(Window(x, a, b, c, 0), Place(d, 3)) == Window(x, a, b, c, d)
  {
  }

  lemma WindowGrows(x: word, a: byte, b: byte, c: byte, d: byte)
    ensures Window(x, 0, 0, 0, 0) == x
    ensures Xor(Window(x, 0, 0, 0, 0), Place(a, 0)) == Window(x, a, 0, 0, 0)
    ensures Xor(Window(x, a, 0, 0, 0), Place(b, 1)) == Window(x, a, b, 0, 0)
    ensures Xor(Window(x, a, b, 0, 0), Place(c, 2)) == Window(x, a, b, c, 0)
    ensures Xor(Window(x, a, b, c, 0), Place(d, 3)) == Window(x, a, b, c, d)
  {
    WindowStarts(x);
    WindowTakes0(x, a);
    WindowTakes1(x, a, b);
    WindowTakes2(x, a, b, c);
    WindowTakes3(x, a, b, c, d);
  }

  lemma {:induction false} SpreadIsWindow(x: word, w: bytes)
    requires |w| <= 4
    ensures Spread(CRC32(), Place, x, w) == Window(x, ByteAt(w, 0), ByteAt(w, 1), ByteAt(w, 2), ByteAt(w, 3))
  {
    WindowGrows(x, ByteAt(w, 0), ByteAt(w, 1), ByteAt(w, 2), ByteAt(w, 3));
    if w != [] { SpreadIsWindow(x, w[..|w| - 1]); }
  }

  lemma SpreadInjective(x: word, w: bytes, v: bytes)
    requires |w| == |v| <= 4 && Spread(CRC32(), Place, x, w) == Spread(CRC32(), Place, x, v)
    ensures w == v
  {
    SpreadIsWindow(x, w);
    SpreadIsWindow(x, v);
    WindowInjective(x, ByteAt(w, 0), ByteAt(w, 1), ByteAt(w, 2), ByteAt(w, 3),
                    ByteAt(v, 0), ByteAt(v, 1), ByteAt(v, 2), ByteAt(v, 3));
    assert forall i: nat :: i < |w| ==> ByteAt(w, i) == w[i] && ByteAt(v, i) == v[i];
  }

  lemma WindowsAgree<T(!new)>(m: Machine<T>, place: (byte, nat) -> T, x: T, before: bytes, w: bytes, v: bytes, after: bytes)
    requires Lossless(m) && Cancels(m) && Linear(m) && Arrives(m, place, 4) && |w| == |v| <= 4
    requires Register(m, x, before + w + after) == Register(m, x, before + v + after)
    ensures Spread(m, place, Register(m, x, before), w) == Spread(m, place, Register(m, x, before), v)
  {
    var c := Register(m, x, before);
    RegisterAppend(m, x, before + w, after);
    RegisterAppend(m, x, before + v, after);
    RegisterLossless(m, Register(m, x, before + w), Register(m, x, before + v), after);
    RegisterAppend(m, x, before, w);
    RegisterAppend(m, x, before, v);
    WindowAtOnce(m, place, 4, c, w);
    WindowAtOnce(m, place, 4, c, v);
    ShiftsLossless(m, Spread(m, place, c, w), Spread(m, place, c, v), 8 * |w|);
  }

  lemma OnesCancel(a: word, b: word)
    requires a ^ ONES == b ^ ONES
    ensures a == b
  {
  }

  /** An error within four consecutive bytes of a payload, of any length, always changes its CRC. */
  lemma WindowErrorsShow(before: bytes, w: bytes, v: bytes, after: bytes)
    requires |w| == |v| <= 4 && w != v
    ensures Crc(before + w + after) != Crc(before + v + after)
  {
    if Crc(before + w + after) == Crc(before + v + after) {
      OnesCancel(Register(CRC32(), ONES, before + w + after), Register(CRC32(), ONES, before + v + after));
      Crc32Machine();
      Crc32Arrives();
      WindowsAgree(CRC32(), Place, ONES, before, w, v, after);
      SpreadInjective(Register(CRC32(), ONES, before), w, v);
    }
  }
}
