/**
 Counter mode as the radio frames use it (section 6.5 of NIST SP 800-38A): the frame's transmission
 counter fills the first four bytes of the counter block, and the block is incremented as one
 big-endian number. The block cipher under its key is an arbitrary function.
 */
module CtrMode {
  import opened Seqs
  import opened Octets
  import opened Bytes

  const BLOCK: nat := 16
  const TWO32: nat := 0x1_0000_0000

  /** Byte `j` of the encryption of a counter block. */
  type Cipher = (octets, nat) -> byte

  function Pow256(n: nat): (p: nat)
    ensures p > 0
  {
    if n == 0 then 1 else 0x100 * Pow256(n - 1)
  }

  /** `n` in `size` big-endian bytes. */
  function Digits(n: nat, size: nat): (s: octets)
    ensures |s| == size
  {
    if size == 0 then [] else Digits(n / 0x100, size - 1) + [n % 0x100]
  }

  function Increment(c: octets): (r: octets)
    ensures |r| == |c|
  {
    if c == [] then []
    else if c[|c| - 1] < 0xFF then c[..|c| - 1] + [c[|c| - 1] + 1]
    else Increment(c[..|c| - 1]) + [0]
  }

  /** The transmission counter, least significant byte first. */
  function Nonce(tx: nat): (s: octets)
    ensures |s| == 4
  {
    [tx % 0x100, tx / 0x100 % 0x100, tx / 0x1_0000 % 0x100, tx / 0x100_0000 % 0x100]
  }

  /** The counter block of a frame's block `i`. */
  function CounterAt(tx: nat, i: nat): (s: octets)
    ensures |s| == BLOCK
  {
    if i == 0 then Nonce(tx) + Digits(0, 12) else Increment(CounterAt(tx, i - 1))
  }

  function Crypt(cipher: Cipher, tx: nat, input: bytes): bytes {
    seq(|input|, k requires 0 <= k < |input| => input[k] ^ cipher(CounterAt(tx, k / BLOCK), k % BLOCK))
  }

  /** Incrementing counts, as long as the bytes behind `prefix` can. */
  lemma {:induction false} IncrementCounts(prefix: octets, n: nat, size: nat)
    requires n + 1 < Pow256(size)
    ensures Increment(prefix + Digits(n, size)) == prefix + Digits(n + 1, size)
  {
    if size > 0 {
      var hi, lo := n / 0x100, n % 0x100;
      Assoc(prefix, Digits(hi, size - 1), [lo]);
      IncrementLast(prefix + Digits(hi, size - 1), lo);
      NextDigit(n);
      if lo < 0xFF {
        Assoc(prefix, Digits(hi, size - 1), [lo + 1]);
      } else {
        IncrementCounts(prefix, hi, size - 1);
        Assoc(prefix, Digits(hi + 1, size - 1), [0]);
      }
    }
  }

  lemma NextDigit(n: nat)
    ensures if n % 0x100 < 0xFF then (n + 1) / 0x100 == n / 0x100 && (n + 1) % 0x100 == n % 0x100 + 1
            else (n + 1) / 0x100 == n / 0x100 + 1 && (n + 1) % 0x100 == 0
  {
  }

  lemma IncrementLast(front: octets, last: octet)
    ensures Increment(front + [last]) == if last < 0xFF then front + [last + 1] else Increment(front) + [0]
  {
    assert (front + [last])[..|front|] == front;
  }

  lemma {:induction false} DigitsValue(n: nat, size: nat)
    requires n < Pow256(size)
    ensures BigEndian(Digits(n, size)) == n
  {
    if size > 0 {
      DigitsValue(n / 0x100, size - 1);
      assert Digits(n, size)[..size - 1] == Digits(n / 0x100, size - 1);
    }
  }

  /** The carry never reaches the transmission counter: block `i` is the nonce followed by `i`. */
  lemma {:induction false} CounterIs(tx: nat, i: nat)
    requires i < Pow256(12)
    ensures CounterAt(tx, i) == Nonce(tx) + Digits(i, 12)
  {
    if i > 0 {
      CounterIs(tx, i - 1);
      IncrementCounts(Nonce(tx), i - 1, 12);
    }
  }

  lemma NonceInjective(t: nat, u: nat)
    requires t < TWO32 && u < TWO32 && Nonce(t) == Nonce(u)
    ensures t == u
  {
    NonceValue(t);
    NonceValue(u);
  }

  function NonceSum(a: int, b: int, c: int, d: int): int { a + 0x100 * b + 0x1_0000 * c + 0x100_0000 * d }

  lemma NonceValue(t: nat)
    requires t < TWO32
    ensures NonceSum(Nonce(t)[0], Nonce(t)[1], Nonce(t)[2], Nonce(t)[3]) == t
  {
    var a := t / 0x100;
    var b := a / 0x100;
    assert t / 0x1_0000 == b;
    assert t / 0x100_0000 == b / 0x100;
    assert t == a * 0x100 + t % 0x100 && a == b * 0x100 + a % 0x100 && b == b / 0x100 * 0x100 + b % 0x100;
  }

  /** No two blocks of any frames are encrypted under the same counter block. */
  lemma CountersDiffer(t: nat, i: nat, u: nat, j: nat)
    requires t < TWO32 && u < TWO32 && i < Pow256(12) && j < Pow256(12)
    ensures CounterAt(t, i) == CounterAt(u, j) <==> t == u && i == j
  {
    CounterIs(t, i);
    CounterIs(u, j);
    if CounterAt(t, i) == CounterAt(u, j) {
      assert CounterAt(t, i)[..4] == Nonce(t) && CounterAt(u, j)[..4] == Nonce(u);
      assert CounterAt(t, i)[4..] == Digits(i, 12) && CounterAt(u, j)[4..] == Digits(j, 12);
      NonceInjective(t, u);
      DigitsValue(i, 12);
      DigitsValue(j, 12);
    }
  }

  const TWO96: nat := 0x1_0000_0000_0000_0000_0000_0000

  lemma TwelveBytes()
    ensures Pow256(12) == TWO96
  {
    assert Pow256(4) == 0x1_0000_0000;
    assert Pow256(8) == 0x1_0000_0000_0000_0000;
  }

  /** The counter block that byte `k` of a frame is encrypted under: the transmission counter, and the byte's block as a big-endian number. */
  function BlockOf(tx: nat, k: nat): octets { Nonce(tx) + Digits(k / BLOCK, 12) }

  /** Byte `k` is combined with its own place in the encryption of its own block. */
  lemma CryptedByte(cipher: Cipher, tx: nat, input: bytes, k: nat)
    requires k < |input| && k / BLOCK < TWO96
    ensures Crypt(cipher, tx, input)[k] == input[k] ^ cipher(BlockOf(tx, k), k % BLOCK)
  {
    TwelveBytes();
    CounterIs(tx, k / BLOCK);
  }

  /** Every byte that 96 bits of block number reach is combined with its own place in the encryption of its own block. */
  predicate EachCrypted(cipher: Cipher, tx: nat, input: bytes, output: bytes) {
    |output| == |input|
    && forall k :: 0 <= k < |input| && k / BLOCK < TWO96 ==> output[k] == input[k] ^ cipher(BlockOf(tx, k), k % BLOCK)
  }

  lemma CryptedBytes(cipher: Cipher, tx: nat, input: bytes)
    ensures EachCrypted(cipher, tx, input, Crypt(cipher, tx, input))
  {
    var output := Crypt(cipher, tx, input);
    forall k | 0 <= k < |input| && k / BLOCK < TWO96
      ensures output[k] == input[k] ^ cipher(BlockOf(tx, k), k % BLOCK)
    {
      CryptedByte(cipher, tx, input, k);
    }
  }

  /** Two bytes are encrypted under the same counter block exactly if they are in the same block of the same frame. */
  lemma BlocksApart(t: nat, k: nat, u: nat, j: nat)
    requires t < TWO32 && u < TWO32 && k / BLOCK < TWO96 && j / BLOCK < TWO96
    ensures BlockOf(t, k) == BlockOf(u, j) <==> t == u && k / BLOCK == j / BLOCK
  {
    TwelveBytes();
    CounterIs(t, k / BLOCK);
    CounterIs(u, j / BLOCK);
    CountersDiffer(t, k / BLOCK, u, j / BLOCK);
  }

  lemma XorTwice(x: byte, k: byte)
    ensures x ^ k ^ k == x
  {
  }

  /** Crypting twice under the same counter gives the text back, whatever its length. */
  lemma CryptTwice(cipher: Cipher, tx: nat, input: bytes)
    ensures Crypt(cipher, tx, Crypt(cipher, tx, input)) == input
  {
    forall k | 0 <= k < |input|
      ensures Crypt(cipher, tx, Crypt(cipher, tx, input))[k] == input[k]
    {
      XorTwice(input[k], cipher(CounterAt(tx, k / BLOCK), k % BLOCK));
    }
  }

  method IncrementCounter(counter: array<octet>)
    modifies counter
    ensures counter[..] == Increment(old(counter[..]))
  {
    var i := counter.Length;
    ghost var was := counter[..];
    assert was[..i] == was;
    while i > 0
      invariant i <= counter.Length && counter[..i] == was[..i]
      invariant Increment(was[..i]) + counter[i..] == Increment(was)
    {
      i := i - 1;
      ghost var front, tail := was[..i], counter[i + 1..];
      assert was[..i + 1][..i] == front;
      counter[i] := if counter[i] == 0xFF then 0 else counter[i] + 1;
      assert counter[i..] == [counter[i]] + tail;
      if counter[i] != 0 {
        assert counter[..] == front + counter[i..];
        return;
      }
      assert Increment(front) + ([0] + tail) == Increment(front) + [0] + tail;
    }
  }

  method Aes256CtrCrypt(cipher: Cipher, tx: nat, input: bytes, output: array<byte>)
    requires output.Length == |input|
    modifies output
    ensures output[..] == Crypt(cipher, tx, input)
    ensures EachCrypted(cipher, tx, input, output[..])
  {
    var counter := NewCounter(tx);
    var offset, block: nat := 0, 0;
    ghost var crypted := Crypt(cipher, tx, input);
    while offset < |input|
      invariant offset == if block * BLOCK < |input| then block * BLOCK else |input|
      invariant counter[..] == CounterAt(tx, block)
      invariant output[..offset] == crypted[..offset]
    {
      var len := if |input| - offset < BLOCK then |input| - offset else BLOCK;
      CryptBlock(cipher, tx, block, counter[..], input, output, offset, len);
      IncrementCounter(counter);
      offset, block := offset + len, block + 1;
    }
    assert output[..offset] == output[..] && crypted[..offset] == crypted;
    CryptedBytes(cipher, tx, input);
  }

  method NewCounter(tx: nat) returns (counter: array<octet>)
    ensures fresh(counter) && counter[..] == CounterAt(tx, 0)
  {
    counter := new octet[BLOCK](k requires 0 <= k < BLOCK => if k < 4 then Nonce(tx)[k] else 0);
    ZeroDigits(12);
  }

  lemma ZeroDigits(size: nat)
    ensures forall k :: 0 <= k < size ==> Digits(0, size)[k] == 0
  {
  }

  method CryptBlock(cipher: Cipher, tx: nat, ghost block: nat, counter: octets, input: bytes, output: array<byte>, offset: nat, len: nat)
    requires offset == block * BLOCK && offset + len <= |input| == output.Length && len <= BLOCK
    requires counter == CounterAt(tx, block) && output[..offset] == Crypt(cipher, tx, input)[..offset]
    modifies output
    ensures output[..offset + len] == Crypt(cipher, tx, input)[..offset + len]
  {
    ghost var crypted := Crypt(cipher, tx, input);
    for i := 0 to len
      invariant output[..offset + i] == crypted[..offset + i]
    {
      InBlock(block, i);
      output[offset + i] := input[offset + i] ^ cipher(counter, i);
      assert output[..offset + i + 1] == output[..offset + i] + [output[offset + i]];
    }
  }

  lemma InBlock(block: nat, i: nat)
    requires i < BLOCK
    ensures (block * BLOCK + i) / BLOCK == block && (block * BLOCK + i) % BLOCK == i
  {
  }
}
