/** Fixed-width integers, byte strings and the arithmetic the drivers share. */
module Bytes {
  type u8 = x: int | 0 <= x < 0x100
  type u16 = x: int | 0 <= x < 0x1_0000

  const U8_RANGE := 0x100
  const U16_RANGE := 0x1_0000
  const U32_RANGE := 0x1_0000_0000

  /** The length rounded up to whole 32-bit words, `(n+3)&~3`. */
  function Round4(n: nat): (r: nat)
    ensures r % 4 == 0 && n <= r < n + 4
  {
    (n + 3) / 4 * 4
  }

  /** A free-running 8-bit index after n increments. */
  function Plus8(index: u8, n: nat): u8
    requires n < U8_RANGE
  {
    if index + n < U8_RANGE then index + n else index + n - U8_RANGE
  }

  lemma Plus8Difference(index: u8, n: nat)
    requires n < U8_RANGE
    ensures (Plus8(index, n) - index) % U8_RANGE == n
  {
  }

  /** Counting up to n in whole words stops at the rounded length. */
  lemma WordSteps(i: nat, n: nat)
    requires i % 4 == 0 && i <= Round4(n)
    ensures if i < n then i + 4 <= Round4(n) else i == Round4(n)
  {
  }

  /** Exchanges the two bytes of a 16-bit word: htons and ntohs on a little-endian machine. */
  function Htons(n: u16): (r: u16)
    ensures r % 0x100 == n / 0x100 && r / 0x100 == n % 0x100
  {
    n % 0x100 * 0x100 + n / 0x100
  }

  /** The two bytes a little-endian machine leaves in memory when it stores a 16-bit word. */
  function Store16(n: u16): (b: seq<u8>)
    ensures |b| == 2
  {
    [n % 0x100, n / 0x100]
  }

  /** The two bytes of a 16-bit word in network order. */
  function Wire16(n: u16): (b: seq<u8>)
    ensures |b| == 2
  {
    [n / 0x100, n % 0x100]
  }

  /** Storing a word swapped by htons puts it in network order. */
  lemma StoreHtons(n: u16)
    ensures Store16(Htons(n)) == Wire16(n)
    ensures Htons(Htons(n)) == n
  {
  }

  function Sum(s: seq<nat>): nat {
    if s == [] then 0 else s[0] + Sum(s[1..])
  }

  lemma {:induction false} SumLast(s: seq<nat>, n: nat)
    ensures Sum(s + [n]) == Sum(s) + n
  {
    if s == [] {
      assert [n][1..] == [];
    } else {
      SumLast(s[1..], n);
      assert (s + [n])[1..] == s[1..] + [n];
    }
  }

  lemma Assoc<T>(a: seq<T>, b: seq<T>, c: seq<T>)
    ensures a + b + c == a + (b + c)
  {
  }

  lemma SliceOfSlice<T>(s: seq<T>, i: nat, j: nat, a: nat, b: nat)
    requires i <= j <= |s| && a <= b <= j - i
    ensures s[i..j][a..b] == s[i + a..i + b]
  {
    assert forall k :: 0 <= k < b - a ==> s[i..j][a..b][k] == s[i..j][a + k] == s[i + a..i + b][k];
  }

  function Bit(word: bv16, i: nat): bool
    requires i < WORD_BITS
  {
    (word >> i) & 1 == 1
  }

  const WORD_BITS: nat := 16

  /** How many of the lowest n bits of a status word are set. */
  function BitsBelow(word: bv16, n: nat): (r: nat)
    requires n <= WORD_BITS
    ensures r <= n
  {
    if n == 0 then 0 else BitsBelow(word, n - 1) + if Bit(word, n - 1) then 1 else 0
  }

  /** How many bits of a status word are set. */
  function BitCount(word: bv16): nat {
    BitsBelow(word, WORD_BITS)
  }

  /** What a 32-bit counter holds after n increments. */
  function Wrap32(n: nat): (r: nat)
    ensures r < U32_RANGE && (n < U32_RANGE ==> r == n)
  {
    n % U32_RANGE
  }

  function Wrap16(n: nat): (r: nat)
    ensures r < U16_RANGE && (n < U16_RANGE ==> r == n)
  {
    n % U16_RANGE
  }

  /** A wrapped count goes on counting. */
  lemma Wrap32Again(n: nat, k: nat)
    ensures Wrap32(Wrap32(n) + k) == Wrap32(n + k)
  {
  }

  lemma Wrap16Again(n: nat, k: nat)
    ensures Wrap16(Wrap16(n) + k) == Wrap16(n + k)
  {
  }

  /** The loop both interrupt handlers run over a bad status word: one increment per set bit. */
  method CountBits(word: bv16) returns (increments: nat)
    ensures increments == BitCount(word)
  {
    increments := 0;
    for i := 0 to WORD_BITS
      invariant increments == BitsBelow(word, i)
    {
      if Bit(word, i) {
        increments := increments + 1;
      }
    }
  }
}
