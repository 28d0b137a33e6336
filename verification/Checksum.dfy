/** The Internet checksum computed on little-endian loads. */
module Checksum {
  import opened Bytes

  const ONES := 0xFFFF

  /** The sum the driver forms: 16-bit words as a little-endian machine loads them, an odd byte last. */
  function LeSum(b: seq<u8>): nat {
    if b == [] then 0 else if |b| == 1 then b[0] else b[0] + 0x100 * b[1] + LeSum(b[2..])
  }

  /** The sum RFC 1071 section 1 defines: 16-bit words in network order, an odd byte padded with zero. */
  function BeSum(b: seq<u8>): nat {
    if b == [] then 0 else if |b| == 1 then 0x100 * b[0] else 0x100 * b[0] + b[1] + BeSum(b[2..])
  }

  /** The sum in ones' complement: end-around carries make it congruent modulo 0xFFFF, and 0 only for 0. */
  function Fold(x: nat): (r: u16)
    ensures r == 0 <==> x == 0
    ensures r % ONES == x % ONES
  {
    if x == 0 then 0 else (x - 1) % ONES + 1
  }

  lemma FoldIs(x: nat, r: u16, k: nat)
    requires x == r + ONES * k && (r == 0 ==> k == 0)
    ensures Fold(x) == r
  {
  }

  lemma FoldHas(x: nat) returns (k: nat)
    ensures x == Fold(x) + ONES * k
  {
    k := if x == 0 then 0 else (x - 1) / ONES;
  }

  /** The fold loop: it ends, because each round shortens the sum, and computes the ones' complement sum. */
  method FoldLoop(x: nat) returns (r: u16)
    requires x < U32_RANGE
    ensures r == Fold(x)
  {
    var sum: nat := x;
    while sum / 0x1_0000 != 0
      invariant sum < U32_RANGE && Fold(sum) == Fold(x)
      decreases sum
    {
      FoldRound(sum);
      sum := sum % 0x1_0000 + sum / 0x1_0000;
    }
    r := sum;
    FoldIs(r, r, 0);
  }

  lemma FoldRound(x: nat)
    requires 0x1_0000 <= x
    ensures Fold(x % 0x1_0000 + x / 0x1_0000) == Fold(x) && x % 0x1_0000 + x / 0x1_0000 < x
  {
    var y := x % 0x1_0000 + x / 0x1_0000;
    var k := FoldHas(y);
    FoldIs(x, Fold(y), k + x / 0x1_0000);
  }

  /** The checksum loop over a stretch of a buffer. */
  method Chksum(data: array<u8>, at: nat, len: u16) returns (acc: nat)
    requires at + len <= data.Length
    ensures acc == LeSum(data[at..at + len]) <= 0x8000 * ONES
  {
    acc := 0;
    var left: nat, ptr: nat := len, at;
    ghost var all := data[at..at + len];
    SumFits(all);
    while left > 1
      invariant ptr + left == at + len && at <= ptr
      invariant acc + LeSum(data[ptr..ptr + left]) == LeSum(all)
    {
      var low, high: int := data[ptr], data[ptr + 1];
      assert data[ptr..ptr + left][2..] == data[ptr + 2..ptr + left];
      acc := acc + low + 0x100 * high;
      ptr, left := ptr + 2, left - 2;
    }
    if left == 1 {
      var last: int := data[ptr];
      acc := acc + Htons(last * 0x100);
    }
  }

  lemma {:induction false} SumFits(b: seq<u8>)
    ensures LeSum(b) <= (|b| + 1) / 2 * ONES
  {
    if |b| >= 2 {
      SumFits(b[2..]);
    }
  }

  /** The excess of a byte-swapped sum. */
  function HighSum(b: seq<u8>): nat {
    if b == [] then 0 else if |b| == 1 then b[0] else b[0] + HighSum(b[2..])
  }

  lemma {:induction false} SumsSwap(b: seq<u8>)
    ensures 0x100 * BeSum(b) == LeSum(b) + ONES * HighSum(b)
  {
    if |b| >= 2 {
      SumsSwap(b[2..]);
    }
  }

  lemma {:induction false} NoSumOfNothing(b: seq<u8>)
    ensures LeSum(b) == 0 <==> BeSum(b) == 0
  {
    if |b| >= 2 {
      NoSumOfNothing(b[2..]);
    }
  }

  /** RFC 1071 section 2(B): summing byte-swapped words gives the byte-swapped sum. */
  lemma FoldSwaps(b: seq<u8>)
    ensures Fold(LeSum(b)) == Htons(Fold(BeSum(b)))
  {
    SumsSwap(b);
    NoSumOfNothing(b);
    var k := FoldHas(LeSum(b));
    var l := FoldHas(BeSum(b));
    var f, g := Fold(LeSum(b)), Fold(BeSum(b));
    SwappedResidue(f, g, 0x100 * l - k - HighSum(b));
  }

  /** Two words that are both 0 or both not, one congruent to 256 times the other: one is the other swapped. */
  lemma SwappedResidue(f: u16, g: u16, d: int)
    requires 0x100 * g + ONES * d == f && (f == 0 <==> g == 0)
    ensures f == Htons(g)
  {
  }

  /** The checksum of some bytes as RFC 1071 defines it. */
  function ChecksumOf(b: seq<u8>): u16 {
    ONES - Fold(BeSum(b))
  }

  /** What the driver stores, the complement of its own sum as a little-endian word, is in memory the checksum in
      network order. */
  lemma StoredIsChecksum(b: seq<u8>)
    ensures Store16(ONES - Fold(LeSum(b))) == Wire16(ChecksumOf(b))
  {
    FoldSwaps(b);
    var g := Fold(BeSum(b));
    ComplementSwaps(g);
    StoreHtons(ONES - g);
  }

  lemma ComplementSwaps(g: u16)
    ensures ONES - Htons(g) == Htons(ONES - g)
  {
  }

  lemma {:induction false} SumsJoin(a: seq<u8>, b: seq<u8>)
    requires |a| % 2 == 0
    ensures BeSum(a + b) == BeSum(a) + BeSum(b) && LeSum(a + b) == LeSum(a) + LeSum(b)
  {
    if a == [] {
      assert a + b == b;
    } else {
      SumsJoin(a[2..], b);
      assert (a + b)[2..] == a[2..] + b;
    }
  }

  /** With the checksum of the bytes around a zero field put into that field, the sum over everything is all ones. */
  lemma ReceiverAccepts(before: seq<u8>, after: seq<u8>)
    requires |before| % 2 == 0
    ensures var c := ChecksumOf(before + [0, 0] + after);
            Fold(BeSum(before + Wire16(c) + after)) == ONES
  {
    var zero := before + [0, 0] + after;
    var c := ChecksumOf(zero);
    SumsJoin(before, [0, 0]);
    SumsJoin(before + [0, 0], after);
    SumsJoin(before, Wire16(c));
    SumsJoin(before + Wire16(c), after);
    assert BeSum([0, 0]) == 0 && BeSum(Wire16(c)) == c by {
      assert [0, 0][2..] == [] && Wire16(c)[2..] == [];
    }
    var k := FoldHas(BeSum(zero));
    FoldIs(BeSum(before + Wire16(c) + after), ONES, k);
  }
}
