/** The 4 KB circular transmit memory and the routine that copies a frame into it. */
module TxFifo {
  import opened Bytes

  const TX_BUFSIZE := 4096
  const DMA_BLOCK := 64

  /** Positions in the ring. */
  type Place = p: int | 0 <= p < TX_BUFSIZE

  /** The place n bytes further on, going round the ring. */
  function Advance(p: Place, n: nat): Place
    requires n <= TX_BUFSIZE
  {
    if p + n < TX_BUFSIZE then p + n else p + n - TX_BUFSIZE
  }

  /** The place n bytes back. */
  function Back(p: Place, n: nat): Place
    requires n <= TX_BUFSIZE
  {
    if n <= p then p - n else p - n + TX_BUFSIZE
  }

  lemma PlacesAreModulo(p: Place, n: nat)
    requires n <= TX_BUFSIZE
    ensures Advance(p, n) == (p + n) % TX_BUFSIZE
    ensures Back(p, n) == (p - n) % TX_BUFSIZE
  {
  }

  /** The memory after data has been written from a place onwards. */
  function RingWrite(mem: seq<u8>, at: Place, data: seq<u8>): (r: seq<u8>)
    requires |mem| == TX_BUFSIZE && |data| <= TX_BUFSIZE
    ensures |r| == TX_BUFSIZE
    ensures forall i {:trigger r[i]} :: 0 <= i < TX_BUFSIZE ==>
      r[i] == if Back(i, at) < |data| then data[Back(i, at)] else mem[i]
  {
    seq(TX_BUFSIZE, i requires 0 <= i < TX_BUFSIZE => if Back(i, at) < |data| then data[Back(i, at)] else mem[i])
  }

  /** The n bytes found from a place onwards. */
  function RingRead(mem: seq<u8>, at: Place, n: nat): (r: seq<u8>)
    requires |mem| == TX_BUFSIZE && n <= TX_BUFSIZE
    ensures |r| == n
    ensures forall i {:trigger r[i]} :: 0 <= i < n ==> r[i] == mem[Advance(at, i)]
  {
    seq(n, i requires 0 <= i < n => mem[Advance(at, i)])
  }

  /** Storing one byte. */
  lemma WriteOne(mem: seq<u8>, at: Place, b: u8)
    requires |mem| == TX_BUFSIZE
    ensures RingWrite(mem, at, [b]) == mem[at := b]
  {
  }

  /** What was written reads back. */
  lemma WriteRead(mem: seq<u8>, at: Place, data: seq<u8>)
    requires |mem| == TX_BUFSIZE && |data| <= TX_BUFSIZE
    ensures RingRead(RingWrite(mem, at, data), at, |data|) == data
  {
  }

  /** A write does not reach the bytes that end where it begins, even when the two fill the ring. */
  lemma WriteKeepsBefore(mem: seq<u8>, n: nat, at: Place, data: seq<u8>)
    requires |mem| == TX_BUFSIZE && n + |data| <= TX_BUFSIZE
    ensures RingRead(RingWrite(mem, at, data), Back(at, n), n) == RingRead(mem, Back(at, n), n)
  {
  }

  /** Two writes, the second where the first stopped, are one write of the joined data. */
  lemma WriteWrite(mem: seq<u8>, at: Place, a: seq<u8>, b: seq<u8>)
    requires |mem| == TX_BUFSIZE && |a| + |b| <= TX_BUFSIZE
    ensures RingWrite(RingWrite(mem, at, a), Advance(at, |a|), b) == RingWrite(mem, at, a + b)
  {
  }

  /** Reading two byte strings lying end to end. */
  lemma ReadParts(mem: seq<u8>, at: Place, n: nat, k: nat)
    requires |mem| == TX_BUFSIZE && n + k <= TX_BUFSIZE
    ensures RingRead(mem, at, n + k) == RingRead(mem, at, n) + RingRead(mem, Advance(at, n), k)
  {
  }

  /** The memory holds these bytes, ending at the write pointer. */
  predicate Holds(mem: seq<u8>, wrPtr: Place, held: seq<u8>)
    requires |mem| == TX_BUFSIZE
  {
    |held| <= TX_BUFSIZE && RingRead(mem, Back(wrPtr, |held|), |held|) == held
  }

  /** Writing at the write pointer adds to what is held and loses none of it. */
  lemma WriteExtends(mem: seq<u8>, wrPtr: Place, held: seq<u8>, data: seq<u8>)
    requires |mem| == TX_BUFSIZE && Holds(mem, wrPtr, held) && |held| + |data| <= TX_BUFSIZE
    ensures Holds(RingWrite(mem, wrPtr, data), Advance(wrPtr, |data|), held + data)
  {
  }

  /** Any stretch of what is held can be read where it lies. */
  lemma HeldPart(mem: seq<u8>, wrPtr: Place, a: seq<u8>, b: seq<u8>, c: seq<u8>)
    requires |mem| == TX_BUFSIZE && Holds(mem, wrPtr, a + b + c)
    ensures RingRead(mem, Advance(Back(wrPtr, |a + b + c|), |a|), |b|) == b
    ensures Holds(mem, wrPtr, c)
  {
    var at, held := Back(wrPtr, |a + b + c|), a + b + c;
    ReadParts(mem, at, |a| + |b|, |c|);
    ReadParts(mem, at, |a|, |b|);
    assert held[|a| + |b|..] == c && held[..|a| + |b|] == a + b;
    assert (a + b)[|a|..] == b;
  }

  /** The FIFO as the driver sees it: a data port that stores at a hardware write pointer. */
  class Fifo {
    const mem: array<u8>
    var wrPtr: Place

    ghost predicate Valid()
      reads this
    {
      mem.Length == TX_BUFSIZE
    }

    constructor ()
      ensures Valid() && fresh(mem) && wrPtr == 0 && mem[..] == seq(TX_BUFSIZE, _ => 0)
    {
      mem := new u8[TX_BUFSIZE](_ => 0);
      wrPtr := 0;
    }

    /** The hardware's side of a transfer: bytes land at the write pointer, which advances round the ring. */
    method Push(data: seq<u8>)
      requires Valid() && |data| <= TX_BUFSIZE
      modifies this`wrPtr, mem
      ensures Valid()
      ensures mem[..] == RingWrite(old(mem[..]), old(wrPtr), data)
      ensures wrPtr == Advance(old(wrPtr), |data|)
    {
      ghost var before, at := mem[..], wrPtr;
      for k := 0 to |data|
        invariant Valid() && wrPtr == Advance(at, k)
        invariant mem[..] == RingWrite(before, at, data[..k])
      {
        ghost var prev := mem[..];
        mem[wrPtr] := data[k];
        WriteOne(prev, wrPtr, data[k]);
        WriteWrite(before, at, data[..k], [data[k]]);
        assert data[..k] + [data[k]] == data[..k + 1];
        wrPtr := Advance(wrPtr, 1);
      }
      assert data[..|data|] == data;
    }

    /** Moves all the whole 64-byte blocks of the buffer, or, when the channel refuses, none of them. */
    method SmapDmaTransfer(buffer: seq<u8>, size: nat) returns (result: nat)
      requires Valid() && size <= |buffer| && size <= TX_BUFSIZE
      modifies this`wrPtr, mem
      ensures Valid() && (result == 0 || result == size / DMA_BLOCK * DMA_BLOCK)
      ensures result <= size && result % 4 == 0
      ensures mem[..] == RingWrite(old(mem[..]), old(wrPtr), buffer[..result])
      ensures wrPtr == Advance(old(wrPtr), result)
    {
      var numBlocks := size / DMA_BLOCK;
      var accepted: bool := *;
      result := if numBlocks > 0 && accepted then numBlocks * DMA_BLOCK else 0;
      Push(buffer[..result]);
    }

    /** Copies a frame into the ring: blocks by DMA, the rest (or everything) word by word. However the DMA
        turned out, the ring ends up as if the padded frame had been written in one go. */
    method CopyToFIFO(buffer: seq<u8>, length: nat)
      requires Valid() && Round4(length) <= |buffer| && Round4(length) <= TX_BUFSIZE
      modifies this`wrPtr, mem
      ensures Valid()
      ensures mem[..] == RingWrite(old(mem[..]), old(wrPtr), buffer[..Round4(length)])
      ensures wrPtr == Advance(old(wrPtr), Round4(length))
    {
      ghost var before, at := mem[..], wrPtr;
      var i := SmapDmaTransfer(buffer, length);
      while i < length
        invariant i % 4 == 0 && i <= Round4(length)
        invariant Valid() && wrPtr == Advance(at, i)
        invariant mem[..] == RingWrite(before, at, buffer[..i])
      {
        WordSteps(i, length);
        WriteWrite(before, at, buffer[..i], buffer[i..i + 4]);
        assert buffer[..i] + buffer[i..i + 4] == buffer[..i + 4];
        Push(buffer[i..i + 4]);
        i := i + 4;
      }
      WordSteps(i, length);
    }
  }
}
