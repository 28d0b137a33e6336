/** How the KLSI USB adapter's driver carries Ethernet packets: a two-byte length, low byte first, then the packet. */
module KlsiFraming {
  import opened Bytes
  import opened PbufChain

  const OUTBUFFER_SIZE := 1500

  /** A packet as it crosses the USB pipe. */
  function Encode(packet: seq<u8>): (r: seq<u8>)
    requires |packet| < U16_RANGE
    ensures |r| == 2 + |packet|
  {
    Store16(|packet|) + packet
  }

  /** The length a buffer announces. */
  function Announced(buf: seq<u8>): u16
    requires 2 <= |buf|
  {
    var low, high: int := buf[0], buf[1];
    high * 0x100 + low
  }

  /** The packet in a buffer that holds all it announces, whatever follows. */
  function Decode(buf: seq<u8>): (r: seq<u8>)
    requires 2 <= |buf| && 2 + Announced(buf) <= |buf|
    ensures |r| == Announced(buf)
  {
    buf[2..2 + Announced(buf)]
  }

  /** On the wire the length is in the first two bytes, the low one first, and the packet behind them. */
  lemma EncodedBytes(packet: seq<u8>)
    requires |packet| < U16_RANGE
    ensures var r := Encode(packet);
            r[0] as int == |packet| % 256 && r[1] as int == |packet| / 256 && r[2..] == packet
  {
  }

  lemma SliceOfDecoded(buf: seq<u8>, at: nat, n: nat)
    requires 2 <= |buf| && 2 + Announced(buf) <= |buf| && 2 <= at && at + n <= 2 + Announced(buf)
    ensures Decode(buf)[at - 2..at - 2 + n] == buf[at..at + n]
  {
    SliceOfSlice(buf, 2, 2 + Announced(buf), at - 2, at - 2 + n);
  }

  /** Decoding what was encoded gives the packet back, whatever lies behind it in the buffer. */
  lemma DecodeEncode(packet: seq<u8>, behind: seq<u8>)
    requires |packet| < U16_RANGE
    ensures 2 + Announced(Encode(packet) + behind) <= |Encode(packet) + behind|
    ensures Decode(Encode(packet) + behind) == packet
  {
  }

  /** And a buffer is the encoding of what it decodes to. */
  lemma EncodeDecode(buf: seq<u8>)
    requires 2 <= |buf| && 2 + Announced(buf) <= |buf|
    ensures Encode(Decode(buf)) == buf[..2 + Announced(buf)]
  {
  }

  class EthernetIf {
    const outbuffer: array<u8>

    ghost predicate Valid()
      reads this
    {
      outbuffer.Length == OUTBUFFER_SIZE
    }

    constructor ()
      ensures Valid() && fresh(outbuffer)
    {
      outbuffer := new u8[OUTBUFFER_SIZE](_ => 0);
    }

    /** bcopy into the output buffer. */
    method CopyOut(from: seq<u8>, at: nat)
      requires Valid() && 2 <= at && at + |from| <= OUTBUFFER_SIZE
      modifies outbuffer
      ensures outbuffer[2..at + |from|] == old(outbuffer[2..at]) + from
    {
      for k := 0 to |from|
        invariant outbuffer[2..at + k] == old(outbuffer[2..at]) + from[..k]
      {
        outbuffer[at + k] := from[k];
      }
    }

    /** Copies out one buffer's part of the packet. */
    method CopyLink(q: Link, ghost links: seq<Link>, ghost packet: seq<u8>, ghost k: nat, bufptr: nat)
      requires Valid() && Chain(links) && Carries(links, packet) && k < |links| && q == links[k]
      requires bufptr == 2 + Before(links, k) && links[0].totLen + 2 <= OUTBUFFER_SIZE
      requires 2 <= bufptr <= 2 + |packet| && outbuffer[2..bufptr] == packet[..bufptr - 2]
      modifies outbuffer
      ensures Linked(links, k) && bufptr + q.len == 2 + Before(links, k + 1) <= 2 + |packet|
      ensures outbuffer[2..bufptr + q.len] == packet[..bufptr + q.len - 2]
    {
      BeforeGrows(links, k);
      assert q.payload == Part(links, packet, k);
      CopyOut(q.payload, bufptr);
    }

    /** Gathers the bytes of the buffers behind the place for the length. */
    method Gather(p: Link, ghost links: seq<Link>, ghost packet: seq<u8>) returns (bufptr: nat)
      requires Valid() && Chain(links) && Carries(links, packet) && links[0] == p
      requires p.totLen + 2 <= OUTBUFFER_SIZE
      modifies outbuffer
      ensures bufptr == 2 + p.totLen && outbuffer[2..bufptr] == packet
    {
      var q: Link? := p;
      bufptr := 2;
      ghost var k := 0;
      while q != null
        invariant k <= |links| && q == if k < |links| then links[k] else null
        invariant 2 <= bufptr == 2 + Before(links, k) <= 2 + |packet|
        invariant outbuffer[2..bufptr] == packet[..bufptr - 2]
        decreases |links| - k
      {
        CopyLink(q, links, packet, k, bufptr);
        bufptr := bufptr + q.len;
        q, k := q.next, k + 1;
      }
    }

    /** Gathers the buffers of a packet into one behind their length, and hands that to the USB pipe. */
    method LowLevelOutput(p: Link, ghost links: seq<Link>, ghost packet: seq<u8>) returns (transferred: seq<u8>)
      requires Valid() && Chain(links) && Carries(links, packet) && links[0] == p
      requires p.totLen + 2 <= OUTBUFFER_SIZE
      modifies outbuffer
      ensures |packet| < U16_RANGE && transferred == Encode(packet)
    {
      var bufptr := Gather(p, links, packet);
      transferred := PutLength(p.totLen, packet);
    }

    /** Puts the length in front of the bytes gathered. */
    method PutLength(n: u16, ghost packet: seq<u8>) returns (transferred: seq<u8>)
      requires Valid() && 2 + n <= OUTBUFFER_SIZE && |packet| == n && outbuffer[2..2 + n] == packet
      modifies outbuffer
      ensures transferred == Encode(packet)
    {
      outbuffer[0] := n % 0x100;
      outbuffer[1] := n / 0x100;
      assert outbuffer[2..2 + n] == packet;
      transferred := outbuffer[..2 + n];
      assert transferred == [n % 0x100, n / 0x100] + packet;
    }
  }

  /** Scatters an arrived packet over the buffers allocated for it, in whatever sizes they come; none if there is no
      memory. */
  method LowLevelInput(buf: seq<u8>, p: Link?, ghost links: seq<Link>)
    requires 2 <= |buf| && 2 + Announced(buf) <= |buf|
    requires if p == null then links == []
             else links != [] && links[0] == p && Chain(links) && p.totLen == Announced(buf)
    modifies links`payload
    ensures p != null ==> Carries(links, Decode(buf))
  {
    if p == null {
      return;
    }
    var q: Link?, bufptr: nat := p, 2;
    ghost var k, packet := 0, Decode(buf);
    while q != null
      invariant k <= |links| && q == if k < |links| then links[k] else null
      invariant 0 <= Before(links, k) <= p.totLen && bufptr == 2 + Before(links, k)
      invariant CarriesUpTo(links, packet, k)
      decreases |links| - k
    {
      FillLink(links, q, k, buf, bufptr);
      bufptr := bufptr + q.len;
      q, k := q.next, k + 1;
    }
  }

  /** Fills one buffer with its part of the packet. */
  method FillLink(ghost links: seq<Link>, q: Link, ghost k: nat, buf: seq<u8>, bufptr: nat)
    requires 2 <= |buf| && 2 + Announced(buf) <= |buf|
    requires Chain(links) && k < |links| && q == links[k] && links[0].totLen == Announced(buf)
    requires bufptr == 2 + Before(links, k) && CarriesUpTo(links, Decode(buf), k)
    modifies q`payload
    ensures Linked(links, k) && Before(links, k + 1) == Before(links, k) + q.len <= links[0].totLen
    ensures CarriesUpTo(links, Decode(buf), k + 1)
  {
    BeforeGrows(links, k);
    SliceOfDecoded(buf, bufptr, q.len);
    q.payload := buf[bufptr..bufptr + q.len];
  }

  /** A packet sent by one adapter and received by another arrives, whatever shapes the two chains have and whatever
      follows it in the receiver's buffer. */
  method Carry(sender: EthernetIf, p: Link, ghost from: seq<Link>, ghost packet: seq<u8>, behind: seq<u8>,
               r: Link, ghost to: seq<Link>)
    requires sender.Valid() && Chain(from) && Carries(from, packet) && from[0] == p
    requires p.totLen + 2 <= OUTBUFFER_SIZE
    requires to != [] && to[0] == r && Chain(to) && r.totLen == p.totLen
    modifies sender.outbuffer, to`payload
    ensures Carries(to, packet) && Joined(to, |to|) == packet
  {
    var transferred := sender.LowLevelOutput(p, from, packet);
    DecodeEncode(packet, behind);
    LowLevelInput(transferred + behind, r, to);
    CarriesIsJoined(to, packet);
  }
}
