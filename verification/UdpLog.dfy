/** The debugging log of the KLSI driver: each text goes out as a UDP datagram built by hand. */
module UdpLog {
  import opened Bytes
  import opened Checksum

  const BUFFER_SIZE := 1024
  const HEADERS := 44       // USB length, Ethernet, Internet and UDP headers
  const MAX_LOG := 979      // what leaves room for the text's terminating zero

  type Text = s: seq<u8> | |s| <= MAX_LOG && forall i :: 0 <= i < |s| ==> s[i] != 0

  /** The constant parts of a datagram: the Internet header up to its checksum and from there on, the UDP header up to
      its checksum, and the pseudo-header of RFC 768. */
  datatype Headers = Headers(link: seq<u8>, ipStart: seq<u8>, ipEnd: seq<u8>, udpStart: seq<u8>, pseudo: seq<u8>)

  /** The headers for n bytes of text, from 172.16.10.254 to 172.16.10.40 (RFC 791 section 3.1, RFC 768). */
  function HeadersFor(n: nat): (h: Headers)
    requires n <= MAX_LOG
    ensures WellSized(h)
  {
    Headers(Store16(n + 42) + [0x00, 0xD0, 0x59, 0xB5, 0xF0, 0x84] + [0x00, 0x02, 0xE3, 0x01, 0x82, 0x72]
              + [0x08, 0x00],
            [0x45, 0x00] + Wire16(n + 28) + [0x00, 0x00, 0x00, 0x00, 0x80, 0x11],
            [172, 16, 10, 254] + [172, 16, 10, 40],
            Wire16(0x0456) + Wire16(1110) + Wire16(n + 8),
            [172, 16, 10, 254] + [172, 16, 10, 40] + [0, 17] + Wire16(n + 8))
  }

  predicate WellSized(h: Headers) {
    |h.link| == 16 && |h.ipStart| == 10 && |h.ipEnd| == 8 && |h.udpStart| == 6 && |h.pseudo| == 12
  }

  function IpChecksum(h: Headers): u16 {
    ChecksumOf(h.ipStart + [0, 0] + h.ipEnd)
  }

  function UdpChecksum(h: Headers, log: seq<u8>): u16 {
    ChecksumOf(h.pseudo + h.udpStart + [0, 0] + log)
  }

  /** What crosses the USB pipe. */
  function Datagram(h: Headers, log: seq<u8>): seq<u8> {
    h.link + (h.ipStart + Wire16(IpChecksum(h)) + h.ipEnd) + (h.udpStart + Wire16(UdpChecksum(h, log)) + log)
  }

  /** The octets of a datagram: the USB length, low octet first, is that of what follows it; two hardware addresses and
      the type of Internet packets; an Internet header of five words (RFC 791 section 3.1) whose total length is all but
      the link header, time to live 128, protocol 17 and the two addresses; a UDP header with both ports 1110 and the
      length from itself on; and the text. */
  lemma DatagramOctets(log: Text)
    ensures var d := Datagram(HeadersFor(|log|), log);
            && |d| == 44 + |log|
            && d[0] as int + 0x100 * d[1] as int == |d| - 2
            && d[2..14] == [0x00, 0xD0, 0x59, 0xB5, 0xF0, 0x84, 0x00, 0x02, 0xE3, 0x01, 0x82, 0x72]
            && d[14..16] == [0x08, 0x00] && d[16] == 0x45 && d[17] == 0
            && 0x100 * d[18] as int + d[19] as int == |d| - 16
            && d[20..26] == [0, 0, 0, 0, 128, 17]
            && d[28..36] == [172, 16, 10, 254, 172, 16, 10, 40]
            && 0x100 * d[36] as int + d[37] as int == 1110 && 0x100 * d[38] as int + d[39] as int == 1110
            && 0x100 * d[40] as int + d[41] as int == |d| - 36
            && d[44..] == log
  {
    var h := HeadersFor(|log|);
    var d := Datagram(h, log);
    FieldsAt(h, log);
    HeaderOctets(|log|);
    assert d[0] == d[..16][0] && d[1] == d[..16][1];
    assert d[2..14] == d[..16][2..14] && d[14..16] == d[..16][14..];
    assert d[16] == d[16..26][0] && d[17] == d[16..26][1] && d[18] == d[16..26][2] && d[19] == d[16..26][3];
    assert d[20..26] == d[16..26][4..];
    assert d[36] == d[36..42][0] && d[37] == d[36..42][1] && d[38] == d[36..42][2] && d[39] == d[36..42][3];
    assert d[40] == d[36..42][4] && d[41] == d[36..42][5];
  }

  /** Where the parts of a datagram begin. */
  lemma FieldsAt(h: Headers, log: seq<u8>)
    requires WellSized(h)
    ensures var d := Datagram(h, log);
            && |d| == 44 + |log|
            && d[..16] == h.link && d[16..26] == h.ipStart && d[28..36] == h.ipEnd && d[36..42] == h.udpStart
            && d[44..] == log
  {
    var ip := h.ipStart + Wire16(IpChecksum(h)) + h.ipEnd;
    var udp := h.udpStart + Wire16(UdpChecksum(h, log)) + log;
    var d := Datagram(h, log);
    assert d == h.link + ip + udp && |h.link| == 16 && |ip| == 20;
    assert d[..16] == h.link && d[16..36] == ip && d[36..] == udp;
    assert d[16..26] == ip[..10] == h.ipStart && d[28..36] == ip[12..] == h.ipEnd;
    assert d[36..42] == udp[..6] == h.udpStart && d[44..] == udp[8..] == log;
  }

  /** The parts of the headers, their length fields among them. */
  lemma HeaderOctets(n: nat)
    requires n <= MAX_LOG
    ensures var h := HeadersFor(n);
            && h.link[0] as int + 0x100 * h.link[1] as int == n + 42
            && h.link[2..14] == [0x00, 0xD0, 0x59, 0xB5, 0xF0, 0x84, 0x00, 0x02, 0xE3, 0x01, 0x82, 0x72]
            && h.link[14..] == [0x08, 0x00] && h.ipStart[0] == 0x45 && h.ipStart[1] == 0
            && 0x100 * h.ipStart[2] as int + h.ipStart[3] as int == n + 28
            && h.ipStart[4..] == [0, 0, 0, 0, 128, 17] && h.ipEnd == [172, 16, 10, 254, 172, 16, 10, 40]
            && 0x100 * h.udpStart[0] as int + h.udpStart[1] as int == 1110
            && 0x100 * h.udpStart[2] as int + h.udpStart[3] as int == 1110
            && 0x100 * h.udpStart[4] as int + h.udpStart[5] as int == n + 8
  {
  }

  /** A receiver's sum over the Internet header, and over pseudo-header and UDP, is all ones. */
  lemma ReceiverSums(h: Headers, log: seq<u8>)
    requires WellSized(h)
    ensures Fold(BeSum(h.ipStart + Wire16(IpChecksum(h)) + h.ipEnd)) == ONES
    ensures Fold(BeSum(h.pseudo + h.udpStart + Wire16(UdpChecksum(h, log)) + log)) == ONES
  {
    ReceiverAccepts(h.ipStart, h.ipEnd);
    ReceiverAccepts(h.pseudo + h.udpStart, log);
  }

  /** RFC 768 has a checksum that comes out as 0 sent as all ones, since 0 means there is none. The driver sends the 0,
      which happens exactly when the text adds up to a multiple of 0xFFFF with what the headers add up to. */
  lemma ChecksumMissingIff(h: Headers, log: seq<u8>, sum: nat)
    requires WellSized(h) && BeSum(h.pseudo) + BeSum(h.udpStart) == sum && 0 < sum
    ensures UdpChecksum(h, log) == 0 <==> (BeSum(log) + sum) % ONES == 0
  {
    TotalSum(h, log);
    FoldIsOnesIff(BeSum(log) + sum);
  }

  lemma TotalSum(h: Headers, log: seq<u8>)
    requires WellSized(h)
    ensures BeSum(h.pseudo + h.udpStart + [0, 0] + log) == BeSum(log) + BeSum(h.pseudo) + BeSum(h.udpStart)
  {
    SumsJoin(h.pseudo + h.udpStart + [0, 0], log);
    SumsJoin(h.pseudo + h.udpStart, [0, 0]);
    SumsJoin(h.pseudo, h.udpStart);
    assert BeSum([0, 0]) == 0 by {
      assert [0, 0][2..] == [];
    }
  }

  lemma FoldIsOnesIff(x: nat)
    requires 0 < x
    ensures Fold(x) == ONES <==> x % ONES == 0
  {
  }

  /** What the driver's headers add up to for n bytes of text. */
  lemma HeaderSums(n: nat)
    requires n <= MAX_LOG
    ensures BeSum(HeadersFor(n).pseudo) + BeSum(HeadersFor(n).udpStart) == 0x17613 + 2 * n
  {
    var p, u := HeadersFor(n).pseudo, HeadersFor(n).udpStart;
    SumOf6(p[..6]);
    SumOf6(p[6..]);
    SumOf6(u);
    SumsJoin(p[..6], p[6..]);
    assert p == p[..6] + p[6..];
  }

  lemma SumOf6(b: seq<u8>)
    requires |b| == 6
    ensures BeSum(b) == 0x100 * (b[0] as int + b[2] as int + b[4] as int) + b[1] as int + b[3] as int + b[5] as int
  {
    assert b[2..][2..] == b[4..] && b[4..][2..] == [];
    assert BeSum(b[4..]) == 0x100 * b[4] as int + b[5] as int;
    assert BeSum(b[2..]) == 0x100 * b[2] as int + b[3] as int + BeSum(b[4..]);
  }

  /** The text "DqEr" is one that goes out without a checksum. */
  lemma ChecksumMissing()
    ensures UdpChecksum(HeadersFor(4), [0x44, 0x71, 0x45, 0x72]) == 0
  {
    var log: Text := [0x44, 0x71, 0x45, 0x72];
    assert log[2..] == [0x45, 0x72] && [0x45, 0x72][2..] == [];
    HeaderSums(4);
    ChecksumMissingIff(HeadersFor(4), log, 0x1761B);
  }

  class Logger {
    const udpBuffer: array<u8>
    var udpLogInit: u8

    ghost predicate Valid()
      reads this
    {
      udpBuffer.Length == BUFFER_SIZE
    }

    constructor ()
      ensures Valid() && fresh(udpBuffer)
    {
      udpBuffer, udpLogInit := new u8[BUFFER_SIZE](_ => 0), 0;
    }

    /** Fills in the next fields. */
    method Put(at: nat, b: seq<u8>)
      requires Valid() && at + |b| <= BUFFER_SIZE
      modifies udpBuffer
      ensures udpBuffer[..at + |b|] == old(udpBuffer[..at]) + b
    {
      for k := 0 to |b|
        invariant udpBuffer[..at + k] == old(udpBuffer[..at]) + b[..k]
      {
        udpBuffer[at + k] := b[k];
      }
    }

    /** Stores a 16-bit word over a field filled in before. */
    method Patch(w: u16, ghost before: seq<u8>, at: nat, ghost after: seq<u8>)
      requires Valid() && |before| == at && at + 2 + |after| <= BUFFER_SIZE
      requires udpBuffer[..at + 2 + |after|] == before + [0, 0] + after
      modifies udpBuffer
      ensures udpBuffer[..at + 2 + |after|] == before + Store16(w) + after
    {
      ghost var was := udpBuffer[..at + 2 + |after|];
      udpBuffer[at] := w % 0x100;
      udpBuffer[at + 1] := w / 0x100;
      assert was[..at] == before && was[at + 2..] == after;
      assert udpBuffer[..at + 2 + |after|] == was[..at] + Store16(w) + was[at + 2..];
    }

    /** Puts an Internet header behind the link header, with its checksum. */
    method PutIp(h: Headers)
      requires Valid() && WellSized(h)
      modifies udpBuffer
      ensures udpBuffer[..36] == h.link + (h.ipStart + Wire16(IpChecksum(h)) + h.ipEnd)
    {
      Put(0, h.link);
      Put(16, h.ipStart + [0, 0] + h.ipEnd);
      assert udpBuffer[..16] == [] + h.link;
      assert udpBuffer[16..36] == h.ipStart + [0, 0] + h.ipEnd;
      var acc := Chksum(udpBuffer, 16, 20);
      var folded := FoldLoop(acc);
      StoredIsChecksum(h.ipStart + [0, 0] + h.ipEnd);
      assert udpBuffer[..36] == (h.link + h.ipStart) + [0, 0] + h.ipEnd;
      Patch(ONES - folded, h.link + h.ipStart, 26, h.ipEnd);
    }

    /** Puts the UDP header and the text behind the Internet header, with the checksum over them and the
        pseudo-header. */
    method PutUdp(h: Headers, log: Text, pseudoSum: nat)
      requires Valid() && WellSized(h) && pseudoSum == LeSum(h.pseudo)
      modifies udpBuffer
      ensures udpBuffer[..HEADERS + |log|] == old(udpBuffer[..36]) + (h.udpStart + Wire16(UdpChecksum(h, log)) + log)
    {
      ghost var start := udpBuffer[..36];
      var udp := h.udpStart + [0, 0] + log;
      Put(36, udp);
      udpBuffer[HEADERS + |log|] := 0;
      assert udpBuffer[..HEADERS + |log|] == start + udp;
      assert udpBuffer[36..HEADERS + |log|] == udp;
      var acc := Chksum(udpBuffer, 36, |log| + 8);
      PseudoAdded(h, log);
      SumFits(h.pseudo);
      var folded := FoldLoop(acc + pseudoSum);
      StoredIsChecksum(h.pseudo + h.udpStart + [0, 0] + log);
      assert start + udp == (start + h.udpStart) + [0, 0] + log;
      Patch(ONES - folded, start + h.udpStart, 42, log);
      assert start + (h.udpStart + Wire16(UdpChecksum(h, log)) + log) ==
             start + h.udpStart + Wire16(UdpChecksum(h, log)) + log;
    }

    /** The words of the pseudo-header, each taken from an address or number in network order and swapped. */
    method PseudoWords(n: nat) returns (sum: nat)
      requires n <= MAX_LOG
      ensures sum == LeSum(HeadersFor(n).pseudo)
    {
      var src, dst := 0xAC100AFE, 0xAC100A28;
      sum := Htons(dst / 0x1_0000) + Htons(dst % 0x1_0000);
      sum := sum + Htons(src / 0x1_0000) + Htons(src % 0x1_0000);
      sum := sum + Htons(17) + Htons(8 + n);
      PseudoSum(n);
    }

    /** Sends a text, unless logging is off. What goes out is the datagram with both checksums. */
    method Log(log: Text) returns (transferred: seq<u8>)
      requires Valid()
      modifies udpBuffer
      ensures transferred == if udpLogInit == 0 then [] else Datagram(HeadersFor(|log|), log)
    {
      if udpLogInit == 0 {
        return [];
      }
      var pseudoSum := PseudoWords(|log|);
      transferred := Compose(HeadersFor(|log|), log, pseudoSum);
    }

    method Compose(h: Headers, log: Text, pseudoSum: nat) returns (transferred: seq<u8>)
      requires Valid() && WellSized(h) && pseudoSum == LeSum(h.pseudo)
      modifies udpBuffer
      ensures transferred == Datagram(h, log)
    {
      PutIp(h);
      PutUdp(h, log, pseudoSum);
      transferred := udpBuffer[..HEADERS + |log|];
    }
  }

  lemma PseudoAdded(h: Headers, log: seq<u8>)
    requires WellSized(h)
    ensures LeSum(h.pseudo + h.udpStart + [0, 0] + log) == LeSum(h.pseudo) + LeSum(h.udpStart + [0, 0] + log)
  {
    SumsJoin(h.pseudo, h.udpStart + [0, 0] + log);
    assert h.pseudo + (h.udpStart + [0, 0] + log) == h.pseudo + h.udpStart + [0, 0] + log;
  }

  lemma PseudoSum(n: nat)
    requires n <= MAX_LOG
    ensures LeSum(HeadersFor(n).pseudo) == 2 * 0x10AC + 0xFE0A + 0x280A + Htons(17) + Htons(8 + n)
  {
    var p := HeadersFor(n).pseudo;
    LeSumOf6(p[..6]);
    LeSumOf6(p[6..]);
    SumsJoin(p[..6], p[6..]);
    assert p == p[..6] + p[6..];
  }

  lemma LeSumOf6(b: seq<u8>)
    requires |b| == 6
    ensures LeSum(b) == 0x100 * (b[1] as int + b[3] as int + b[5] as int) + b[0] as int + b[2] as int + b[4] as int
  {
    assert b[2..][2..] == b[4..] && b[4..][2..] == [];
    assert LeSum(b[4..]) == 0x100 * b[5] as int + b[4] as int;
    assert LeSum(b[2..]) == 0x100 * b[3] as int + b[2] as int + LeSum(b[4..]);
  }
}
