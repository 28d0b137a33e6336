/** Address resolution packets in memory and on the wire, and how an Internet address decides the destination. */
module ArpFrames {
  import opened ArpTable

  const ARP_REQUEST: bv16 := 1
  const ARP_REPLY: bv16 := 2
  const HWTYPE_ETHERNET: bv16 := 1
  const ETHTYPE_ARP: bv16 := 0x0806
  const ETHTYPE_IP: bv16 := 0x0800
  const BROADCAST: Mac := [0xFF, 0xFF, 0xFF, 0xFF, 0xFF, 0xFF]
  const NO_MAC: Mac := [0, 0, 0, 0, 0, 0]
  const ARP_HDR_SIZE := 42

  /** An interface: its addresses, and the gateway's (0 for none). */
  datatype Netif = Netif(ip: Ip, netmask: Ip, gw: Ip, hwaddr: Mac)

  function Htons(n: bv16): bv16 {
    ((n & 0xFF) << 8) | ((n & 0xFF00) >> 8)
  }

  function Htonl(n: bv32): bv32 {
    ((n & 0xFF) << 24) | ((n & 0xFF00) << 8) | ((n & 0xFF0000) >> 8) | ((n & 0xFF000000) >> 24)
  }

  /** The bytes a little-endian machine leaves in memory. */
  function Store16(n: bv16): seq<bv8> {
    [(n & 0xFF) as bv8, (n >> 8) as bv8]
  }

  function Store32(n: bv32): seq<bv8> {
    [(n & 0xFF) as bv8, ((n >> 8) & 0xFF) as bv8, ((n >> 16) & 0xFF) as bv8, (n >> 24) as bv8]
  }

  // ---- The packet ----

  /** A struct etharp_hdr as it lies in memory: 16-bit fields as the machine loads them. */
  datatype Header = Header(dest: Mac, src: Mac, ethType: bv16, hwtype: bv16, proto: bv16, lengths: bv16, opcode: bv16,
                           shwaddr: Mac, sipaddr: Ip, dhwaddr: Mac, dipaddr: Ip)

  /** The bytes of the packet. */
  function Wire(h: Header): (b: seq<bv8>)
    ensures |b| == ARP_HDR_SIZE
  {
    h.dest + h.src + Store16(h.ethType) + Store16(h.hwtype) + Store16(h.proto) + Store16(h.lengths) + Store16(h.opcode)
    + h.shwaddr + Store32(h.sipaddr.addr) + h.dhwaddr + Store32(h.dipaddr.addr)
  }

  /** The packet RFC 826 lays out ("Packet format") for Ethernet and Internet addresses. */
  function Rfc826(dest: Mac, src: Mac, op: bv8, sha: Mac, spa: Ip, tha: Mac, tpa: Ip): seq<bv8> {
    dest + src + [0x08, 0x06] + [0x00, 0x01] + [0x08, 0x00] + [6, 4] + [0x00, op]
    + sha + Store32(spa.addr) + tha + Store32(tpa.addr)
  }

  function ArphHwlen(lengths: bv16): bv16 {
    Htons(lengths) >> 8
  }

  function ArphProtolen(lengths: bv16): bv16 {
    Htons(lengths) & 0xFF
  }

  function ArphHwlenSet(lengths: bv16, len: bv16): bv16 {
    Htons(ArphProtolen(lengths) | (len << 8))
  }

  function ArphProtolenSet(lengths: bv16, len: bv16): bv16 {
    Htons(len | (ArphHwlen(lengths) << 8))
  }

  /** The length field with 06 04 in memory. */
  const LENGTHS: bv16 := 0x0406

  /** Setting the two lengths one after the other leaves 06 04 in memory, whatever the field held before. */
  lemma LengthsOnWire(garbage: bv16)
    ensures ArphProtolenSet(ArphHwlenSet(garbage, 6), 4) == LENGTHS
    ensures Store16(LENGTHS) == [6, 4]
    ensures ArphHwlen(LENGTHS) == 6 && ArphProtolen(LENGTHS) == 4
  {
  }

  /** The reply to a request for this interface's address. */
  function ReplyTo(h: Header, n: Netif): Header {
    Header(h.shwaddr, n.hwaddr, Htons(ETHTYPE_ARP), Htons(HWTYPE_ETHERNET), Htons(ETHTYPE_IP), LENGTHS,
           Htons(ARP_REPLY), n.hwaddr, n.ip, h.shwaddr, h.sipaddr)
  }

  /** A request for an address. */
  function RequestFor(n: Netif, ip: Ip): Header {
    Header(BROADCAST, n.hwaddr, Htons(ETHTYPE_ARP), Htons(HWTYPE_ETHERNET), Htons(ETHTYPE_IP), LENGTHS,
           Htons(ARP_REQUEST), n.hwaddr, n.ip, NO_MAC, ip)
  }

  /** On the wire, the reply is the RFC 826 reply to the asker, with sender and target exchanged. */
  lemma ReplyOnWire(h: Header, n: Netif)
    ensures Wire(ReplyTo(h, n)) == Rfc826(h.shwaddr, n.hwaddr, 2, n.hwaddr, n.ip, h.shwaddr, h.sipaddr)
  {
  }

  /** On the wire, the request is the broadcast RFC 826 request. */
  lemma RequestOnWire(n: Netif, ip: Ip)
    ensures Wire(RequestFor(n, ip)) == Rfc826(BROADCAST, n.hwaddr, 1, n.hwaddr, n.ip, NO_MAC, ip)
  {
  }

  /** The packet, rewritten and filled in place. */
  class EtharpHdr {
    var dest: Mac
    var src: Mac
    var ethType: bv16
    var hwtype: bv16
    var proto: bv16
    var lengths: bv16
    var opcode: bv16
    var shwaddr: Mac
    var sipaddr: Ip
    var dhwaddr: Mac
    var dipaddr: Ip

    constructor (h: Header)
      ensures Value() == h
    {
      dest, src, ethType, hwtype, proto, lengths := h.dest, h.src, h.ethType, h.hwtype, h.proto, h.lengths;
      opcode, shwaddr, sipaddr, dhwaddr, dipaddr := h.opcode, h.shwaddr, h.sipaddr, h.dhwaddr, h.dipaddr;
    }

    function Value(): Header
      reads this
    {
      Header(dest, src, ethType, hwtype, proto, lengths, opcode, shwaddr, sipaddr, dhwaddr, dipaddr)
    }

    /** The exchange of addresses in a reply: each byte is moved out of the way just before it is overwritten. */
    method ExchangeAddresses(own: Mac)
      modifies `dhwaddr, `shwaddr, `dest, `src
      ensures dhwaddr == dest == old(shwaddr) && shwaddr == src == own
    {
      for i := 0 to 6
        invariant forall k :: 0 <= k < i ==> dhwaddr[k] == dest[k] == old(shwaddr)[k] && shwaddr[k] == src[k] == own[k]
        invariant shwaddr[i..] == old(shwaddr)[i..]
      {
        dhwaddr := dhwaddr[i := shwaddr[i]];
        shwaddr := shwaddr[i := own[i]];
        dest := dest[i := dhwaddr[i]];
        src := src[i := own[i]];
      }
    }

    /** Sets the two lengths over whatever the field held. */
    method SetLengths()
      modifies `lengths
      ensures lengths == LENGTHS
    {
      LengthsOnWire(lengths);
      lengths := ArphHwlenSet(lengths, 6);
      lengths := ArphProtolenSet(lengths, 4);
    }

    /** Turns a request into the reply in the same buffer. */
    method Reply(n: Netif)
      modifies this
      ensures Value() == ReplyTo(old(Value()), n)
    {
      opcode := Htons(ARP_REPLY);
      dipaddr := sipaddr;
      sipaddr := n.ip;
      ExchangeAddresses(n.hwaddr);
      hwtype := Htons(HWTYPE_ETHERNET);
      SetLengths();
      proto := Htons(ETHTYPE_IP);
      ethType := Htons(ETHTYPE_ARP);
    }

    method AskFrom(own: Mac)
      modifies `dhwaddr, `shwaddr
      ensures dhwaddr == NO_MAC && shwaddr == own
    {
      for j := 0 to 6
        invariant forall k :: 0 <= k < j ==> dhwaddr[k] == 0 && shwaddr[k] == own[k]
      {
        dhwaddr := dhwaddr[j := 0];
        shwaddr := shwaddr[j := own[j]];
      }
    }

    method SendToAll(own: Mac)
      modifies `dest, `src
      ensures dest == BROADCAST && src == own
    {
      for j := 0 to 6
        invariant forall k :: 0 <= k < j ==> dest[k] == 0xFF && src[k] == own[k]
      {
        dest := dest[j := 0xFF];
        src := src[j := own[j]];
      }
    }

    /** Fills in a request for an address, whatever the buffer held. */
    method Request(n: Netif, ip: Ip)
      modifies this
      ensures Value() == RequestFor(n, ip)
    {
      opcode := Htons(ARP_REQUEST);
      AskFrom(n.hwaddr);
      dipaddr := ip;
      sipaddr := n.ip;
      hwtype := Htons(HWTYPE_ETHERNET);
      SetLengths();
      proto := Htons(ETHTYPE_IP);
      SendToAll(n.hwaddr);
      ethType := Htons(ETHTYPE_ARP);
    }
  }

  // ---- Where an Internet address leads ----

  predicate SameNet(a: Ip, b: Ip, mask: Ip) {
    a.addr & mask.addr == b.addr & mask.addr
  }

  predicate IsBroadcast(a: Ip, mask: Ip) {
    a.addr & !mask.addr == 0xFFFFFFFF & !mask.addr || a.addr == 0xFFFFFFFF || a.addr == 0
  }

  predicate IsMulticast(a: Ip) {
    a.addr & Htonl(0xF0000000) == Htonl(0xE0000000)
  }

  /** The Ethernet address of a group, from its Internet address in host order. */
  function GroupMac(x: bv32): Mac {
    [0x01, 0x00, 0x5E, ((x >> 16) & 0xFF) as bv8 & 0x7F, ((x >> 8) & 0xFF) as bv8, (x & 0xFF) as bv8]
  }

  /** RFC 1112 section 6.4: the low-order 23 bits of the group address, and nothing else of it, decide the Ethernet
      address. */
  lemma GroupMacLow23Bits(x: bv32, y: bv32)
    ensures GroupMac(x) == GroupMac(y) <==> x & 0x7FFFFF == y & 0x7FFFFF
  {
    GroupMacOctets(x, y);
    Low23Bits(x, y);
  }

  lemma GroupMacOctets(x: bv32, y: bv32)
    ensures GroupMac(x) == GroupMac(y) <==>
            (((x >> 16) & 0xFF) as bv8 & 0x7F == ((y >> 16) & 0xFF) as bv8 & 0x7F
             && ((x >> 8) & 0xFF) as bv8 == ((y >> 8) & 0xFF) as bv8 && (x & 0xFF) as bv8 == (y & 0xFF) as bv8)
  {
  }

  lemma Low23Bits(x: bv32, y: bv32)
    ensures x & 0x7FFFFF == y & 0x7FFFFF <==>
            (((x >> 16) & 0xFF) as bv8 & 0x7F == ((y >> 16) & 0xFF) as bv8 & 0x7F
             && ((x >> 8) & 0xFF) as bv8 == ((y >> 8) & 0xFF) as bv8 && (x & 0xFF) as bv8 == (y & 0xFF) as bv8)
  {
  }

  datatype Destination = ToAll | ToGroup(group: Ip) | ToHop(ip: Ip) | Nowhere

  /** Who a packet for an address goes to: everyone, a group, one host on the local network, or nobody. */
  function Route(n: Netif, dst: Option<Ip>): Destination {
    if dst.None? || dst.value.addr == 0 || IsBroadcast(dst.value, n.netmask) then ToAll
    else if IsMulticast(dst.value) then ToGroup(dst.value)
    else if SameNet(dst.value, n.ip, n.netmask) then ToHop(dst.value)
    else if n.gw.addr != 0 then ToHop(n.gw)
    else Nowhere
  }

  /** The broadcast test looks at the host part alone: an address whose host bits are all ones is sent to everyone
      here, whatever network it belongs to. */
  lemma HostPartOfOnesBroadcasts(n: Netif, dst: Ip)
    requires dst.addr & !n.netmask.addr == !n.netmask.addr
    ensures Route(n, Some(dst)) == ToAll
  {
  }

  /** The addresses the gateway is meant for: those of other hosts on other networks. */
  predicate HasHostPart(a: Ip, mask: Ip) {
    a.addr != 0 && a.addr & !mask.addr != !mask.addr
  }

  /** A packet for another network goes to the gateway, if there is one, exactly when its address is neither a group
      nor has a host part of all ones. */
  lemma GatewayIff(n: Netif, dst: Ip)
    requires !SameNet(dst, n.ip, n.netmask) && n.gw.addr != 0
    ensures Route(n, Some(dst)) == ToHop(n.gw) <==> HasHostPart(dst, n.netmask) && !IsMulticast(dst)
  {
  }

  /** 8.8.8.255, seen from 192.168.0.10/24, is broadcast on the local network though a gateway is known. */
  lemma ForeignBroadcastStaysHere()
    ensures var n := Netif(Ip(0x0A00A8C0), Ip(0x00FFFFFF), Ip(0x0100A8C0), NO_MAC);
            !SameNet(Ip(0xFF080808), n.ip, n.netmask) && Route(n, Some(Ip(0xFF080808))) == ToAll
  {
  }

  /** With a netmask of all ones, every address counts as broadcast, the gateway's included. */
  lemma AllOnesMaskBroadcasts(n: Netif, dst: Ip)
    requires n.netmask.addr == 0xFFFFFFFF
    ensures Route(n, Some(dst)) == ToAll
  {
  }
}
