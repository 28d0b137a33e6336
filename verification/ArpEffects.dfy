/** What the address resolution module does, told from the bits of addresses and the bytes of packets, and from what the
    cache is bound to before. */
module ArpEffects {
  import opened ArpTable
  import opened ArpFrames
  import opened ArpModule
  import opened ArpHistory
  import opened ArpNetwork
  import opened ArpResolution

  // ---- Outgoing packets ----

  /** An address of the local network, by the mask. */
  predicate OnLocalNet(n: Netif, dst: Ip) {
    dst.addr & n.netmask.addr == n.ip.addr & n.netmask.addr
  }

  /** Neither 0.0.0.0, nor with a host part of ones, nor a group: the first octet of a group begins with 1110. */
  predicate OneHost(n: Netif, dst: Ip) {
    && dst.addr != 0 && dst.addr & !n.netmask.addr != !n.netmask.addr
    && Store32(dst.addr)[0] & 0xF0 != 0xE0
  }

  lemma GroupBits(a: Ip)
    ensures IsMulticast(a) <==> Store32(a.addr)[0] & 0xF0 == 0xE0
  {
  }

  lemma NotOnes(x: bv32, mask: bv32)
    requires x & !mask != !mask
    ensures x & !mask != 0xFFFFFFFF & !mask && x != 0xFFFFFFFF
  {
  }

  lemma NotForAll(a: Ip, mask: Ip)
    requires a.addr != 0 && a.addr & !mask.addr != !mask.addr
    ensures !IsBroadcast(a, mask)
  {
    NotOnes(a.addr, mask.addr);
  }

  /** A packet for a host of the local network goes to that host itself: to the hardware address the cache has for it,
      or that is sought. */
  lemma LocalGoesToItself(t: Table, n: Netif, dst: Ip)
    requires OneHost(n, dst) && OnLocalNet(n, dst)
    ensures OutcomeOf(t, n, Some(dst)) == if Lookup(t, dst).Some? then Sends(Lookup(t, dst).value) else Seeks(dst)
  {
    GroupBits(dst);
    NotForAll(dst, n.netmask);
  }

  /** One for a host elsewhere goes to the gateway, or nowhere. */
  lemma ForeignGoesToGateway(t: Table, n: Netif, dst: Ip)
    requires OneHost(n, dst) && !OnLocalNet(n, dst)
    ensures OutcomeOf(t, n, Some(dst)) ==
            if n.gw.addr == 0 then Drops
            else if Lookup(t, n.gw).Some? then Sends(Lookup(t, n.gw).value) else Seeks(n.gw)
  {
    GroupBits(dst);
    NotForAll(dst, n.netmask);
  }

  /** One for a group goes to 01:00:5E and the low 23 bits of its address. */
  lemma GroupGoesToGroup(t: Table, n: Netif, dst: Ip)
    requires dst.addr & !n.netmask.addr != !n.netmask.addr && Store32(dst.addr)[0] & 0xF0 == 0xE0
    ensures var b := Store32(dst.addr);
            OutcomeOf(t, n, Some(dst)) == Sends([0x01, 0x00, 0x5E, b[1] & 0x7F, b[2], b[3]])
  {
    GroupBits(dst);
    NoGroupIsZero(dst);
    NotForAll(dst, n.netmask);
    GroupOctets(dst);
  }

  lemma NoGroupIsZero(a: Ip)
    requires Store32(a.addr)[0] & 0xF0 == 0xE0
    ensures a.addr != 0
  {
  }

  lemma SwappedOctets(x: bv32)
    ensures (Htonl(x) >> 16) & 0xFF == (x >> 8) & 0xFF
    ensures (Htonl(x) >> 8) & 0xFF == (x >> 16) & 0xFF
    ensures Htonl(x) & 0xFF == x >> 24
  {
  }

  lemma GroupOctets(a: Ip)
    ensures var b := Store32(a.addr); GroupMac(Htonl(a.addr)) == [0x01, 0x00, 0x5E, b[1] & 0x7F, b[2], b[3]]
  {
    SwappedOctets(a.addr);
  }

  /** Everything else goes to everyone. */
  lemma RestGoesToAll(t: Table, n: Netif, dst: Option<Ip>)
    requires dst.None? || dst.value.addr == 0 || dst.value.addr & !n.netmask.addr == !n.netmask.addr
    ensures OutcomeOf(t, n, dst) == Sends([0xFF, 0xFF, 0xFF, 0xFF, 0xFF, 0xFF])
  {
    if dst.Some? && dst.value.addr != 0 {
      HostPartOfOnesBroadcasts(n, dst.value);
    }
  }

  /** In every honest run of a network: when a host sends a packet to a host of its own network and addresses it, the
      frame on the wire carries the true hardware address of that very host. */
  lemma LocalReachesHost(truth: Truth, net: Net, steps: seq<Step>, i: nat, dst: Ip, ipSrc: Ip, memory: bool)
    requires TrueHosts(truth, net.hosts) && net.wire == {} && AllHonest(truth, net.hosts, steps)
    requires i < |net.hosts| && OneHost(net.hosts[i].netif, dst) && OnLocalNet(net.hosts[i].netif, dst)
    ensures var u := Reached(net, steps);
            && i < |u.hosts|
            && (Lookup(u.hosts[i].table, dst).Some? ==>
                  dst in truth && Next(u, Output(i, Some(dst), ipSrc, memory)).wire ==
                  u.wire + {Inet(truth[dst], net.hosts[i].netif.hwaddr, ipSrc)})
  {
    NetworkTrue(truth, net, steps);
    var h := Reached(net, steps).hosts[i];
    LocalGoesToItself(h.table, h.netif, dst);
    LookupTrue(truth, h.table, dst);
  }

  /** And one for a host elsewhere that of its gateway. */
  lemma ForeignReachesGateway(truth: Truth, net: Net, steps: seq<Step>, i: nat, dst: Ip, ipSrc: Ip, memory: bool)
    requires TrueHosts(truth, net.hosts) && net.wire == {} && AllHonest(truth, net.hosts, steps)
    requires i < |net.hosts| && OneHost(net.hosts[i].netif, dst) && !OnLocalNet(net.hosts[i].netif, dst)
    requires net.hosts[i].netif.gw.addr != 0
    ensures var u, n := Reached(net, steps), net.hosts[i].netif;
            && i < |u.hosts|
            && (Lookup(u.hosts[i].table, n.gw).Some? ==>
                  n.gw in truth && Next(u, Output(i, Some(dst), ipSrc, memory)).wire ==
                  u.wire + {Inet(truth[n.gw], n.hwaddr, ipSrc)})
  {
    NetworkTrue(truth, net, steps);
    var h := Reached(net, steps).hosts[i];
    ForeignGoesToGateway(h.table, h.netif, dst);
    LookupTrue(truth, h.table, h.netif.gw);
  }

  // ---- Requests ----

  /** A query sends out a request exactly when the address waits afterwards. */
  lemma AsksIff(t: Table, ip: Ip)
    requires Good(t)
    ensures Asks(t, ip) <==> Bound(Query(t, ip), ip).Some? && Bound(Query(t, ip), ip).value.Waiting?
  {
    if Asks(t, ip) {
      AskedIsWaiting(t, ip);
    }
  }

  // ---- Incoming packets ----

  predicate IsRequest(h: Header) {
    Store16(h.opcode) == [0x00, 0x01]
  }

  predicate IsReply(h: Header) {
    Store16(h.opcode) == [0x00, 0x02]
  }

  lemma OpcodeBytes(h: Header)
    ensures Htons(h.opcode) == ARP_REQUEST <==> IsRequest(h)
    ensures Htons(h.opcode) == ARP_REPLY <==> IsReply(h)
  {
    assert Store16(h.opcode)[0] == (h.opcode & 0xFF) as bv8 && Store16(h.opcode)[1] == (h.opcode >> 8) as bv8;
  }

  /** A packet is answered if and only if it is a request for this host's own address, which must be set; and the
      answer is the reply of RFC 826 to the asker, from this host. */
  lemma AnsweredIff(n: Netif, h: Header)
    ensures ArpAnswer(n, h).Some? <==> IsRequest(h) && n.ip.addr != 0 && h.dipaddr == n.ip
    ensures ArpAnswer(n, h).Some? ==>
      Wire(ArpAnswer(n, h).value) == Rfc826(h.shwaddr, n.hwaddr, 2, n.hwaddr, n.ip, h.shwaddr, h.sipaddr)
  {
    OpcodeBytes(h);
    if ArpAnswer(n, h).Some? {
      ReplyOnWire(h, n);
    }
  }

  /** From a request, whoever it is for, and from a reply for this host, the sender is learnt, if the cache takes it. */
  lemma SenderLearntIff(t: Table, n: Netif, h: Header)
    requires Good(t) && h.sipaddr.addr != 0
    requires (IsRequest(h) && n.ip.addr != 0) || (IsReply(h) && h.dipaddr == n.ip)
    ensures Lookup(ArpInput(t, n, h), h.sipaddr) == Some(h.shwaddr) <==> TakesAnswer(t, h.sipaddr)
  {
    OpcodeBytes(h);
    LearntIff(t, h.sipaddr, h.shwaddr);
  }

  /** From a reply for another host its receiver is learnt too; the sender's own pair may have made room for it. */
  lemma TargetLearntIff(t: Table, n: Netif, h: Header)
    requires Good(t) && h.dipaddr.addr != 0 && IsReply(h) && h.dipaddr != n.ip
    ensures Lookup(ArpInput(t, n, h), h.dipaddr) == Some(h.dhwaddr) <==>
            TakesAnswer(t, h.dipaddr) || (h.sipaddr.addr != 0 && Bound(t, h.sipaddr).Some?)
  {
    OpcodeBytes(h);
    var u := Update(t, h.sipaddr, h.shwaddr);
    UpdateRefines(t, h.sipaddr, h.shwaddr);
    LearntIff(u, h.dipaddr, h.dhwaddr);
    UpdateTakes(t, h.sipaddr, h.shwaddr, h.dipaddr);
  }

  lemma UpdateTakes(t: Table, ip: Ip, mac: Mac, other: Ip)
    requires Good(t)
    ensures TakesAnswer(Update(t, ip, mac), other) <==>
            TakesAnswer(t, other) || (ip.addr != 0 && Bound(t, ip).Some?)
  {
    var u := Update(t, ip, mac);
    if ip.addr != 0 {
      var k := Live(t, ip);
      var i := if k < ARP_TABLE_SIZE then k else Victim(t);
      VictimIs(t);
      if i < ARP_TABLE_SIZE {
        assert u[i].state != Pending;
      }
    }
  }

  /** A host without an address of its own learns nothing from requests, and nobody anything from other packets. */
  lemma OthersIgnored(t: Table, n: Netif, h: Header)
    requires (IsRequest(h) && n.ip.addr == 0) || (!IsRequest(h) && !IsReply(h))
    ensures ArpInput(t, n, h) == t
  {
    OpcodeBytes(h);
  }

  lemma LocalSenderUpdates(t: Table, n: Netif, ipSrc: Ip, ethSrc: Mac)
    requires OnLocalNet(n, ipSrc)
    ensures IpInput(t, n, ipSrc, ethSrc) == Update(t, ipSrc, ethSrc)
  {
  }

  /** The sender of an Internet packet is learnt if it is on the local network and the cache takes it. */
  lemma IpSenderLearntIff(t: Table, n: Netif, ipSrc: Ip, ethSrc: Mac)
    requires Good(t) && ipSrc.addr != 0 && OnLocalNet(n, ipSrc)
    ensures Lookup(IpInput(t, n, ipSrc, ethSrc), ipSrc) == Some(ethSrc) <==> TakesAnswer(t, ipSrc)
  {
    LocalSenderUpdates(t, n, ipSrc, ethSrc);
    LearntIff(t, ipSrc, ethSrc);
  }

  /** Otherwise nothing is. */
  lemma ForeignSenderIgnored(t: Table, n: Netif, ipSrc: Ip, ethSrc: Mac)
    requires !OnLocalNet(n, ipSrc)
    ensures IpInput(t, n, ipSrc, ethSrc) == t
  {
  }
}
