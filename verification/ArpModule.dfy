/** The operations of the address resolution module: what a host does with arriving and outgoing packets. */
module ArpModule {
  import opened ArpTable
  import opened ArpFrames

  // ---- What each operation amounts to ----

  /** The table after an address resolution packet has been received. */
  function ArpInput(t: Table, n: Netif, h: Header): Table {
    if Htons(h.opcode) == ARP_REQUEST then
      if n.ip.addr == 0 then t else Update(t, h.sipaddr, h.shwaddr)
    else if Htons(h.opcode) == ARP_REPLY then
      var u := Update(t, h.sipaddr, h.shwaddr);
      if h.dipaddr == n.ip then u else Update(u, h.dipaddr, h.dhwaddr)
    else t
  }

  /** The reply it calls for. */
  function ArpAnswer(n: Netif, h: Header): Option<Header> {
    if Htons(h.opcode) == ARP_REQUEST && n.ip.addr != 0 && h.dipaddr == n.ip then Some(ReplyTo(h, n)) else None
  }

  /** The table after an Internet packet has been received. */
  function IpInput(t: Table, n: Netif, ipSrc: Ip, ethSrc: Mac): Table {
    if SameNet(ipSrc, n.ip, n.netmask) then Update(t, ipSrc, ethSrc) else t
  }

  /** What becomes of an outgoing packet. */
  datatype Outcome = Sends(dest: Mac) | Seeks(ip: Ip) | Drops

  function OutcomeOf(t: Table, n: Netif, dst: Option<Ip>): Outcome {
    match Route(n, dst)
    case ToAll => Sends(BROADCAST)
    case ToGroup(ip) => Sends(GroupMac(Htonl(ip.addr)))
    case Nowhere => Drops
    case ToHop(ip) =>
      var r := Lookup(t, ip);
      if r.Some? then Sends(r.value) else Seeks(ip)
  }

  // ---- The module ----

  class EthHdr {
    var dest: Mac
    var src: Mac
    var ethType: bv16

    /** Addresses the frame. */
    method Fill(to: Mac, from: Mac)
      modifies this
      ensures dest == to && src == from && ethType == Htons(ETHTYPE_IP)
    {
      for i := 0 to 6
        invariant forall k :: 0 <= k < i ==> dest[k] == to[k] && src[k] == from[k]
      {
        dest := dest[i := to[i]];
        src := src[i := from[i]];
      }
      ethType := Htons(ETHTYPE_IP);
    }
  }

  class Etharp {
    const table: array<Entry>

    ghost predicate Valid()
      reads this
    {
      table.Length == ARP_TABLE_SIZE
    }

    /** Clears the entries. */
    constructor ()
      ensures Valid() && fresh(table) && forall i :: 0 <= i < ARP_TABLE_SIZE ==> table[i].state == Empty
    {
      table := new Entry[ARP_TABLE_SIZE](_ => Entry(Ip(0), NO_MAC, Empty, 0));
    }

    /** The timer: ages every entry and empties those past their age. */
    method EtharpTmr()
      requires Valid()
      modifies table
      ensures table[..] == Tick(old(table[..]))
    {
      for i := 0 to ARP_TABLE_SIZE
        invariant forall j :: 0 <= j < ARP_TABLE_SIZE ==>
                    table[j] == if j < i then TickEntry(old(table[j])) else old(table[j])
      {
        table[i] := table[i].(ctime := if table[i].ctime == 0xFF then 0 else table[i].ctime + 1);
        if table[i].state == Stable && table[i].ctime >= ARP_MAXAGE {
          table[i] := table[i].(state := Empty);
        } else if table[i].state == Pending && table[i].ctime >= ARP_MAXPENDING {
          table[i] := table[i].(state := Empty);
        }
      }
    }

    /** Finds an entry for a new address. */
    method FindArpEntry() returns (i: nat)
      requires Valid()
      ensures i == Victim(table[..])
    {
      ghost var t: Table := table[..];
      i := 0;
      while i < ARP_TABLE_SIZE && table[i].state != Empty
        invariant i <= ARP_TABLE_SIZE
        invariant forall j :: 0 <= j < i ==> t[j].state != Empty
      {
        i := i + 1;
      }
      if i == ARP_TABLE_SIZE {
        assert FirstEmpty(t, |t|) == ARP_TABLE_SIZE;
        var j, maxtime := ARP_TABLE_SIZE, 0;
        for k := 0 to ARP_TABLE_SIZE
          invariant j == LastOldest(t, k) && maxtime == if j < k then t[j].ctime else 0
        {
          if table[k].state == Stable && table[k].ctime >= maxtime {
            maxtime := table[k].ctime;
            j := k;
          }
        }
        i := j;
      }
    }

    /** Learns a pair. */
    method UpdateArpEntry(ip: Ip, mac: Mac)
      requires Valid()
      modifies table
      ensures table[..] == Update(old(table[..]), ip, mac)
    {
      ghost var t: Table := table[..];
      if ip.addr == 0 {
        return;
      }
      for i := 0 to ARP_TABLE_SIZE
        invariant table[..] == t
        invariant forall j :: 0 <= j < i ==> !IsLive(t[j], ip)
      {
        if ip == table[i].ip {
          if table[i].state == Pending {
            table[i] := table[i].(state := Stable);
          }
          if table[i].state == Stable {
            assert Live(t, ip) == i;
            table[i] := table[i].(mac := mac, ctime := 0);
            return;
          }
        }
      }
      assert Live(t, ip) == ARP_TABLE_SIZE;
      var i := FindArpEntry();
      if i == ARP_TABLE_SIZE {
        return;
      }
      table[i] := Entry(ip, mac, Stable, 0);
    }

    /** Whether an entry waits for the address or answers for it, and which. */
    method FindLive(ip: Ip) returns (i: nat)
      requires Valid()
      ensures i == Live(table[..], ip)
    {
      ghost var t: Table := table[..];
      i := 0;
      while i < ARP_TABLE_SIZE && !(ip == table[i].ip && table[i].state != Empty)
        invariant i <= ARP_TABLE_SIZE
        invariant forall j :: 0 <= j < i ==> !IsLive(t[j], ip)
      {
        i := i + 1;
      }
    }

    /** Sends a request for an address, unless it is answered already or no entry can wait for it. What a new packet
        buffer holds is given, None when there is no memory for one. */
    method EtharpQuery(n: Netif, ip: Ip, buffer: Option<Header>) returns (request: EtharpHdr?)
      requires Valid()
      modifies table
      ensures table[..] == Query(old(table[..]), ip)
      ensures request != null <==> Asks(old(table[..]), ip) && buffer.Some?
      ensures request != null ==> fresh(request) && request.Value() == RequestFor(n, ip)
    {
      request := null;
      var i := FindLive(ip);
      if i < ARP_TABLE_SIZE && table[i].state == Stable {
        return;
      }
      if i == ARP_TABLE_SIZE {
        i := FindArpEntry();
        if i == ARP_TABLE_SIZE {
          return;
        }
        table[i] := table[i].(ip := ip, ctime := 0, state := Pending);
      }
      if buffer.Some? {
        request := new EtharpHdr(buffer.value);
        request.Request(n, ip);
      }
    }

    /** Receives an address resolution packet of totLen bytes; a request for this interface's address is turned into
        the reply, in place. */
    method EtharpArpInput(n: Netif, hdr: EtharpHdr, totLen: nat) returns (replied: bool)
      requires Valid()
      modifies table, hdr
      ensures totLen < ARP_HDR_SIZE ==> table[..] == old(table[..]) && hdr.Value() == old(hdr.Value()) && !replied
      ensures totLen >= ARP_HDR_SIZE ==> table[..] == ArpInput(old(table[..]), n, old(hdr.Value()))
      ensures totLen >= ARP_HDR_SIZE ==> replied == ArpAnswer(n, old(hdr.Value())).Some?
      ensures replied ==> hdr.Value() == ArpAnswer(n, old(hdr.Value())).value
    {
      replied := false;
      if totLen < ARP_HDR_SIZE {
        return;
      }
      var op := Htons(hdr.opcode);
      if op == ARP_REQUEST {
        if n.ip.addr == 0 {
          return;
        }
        UpdateArpEntry(hdr.sipaddr, hdr.shwaddr);
        if hdr.dipaddr == n.ip {
          hdr.Reply(n);
          replied := true;
        }
      } else if op == ARP_REPLY {
        UpdateArpEntry(hdr.sipaddr, hdr.shwaddr);
        if hdr.dipaddr != n.ip {
          UpdateArpEntry(hdr.dipaddr, hdr.dhwaddr);
        }
      }
    }

    /** Receives an Internet packet: a sender on the local network is learnt. */
    method EtharpIpInput(n: Netif, ipSrc: Ip, ethSrc: Mac)
      requires Valid()
      modifies table
      ensures table[..] == IpInput(old(table[..]), n, ipSrc, ethSrc)
    {
      if SameNet(ipSrc, n.ip, n.netmask) {
        UpdateArpEntry(ipSrc, ethSrc);
      }
    }

    /** The hardware address of the first confirmed entry for an address. */
    method FindStable(ip: Ip) returns (r: Option<Mac>)
      requires Valid()
      ensures r == Lookup(table[..], ip)
    {
      r := None;
      for i := 0 to ARP_TABLE_SIZE
        invariant r == LookupIn(table[..], ip, i)
      {
        if r.None? && table[i].state == Stable && table[i].ip == ip {
          r := Some(table[i].mac);
        }
      }
    }

    /** Addresses an outgoing packet, if there is room for the header and the destination is known; otherwise the
        packet is dropped, and for a host that is not known a request may go out. */
    method EtharpOutput(n: Netif, dst: Option<Ip>, q: EthHdr, room: bool, buffer: Option<Header>)
      returns (sent: bool, request: EtharpHdr?)
      requires Valid()
      modifies table, q
      ensures !room ==> !sent && request == null && table[..] == old(table[..])
      ensures OutcomeOf(old(table[..]), n, dst).Seeks? && room ==>
                table[..] == Query(old(table[..]), OutcomeOf(old(table[..]), n, dst).ip)
      ensures !OutcomeOf(old(table[..]), n, dst).Seeks? ==> table[..] == old(table[..])
      ensures room ==> sent == OutcomeOf(old(table[..]), n, dst).Sends?
      ensures sent ==> q.dest == OutcomeOf(old(table[..]), n, dst).dest
      ensures sent ==> q.src == n.hwaddr && q.ethType == Htons(ETHTYPE_IP)
      ensures request != null ==> OutcomeOf(old(table[..]), n, dst).Seeks?
      ensures request != null ==> request.Value() == RequestFor(n, OutcomeOf(old(table[..]), n, dst).ip)
      ensures room && OutcomeOf(old(table[..]), n, dst).Seeks? ==>
        (request != null <==> buffer.Some? && Asks(old(table[..]), OutcomeOf(old(table[..]), n, dst).ip))
    {
      sent, request := false, null;
      if !room {
        return;
      }
      var dest := None;
      match Route(n, dst) {
        case ToAll => dest := Some(BROADCAST);
        case ToGroup(ip) => dest := Some(GroupMac(Htonl(ip.addr)));
        case Nowhere => return;
        case ToHop(ip) =>
          dest := FindStable(ip);
          if dest.None? {
            request := EtharpQuery(n, ip, buffer);
            return;
          }
      }
      q.Fill(dest.value, n.hwaddr);
      sent := true;
    }
  }
}
