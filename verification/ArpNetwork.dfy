/** Several hosts on one network, all running the address resolution module. */
module ArpNetwork {
  import opened ArpTable
  import opened ArpFrames
  import opened ArpModule

  datatype Host = Host(netif: Netif, table: Table)

  /** A frame: an address resolution packet, or an Internet packet of which only the addresses matter here. */
  datatype Frame = Arp(header: Header) | Inet(dest: Mac, src: Mac, ipSrc: Ip)

  /** The hosts, and every frame ever sent; frames may be delivered to any host, in any order, any number of times,
      or never. */
  datatype Net = Net(hosts: seq<Host>, wire: set<Frame>)

  datatype Step =
    | Timer(host: nat)
    | Deliver(host: nat, frame: Frame)
    | Output(host: nat, dst: Option<Ip>, ipSrc: Ip, memory: bool)   // with or without memory for a request
    | Inject(frame: Frame)                                           // sent by some other equipment

  function Next(net: Net, step: Step): Net {
    match step
    case Timer(i) => if i < |net.hosts| then WithTable(net, i, Tick(net.hosts[i].table)) else net
    case Deliver(i, f) => if i < |net.hosts| && f in net.wire then Delivered(net, i, f) else net
    case Output(i, dst, ipSrc, memory) => if i < |net.hosts| then Sent(net, i, dst, ipSrc, memory) else net
    case Inject(f) => net.(wire := net.wire + {f})
  }

  function WithTable(net: Net, i: nat, t: Table): Net
    requires i < |net.hosts|
  {
    net.(hosts := net.hosts[i := net.hosts[i].(table := t)])
  }

  function Delivered(net: Net, i: nat, f: Frame): Net
    requires i < |net.hosts|
  {
    var n, t := net.hosts[i].netif, net.hosts[i].table;
    match f
    case Arp(h) =>
      var answer := ArpAnswer(n, h);
      WithTable(net, i, ArpInput(t, n, h)).(wire := net.wire + if answer.Some? then {Arp(answer.value)} else {})
    case Inet(_, src, ipSrc) => WithTable(net, i, IpInput(t, n, ipSrc, src))
  }

  function Sent(net: Net, i: nat, dst: Option<Ip>, ipSrc: Ip, memory: bool): Net
    requires i < |net.hosts|
  {
    var n, t := net.hosts[i].netif, net.hosts[i].table;
    match OutcomeOf(t, n, dst)
    case Drops => net
    case Sends(dest) => net.(wire := net.wire + {Inet(dest, n.hwaddr, ipSrc)})
    case Seeks(ip) =>
      var asked := if memory && Asks(t, ip) then {Arp(RequestFor(n, ip))} else {};
      WithTable(net, i, Query(t, ip)).(wire := net.wire + asked)
  }

  function Reached(net: Net, steps: seq<Step>): Net {
    if steps == [] then net else Next(Reached(net, steps[..|steps| - 1]), steps[|steps| - 1])
  }

  // ---- Truth ----

  /** Which hardware address each Internet address really has. */
  type Truth = map<Ip, Mac>

  predicate TruePair(truth: Truth, ip: Ip, mac: Mac) {
    ip.addr == 0 || (ip in truth && truth[ip] == mac)
  }

  /** A frame that claims nothing false: the sender of a request, both parties of a reply, and the sender of an
      Internet packet that some host takes for local. */
  predicate Truthful(truth: Truth, hosts: seq<Host>, f: Frame) {
    match f
    case Arp(h) =>
      && (Htons(h.opcode) == ARP_REQUEST || Htons(h.opcode) == ARP_REPLY ==> TruePair(truth, h.sipaddr, h.shwaddr))
      && (Htons(h.opcode) == ARP_REPLY ==> TruePair(truth, h.dipaddr, h.dhwaddr))
    case Inet(_, src, ipSrc) =>
      forall i :: 0 <= i < |hosts| && SameNet(ipSrc, hosts[i].netif.ip, hosts[i].netif.netmask) ==>
        TruePair(truth, ipSrc, src)
  }

  /** The hosts use their own addresses, other equipment says nothing false, and a host sends packets of its own or
      such as no host takes for local (those a gateway passes on). */
  predicate Honest(truth: Truth, hosts: seq<Host>, step: Step) {
    match step
    case Timer(_) => true
    case Deliver(_, _) => true
    case Output(i, _, ipSrc, _) => i < |hosts| ==> Truthful(truth, hosts, Inet(BROADCAST, hosts[i].netif.hwaddr, ipSrc))
    case Inject(f) => Truthful(truth, hosts, f)
  }

  predicate TrueTable(truth: Truth, t: Table) {
    Good(t) && forall i :: 0 <= i < ARP_TABLE_SIZE && t[i].state == Stable ==> TruePair(truth, t[i].ip, t[i].mac)
  }

  /** Every confirmed entry of every host is true. */
  predicate TrueHosts(truth: Truth, hosts: seq<Host>) {
    forall i :: 0 <= i < |hosts| ==>
      TruePair(truth, hosts[i].netif.ip, hosts[i].netif.hwaddr) && TrueTable(truth, hosts[i].table)
  }

  /** Every frame on the wire is truthful. */
  predicate TrueWire(truth: Truth, net: Net) {
    forall f :: f in net.wire ==> Truthful(truth, net.hosts, f)
  }

  predicate SameNetifs(hosts: seq<Host>, others: seq<Host>) {
    |hosts| == |others| && forall i :: 0 <= i < |hosts| ==> hosts[i].netif == others[i].netif
  }

  lemma UpdateTrue(truth: Truth, t: Table, ip: Ip, mac: Mac)
    requires TrueTable(truth, t) && TruePair(truth, ip, mac)
    ensures TrueTable(truth, Update(t, ip, mac))
  {
  }

  lemma QueryTrue(truth: Truth, t: Table, ip: Ip)
    requires TrueTable(truth, t)
    ensures TrueTable(truth, Query(t, ip))
  {
    assert Good(Query(t, ip)) by {
      QueryRefines(t, ip);
    }
    forall i | 0 <= i < ARP_TABLE_SIZE && Query(t, ip)[i].state == Stable
      ensures TruePair(truth, Query(t, ip)[i].ip, Query(t, ip)[i].mac)
    {
      StableUnqueried(t, ip, i);
    }
  }

  lemma StableUnqueried(t: Table, ip: Ip, i: nat)
    requires i < ARP_TABLE_SIZE && Query(t, ip)[i].state == Stable
    ensures Query(t, ip)[i] == t[i]
  {
  }

  lemma TickTrue(truth: Truth, t: Table)
    requires TrueTable(truth, t)
    ensures TrueTable(truth, Tick(t))
  {
  }

  lemma OpcodesOnWire()
    ensures Htons(Htons(ARP_REQUEST)) == ARP_REQUEST && Htons(Htons(ARP_REPLY)) == ARP_REPLY
    ensures ARP_REQUEST != ARP_REPLY
  {
  }

  /** What a truthful packet does to a host: its table stays true, and what it answers is truthful. */
  lemma ArpInputTrue(truth: Truth, t: Table, n: Netif, h: Header, hosts: seq<Host>)
    requires TrueTable(truth, t) && TruePair(truth, n.ip, n.hwaddr) && Truthful(truth, hosts, Arp(h))
    ensures TrueTable(truth, ArpInput(t, n, h))
    ensures ArpAnswer(n, h).Some? ==> Truthful(truth, hosts, Arp(ArpAnswer(n, h).value))
  {
    OpcodesOnWire();
    if Htons(h.opcode) == ARP_REQUEST || Htons(h.opcode) == ARP_REPLY {
      UpdateTrue(truth, t, h.sipaddr, h.shwaddr);
      if Htons(h.opcode) == ARP_REPLY {
        UpdateTrue(truth, Update(t, h.sipaddr, h.shwaddr), h.dipaddr, h.dhwaddr);
      }
    }
  }

  /** A step keeps the addresses of the hosts, whether a frame is truthful, and the truth of tables and wire. */
  lemma StepTrue(truth: Truth, net: Net, step: Step)
    requires TrueHosts(truth, net.hosts) && TrueWire(truth, net) && Honest(truth, net.hosts, step)
    ensures var u := Next(net, step);
            TrueHosts(truth, u.hosts) && TrueWire(truth, u) && SameNetifs(net.hosts, u.hosts)
  {
    match step
    case Timer(i) =>
      if i < |net.hosts| {
        TickTrue(truth, net.hosts[i].table);
      }
    case Deliver(i, f) =>
      if i < |net.hosts| && f in net.wire {
        DeliverTrue(truth, net, i, f);
      }
    case Output(i, dst, ipSrc, memory) =>
      if i < |net.hosts| {
        OutputTrue(truth, net, i, dst, ipSrc, memory);
      }
    case Inject(f) =>
  }

  lemma DeliverTrue(truth: Truth, net: Net, i: nat, f: Frame)
    requires i < |net.hosts| && f in net.wire && TrueHosts(truth, net.hosts) && TrueWire(truth, net)
    ensures var u := Delivered(net, i, f);
            TrueHosts(truth, u.hosts) && TrueWire(truth, u) && SameNetifs(net.hosts, u.hosts)
  {
    var n, t := net.hosts[i].netif, net.hosts[i].table;
    match f
    case Arp(h) => ArpInputTrue(truth, t, n, h, net.hosts);
    case Inet(_, src, ipSrc) =>
      if SameNet(ipSrc, n.ip, n.netmask) {
        UpdateTrue(truth, t, ipSrc, src);
      }
  }

  lemma OutputTrue(truth: Truth, net: Net, i: nat, dst: Option<Ip>, ipSrc: Ip, memory: bool)
    requires i < |net.hosts| && TrueHosts(truth, net.hosts) && TrueWire(truth, net)
    requires Truthful(truth, net.hosts, Inet(BROADCAST, net.hosts[i].netif.hwaddr, ipSrc))
    ensures var u := Sent(net, i, dst, ipSrc, memory);
            TrueHosts(truth, u.hosts) && TrueWire(truth, u) && SameNetifs(net.hosts, u.hosts)
  {
    var n, t := net.hosts[i].netif, net.hosts[i].table;
    OpcodesOnWire();
    var o := OutcomeOf(t, n, dst);
    if o.Seeks? {
      QueryTrue(truth, t, o.ip);
    }
  }

  predicate AllHonest(truth: Truth, hosts: seq<Host>, steps: seq<Step>) {
    forall k :: 0 <= k < |steps| ==> Honest(truth, hosts, steps[k])
  }

  lemma HonestForSameNetifs(truth: Truth, hosts: seq<Host>, others: seq<Host>, step: Step)
    requires SameNetifs(hosts, others) && Honest(truth, hosts, step)
    ensures Honest(truth, others, step)
  {
  }

  /** Whatever the hosts do, whatever is lost, repeated or reordered, and whatever truthful frames others send: every
      confirmed entry of every host is true, and every frame on the wire is truthful. */
  lemma {:induction false} NetworkTrue(truth: Truth, net: Net, steps: seq<Step>)
    requires TrueHosts(truth, net.hosts) && net.wire == {} && AllHonest(truth, net.hosts, steps)
    ensures var u := Reached(net, steps);
            TrueHosts(truth, u.hosts) && TrueWire(truth, u) && SameNetifs(net.hosts, u.hosts)
    decreases |steps|
  {
    if steps != [] {
      var init := steps[..|steps| - 1];
      NetworkTrue(truth, net, init);
      HonestForSameNetifs(truth, net.hosts, Reached(net, init).hosts, steps[|steps| - 1]);
      StepTrue(truth, Reached(net, init), steps[|steps| - 1]);
    }
  }

  /** So in any such run, a packet a host sends to one other host is addressed to the real hardware address of the
      next hop. */
  lemma UnicastReachesNextHop(truth: Truth, net: Net, steps: seq<Step>, i: nat, dst: Option<Ip>)
    requires TrueHosts(truth, net.hosts) && net.wire == {} && AllHonest(truth, net.hosts, steps)
    requires i < |Reached(net, steps).hosts|
    ensures var h := Reached(net, steps).hosts[i];
            var route, o := Route(h.netif, dst), OutcomeOf(h.table, h.netif, dst);
            route.ToHop? && o.Sends? ==> route.ip in truth && o.dest == truth[route.ip]
  {
    NetworkTrue(truth, net, steps);
    var h := Reached(net, steps).hosts[i];
    var route := Route(h.netif, dst);
    if route.ToHop? {
      LookupTrue(truth, h.table, route.ip);
    }
  }

  lemma LookupTrue(truth: Truth, t: Table, ip: Ip)
    requires TrueTable(truth, t)
    ensures Lookup(t, ip).Some? ==> ip in truth && truth[ip] == Lookup(t, ip).value
  {
  }
}
