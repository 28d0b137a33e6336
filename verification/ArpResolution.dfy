/** What the runs of a network do to one host's cache, and a host that finds another's address. */
module ArpResolution {
  import opened ArpTable
  import opened ArpFrames
  import opened ArpModule
  import opened ArpHistory
  import opened ArpNetwork

  /** What a host's cache sees of a packet. */
  function ArpEvents(n: Netif, h: Header): seq<Event> {
    var sender, target := Learnt(h.sipaddr, h.shwaddr), Learnt(h.dipaddr, h.dhwaddr);
    if Htons(h.opcode) == ARP_REQUEST then if n.ip.addr == 0 then [] else [sender]
    else if Htons(h.opcode) != ARP_REPLY then []
    else if h.dipaddr == n.ip then [sender] else [sender, target]
  }

  function FrameEvents(n: Netif, f: Frame): seq<Event> {
    match f
    case Arp(h) => ArpEvents(n, h)
    case Inet(_, src, ipSrc) => if SameNet(ipSrc, n.ip, n.netmask) then [Learnt(ipSrc, src)] else []
  }

  /** What the i-th host's cache sees of a step. */
  function StepEvents(net: Net, step: Step, i: nat): seq<Event>
    requires i < |net.hosts|
  {
    match step
    case Timer(k) => if k == i then [Ticked] else []
    case Deliver(k, f) => if k == i && f in net.wire then FrameEvents(net.hosts[i].netif, f) else []
    case Output(k, dst, _, _) =>
      var o := OutcomeOf(net.hosts[i].table, net.hosts[i].netif, dst);
      if k == i && o.Seeks? then [Queried(o.ip)] else []
    case Inject(_) => []
  }

  function HostEvents(net: Net, steps: seq<Step>, i: nat): seq<Event>
    requires i < |net.hosts|
  {
    if steps == [] then [] else
      var init := steps[..|steps| - 1];
      RunKeepsHosts(net, init);
      HostEvents(net, init, i) + StepEvents(Reached(net, init), steps[|steps| - 1], i)
  }

  /** The hosts keep their addresses, and what has been sent stays on the wire. */
  predicate Continues(net: Net, u: Net) {
    SameNetifs(net.hosts, u.hosts) && net.wire <= u.wire
  }

  lemma NextKeepsHosts(net: Net, step: Step)
    ensures Continues(net, Next(net, step))
  {
    match step
    case Timer(_) =>
    case Deliver(_, _) =>
    case Output(_, _, _, _) =>
    case Inject(_) =>
  }

  lemma {:induction false} RunKeepsHosts(net: Net, steps: seq<Step>)
    ensures Continues(net, Reached(net, steps))
    decreases |steps|
  {
    if steps != [] {
      RunKeepsHosts(net, steps[..|steps| - 1]);
      NextKeepsHosts(Reached(net, steps[..|steps| - 1]), steps[|steps| - 1]);
    }
  }

  lemma EventsOfOne(t: Table, e: Event)
    ensures RunFrom(t, [e]) == ArpHistory.Step(t, e)
  {
    assert [e][..0] == [];
  }

  lemma EventsOfTwo(t: Table, e: Event, f: Event)
    ensures RunFrom(t, [e, f]) == ArpHistory.Step(ArpHistory.Step(t, e), f)
  {
    assert [e, f][..1] == [e];
    EventsOfOne(t, e);
  }

  function Received(t: Table, n: Netif, f: Frame): Table {
    match f
    case Arp(h) => ArpInput(t, n, h)
    case Inet(_, src, ipSrc) => IpInput(t, n, ipSrc, src)
  }

  lemma FrameIsEvents(t: Table, n: Netif, f: Frame)
    ensures RunFrom(t, FrameEvents(n, f)) == Received(t, n, f)
  {
    match f
    case Arp(h) =>
      EventsOfOne(t, Learnt(h.sipaddr, h.shwaddr));
      EventsOfTwo(t, Learnt(h.sipaddr, h.shwaddr), Learnt(h.dipaddr, h.dhwaddr));
    case Inet(_, src, ipSrc) => EventsOfOne(t, Learnt(ipSrc, src));
  }

  lemma StepIsEvents(net: Net, step: Step, i: nat)
    requires i < |net.hosts|
    ensures i < |Next(net, step).hosts|
    ensures Next(net, step).hosts[i].table == RunFrom(net.hosts[i].table, StepEvents(net, step, i))
  {
    NextKeepsHosts(net, step);
    var t := net.hosts[i].table;
    match step
    case Timer(_) => EventsOfOne(t, Ticked);
    case Deliver(_, f) => FrameIsEvents(t, net.hosts[i].netif, f);
    case Output(_, dst, _, _) =>
      var o := OutcomeOf(t, net.hosts[i].netif, dst);
      if o.Seeks? {
        EventsOfOne(t, Queried(o.ip));
      }
    case Inject(_) =>
  }

  lemma {:induction false} EventsJoin(t: Table, a: seq<Event>, b: seq<Event>)
    ensures RunFrom(t, a + b) == RunFrom(RunFrom(t, a), b)
    decreases |b|
  {
    if b == [] {
      assert a + b == a;
    } else {
      EventsJoin(t, a, b[..|b| - 1]);
      assert (a + b)[..|a + b| - 1] == a + b[..|b| - 1];
    }
  }

  /** In every run of the network, each host's cache is what its own history of ticks, learnt pairs and queries makes
      of it: what holds of the cache after every history holds in the network. */
  lemma {:induction false} RunIsHistory(net: Net, steps: seq<Step>, i: nat)
    requires i < |net.hosts|
    ensures i < |Reached(net, steps).hosts|
    ensures Reached(net, steps).hosts[i].table == RunFrom(net.hosts[i].table, HostEvents(net, steps, i))
    decreases |steps|
  {
    RunKeepsHosts(net, steps);
    if steps != [] {
      var init, last := steps[..|steps| - 1], steps[|steps| - 1];
      RunIsHistory(net, init, i);
      StepIsEvents(Reached(net, init), last, i);
      EventsJoin(net.hosts[i].table, HostEvents(net, init, i), StepEvents(Reached(net, init), last, i));
    }
  }

  lemma {:induction false} RunJoin(net: Net, a: seq<Step>, b: seq<Step>)
    ensures Reached(net, a + b) == Reached(Reached(net, a), b)
    decreases |b|
  {
    if b == [] {
      assert a + b == a;
    } else {
      RunJoin(net, a, b[..|b| - 1]);
      assert (a + b)[..|a + b| - 1] == a + b[..|b| - 1];
    }
  }

  lemma RunOne(net: Net, step: Step)
    ensures Reached(net, [step]) == Next(net, step)
  {
    assert [step][..0] == [];
  }

  // ---- Two hosts ----

  /** An address that is sought and not waiting yet starts waiting with age 0. */
  lemma AskedIsWaiting(t: Table, ip: Ip)
    requires Good(t) && Asks(t, ip)
    ensures var b := Bound(Query(t, ip), ip);
            b.Some? && b.value.Waiting? && b.value.age < ARP_MAXPENDING && (Bound(t, ip) == None ==> b.value.age == 0)
  {
    if Live(t, ip) == ARP_TABLE_SIZE {
      VictimIs(t);
      LiveOnlyAt(t, ip, Victim(t));
      Overwrite(t, Victim(t), Entry(ip, t[Victim(t)].mac, Pending, 0));
    } else {
      assert InDate(t[Live(t, ip)]);
    }
  }

  /** The request one host sends for another's address, and the answer. */
  function Request(a: Netif, b: Netif): Frame {
    Arp(RequestFor(a, b.ip))
  }

  function Answer(a: Netif, b: Netif): Frame {
    Arp(ReplyTo(RequestFor(a, b.ip), b))
  }

  lemma Answered(a: Netif, b: Netif)
    requires b.ip.addr != 0
    ensures ArpAnswer(b, RequestFor(a, b.ip)) == Some(ReplyTo(RequestFor(a, b.ip), b))
  {
    OpcodesOnWire();
  }

  /** Between the request and the answer's arrival: anything, the delivery of the request, and anything again. */
  function Between(s1: seq<Step>, j: nat, request: Frame, s2: seq<Step>): seq<Step> {
    s1 + [Deliver(j, request)] + s2
  }

  /** If the request is on the wire at first, the answer is in the end. */
  lemma AnswerIsSent(net: Net, i: nat, j: nat, s1: seq<Step>, s2: seq<Step>)
    requires i < |net.hosts| && j < |net.hosts| && net.hosts[j].netif.ip.addr != 0
    requires Request(net.hosts[i].netif, net.hosts[j].netif) in net.wire
    ensures var a, b := net.hosts[i].netif, net.hosts[j].netif;
            Answer(a, b) in Reached(net, Between(s1, j, Request(a, b), s2)).wire
  {
    var a, b := net.hosts[i].netif, net.hosts[j].netif;
    var deliver := Deliver(j, Request(a, b));
    RunKeepsHosts(net, s1);
    Answered(a, b);
    RunJoin(net, s1, [deliver]);
    RunOne(Reached(net, s1), deliver);
    RunJoin(net, s1 + [deliver], s2);
    RunKeepsHosts(Reached(net, s1 + [deliver]), s2);
  }

  /** The address is in the cache, waiting or confirmed, or some entry is not waiting. */
  predicate TakesAnswer(t: Table, ip: Ip) {
    Bound(t, ip).Some? || exists k :: 0 <= k < ARP_TABLE_SIZE && t[k].state != Pending
  }

  /** When an answer arrives, the next packet for that hop carries the address in it exactly when the hop is in the
      cache still, waiting or confirmed, or some entry is not waiting. */
  lemma AnswerResolvesIff(t: Table, a: Netif, b: Netif, dst: Option<Ip>)
    requires Good(t) && b.ip.addr != 0 && Route(a, dst) == ToHop(b.ip)
    ensures OutcomeOf(ArpInput(t, a, ReplyTo(RequestFor(a, b.ip), b)), a, dst) == Sends(b.hwaddr) <==>
            TakesAnswer(t, b.ip)
  {
    OpcodesOnWire();
    LearntIff(t, b.ip, b.hwaddr);
  }

  /** Host i sends a packet whose next hop is host j, does not know j's address and asks for it. Whatever happens on
      the network before and after the request reaches j: once the answer reaches i, i's next packet for that hop
      carries j's hardware address if and only if, as it arrived, i's cache still had the hop or an entry that is not
      waiting. */
  lemma ResolutionIff(net: Net, i: nat, j: nat, dst: Option<Ip>, ipSrc: Ip, s1: seq<Step>, s2: seq<Step>)
    requires i < |net.hosts| && j < |net.hosts| && Good(net.hosts[i].table) && net.hosts[j].netif.ip.addr != 0
    requires var a, b, t := net.hosts[i].netif, net.hosts[j].netif, net.hosts[i].table;
             Route(a, dst) == ToHop(b.ip) && Lookup(t, b.ip).None? && Asks(t, b.ip)
    ensures var a, b := net.hosts[i].netif, net.hosts[j].netif;
            var asked := [Output(i, dst, ipSrc, true)] + Between(s1, j, Request(a, b), s2);
            var u, v := Reached(net, asked), Reached(net, asked + [Deliver(i, Answer(a, b))]);
            && i < |u.hosts| && i < |v.hosts|
            && (OutcomeOf(v.hosts[i].table, a, dst) == Sends(b.hwaddr) <==> TakesAnswer(u.hosts[i].table, b.ip))
  {
    var a, b, t := net.hosts[i].netif, net.hosts[j].netif, net.hosts[i].table;
    var output, middle := Output(i, dst, ipSrc, true), Between(s1, j, Request(a, b), s2);
    var asked := Sent(net, i, dst, ipSrc, true);
    NextKeepsHosts(net, output);
    RunOne(net, output);
    RunJoin(net, [output], middle);
    var u := Reached(asked, middle);
    RunKeepsHosts(asked, middle);
    AnswerIsSent(asked, i, j, s1, s2);
    RunJoin(net, [output] + middle, [Deliver(i, Answer(a, b))]);
    RunOne(u, Deliver(i, Answer(a, b)));
    StaysGood(asked, middle, i, b.ip, t);
    AnswerResolvesIff(u.hosts[i].table, a, b, dst);
  }

  lemma StaysGood(net: Net, steps: seq<Step>, i: nat, ip: Ip, t: Table)
    requires i < |net.hosts| && Good(t) && net.hosts[i].table == Query(t, ip)
    ensures var u := Reached(net, steps); i < |u.hosts| && Good(u.hosts[i].table)
  {
    RunIsHistory(net, steps, i);
    QueryRefines(t, ip);
    RunGood(Query(t, ip), HostEvents(net, steps, i));
  }

  /** In particular, if i has not heard of j's address otherwise, and the answer reaches it before its entry has seen
      the second tick, that packet carries j's hardware address. */
  lemma Resolution(net: Net, i: nat, j: nat, dst: Option<Ip>, ipSrc: Ip, s1: seq<Step>, s2: seq<Step>)
    requires i < |net.hosts| && j < |net.hosts| && Good(net.hosts[i].table) && net.hosts[j].netif.ip.addr != 0
    requires var a, b, t := net.hosts[i].netif, net.hosts[j].netif, net.hosts[i].table;
             && Route(a, dst) == ToHop(b.ip) && Lookup(t, b.ip).None? && Asks(t, b.ip)
             && (var es := HostEvents(Sent(net, i, dst, ipSrc, true), Between(s1, j, Request(a, b), s2), i);
                 && NeverLearnt(es, b.ip)
                 && AgeOf(Query(t, b.ip), b.ip) + Ticks(es) < ARP_MAXPENDING)
    ensures var a, b := net.hosts[i].netif, net.hosts[j].netif;
            var steps := [Output(i, dst, ipSrc, true)] + Between(s1, j, Request(a, b), s2) + [Deliver(i, Answer(a, b))];
            var u := Reached(net, steps);
            i < |u.hosts| && OutcomeOf(u.hosts[i].table, a, dst) == Sends(b.hwaddr)
  {
    var a, b, t := net.hosts[i].netif, net.hosts[j].netif, net.hosts[i].table;
    var output, middle := Output(i, dst, ipSrc, true), Between(s1, j, Request(a, b), s2);
    NextKeepsHosts(net, output);
    RunOne(net, output);
    RunJoin(net, [output], middle);
    StillWaiting(Sent(net, i, dst, ipSrc, true), middle, i, b.ip, t);
    ResolutionIff(net, i, j, dst, ipSrc, s1, s2);
  }

  /** How old a waiting entry is. */
  function AgeOf(t: Table, ip: Ip): nat {
    var b := Bound(t, ip);
    if b.Some? then b.value.age else 0
  }

  lemma StillWaiting(net: Net, steps: seq<Step>, i: nat, ip: Ip, t: Table)
    requires i < |net.hosts| && Good(t) && Asks(t, ip) && net.hosts[i].table == Query(t, ip)
    requires NeverLearnt(HostEvents(net, steps, i), ip)
    requires AgeOf(Query(t, ip), ip) + Ticks(HostEvents(net, steps, i)) < ARP_MAXPENDING
    ensures var u := Reached(net, steps);
            i < |u.hosts| && Good(u.hosts[i].table) && Bound(u.hosts[i].table, ip).Some?
  {
    var es := HostEvents(net, steps, i);
    RunIsHistory(net, steps, i);
    QueryRefines(t, ip);
    AskedIsWaiting(t, ip);
    RunGood(Query(t, ip), es);
    PendingLasts(Query(t, ip), es, ip, AgeOf(Query(t, ip), ip));
  }
}
