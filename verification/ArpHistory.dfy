/** What the cache knows after any history of ticks, learnt pairs and queries. */
module ArpHistory {
  import opened ArpTable

  datatype Event = Ticked | Learnt(ip: Ip, mac: Mac) | Queried(ip: Ip)

  function Step(t: Table, e: Event): Table {
    match e
    case Ticked => Tick(t)
    case Learnt(ip, mac) => Update(t, ip, mac)
    case Queried(ip) => Query(t, ip)
  }

  function RunFrom(t: Table, es: seq<Event>): Table {
    if es == [] then t else Step(RunFrom(t, es[..|es| - 1]), es[|es| - 1])
  }

  /** The table before anything happened. */
  function InitTable(): Table {
    seq(ARP_TABLE_SIZE, _ => Entry(Ip(0), [0, 0, 0, 0, 0, 0], Empty, 0))
  }

  function Run(es: seq<Event>): Table {
    RunFrom(InitTable(), es)
  }

  /** The address was last learnt with this hardware address, and that many ticks have passed since. */
  function LastLearnt(es: seq<Event>, ip: Ip): (r: Option<Binding>)
    ensures r.Some? ==> r.value.Known?
  {
    if es == [] then None else
      var r := LastLearnt(es[..|es| - 1], ip);
      match es[|es| - 1]
      case Ticked => if r.Some? then Some(Aged(r.value)) else None
      case Learnt(a, mac) => if a == ip then Some(Known(mac, 0)) else r
      case Queried(_) => r
  }

  function Ticks(es: seq<Event>): nat {
    if es == [] then 0 else Ticks(es[..|es| - 1]) + TickOf(es[|es| - 1])
  }

  function TickOf(e: Event): nat {
    if e.Ticked? then 1 else 0
  }

  /** Placing an entry binds its address, unless there is no place; it touches no other binding, except that when
      nothing is empty and the address is not live a confirmed binding may go. */
  lemma PlaceBound(t: Table, e: Entry, a: Ip)
    requires Good(t) && e.state != Empty && InDate(e)
    ensures Good(Place(t, e))
    ensures var b := Bound(Place(t, e), a);
            if a == e.ip then b == Some(BindingOf(e)) || (b == None && Bound(t, a) == None && Full(t))
            else b == Bound(t, a) ||
                 (b == None && Bound(t, a).Some? && Bound(t, a).value.Known? && Full(t) && Bound(t, e.ip) == None)
  {
    var k := Live(t, e.ip);
    var i := if k < ARP_TABLE_SIZE then k else Victim(t);
    VictimIs(t);
    if i < ARP_TABLE_SIZE {
      LiveOnlyAt(t, e.ip, i);
      Overwrite(t, i, e);
      if IsLive(t[i], a) {
        LiveIs(t, i);
      }
    }
  }

  predicate Full(t: Table) {
    forall i :: 0 <= i < ARP_TABLE_SIZE ==> t[i].state != Empty
  }

  lemma StepGood(t: Table, e: Event)
    requires Good(t)
    ensures Good(Step(t, e))
  {
    match e
    case Ticked => TickBound(t, Ip(0));
    case Learnt(ip, mac) => UpdateRefines(t, ip, mac);
    case Queried(ip) => QueryRefines(t, ip);
  }

  lemma {:induction false} RunGood(t: Table, es: seq<Event>)
    requires Good(t)
    ensures Good(RunFrom(t, es))
    decreases |es|
  {
    if es != [] {
      RunGood(t, es[..|es| - 1]);
      StepGood(RunFrom(t, es[..|es| - 1]), es[|es| - 1]);
    }
  }

  /** In every reachable state no address has two live entries, a confirmed entry is less than 120 ticks old and an
      unanswered one less than 2. */
  lemma AlwaysGood(es: seq<Event>)
    ensures Good(Run(es))
  {
    RunGood(InitTable(), es);
  }

  // ---- A confirmed entry is what was last learnt ----

  lemma StepKnown(t: Table, e: Event, ip: Ip, last: Option<Binding>)
    requires Good(t)
    requires Bound(t, ip).Some? && Bound(t, ip).value.Known? ==> last == Bound(t, ip)
    ensures var b := Bound(Step(t, e), ip);
            b.Some? && b.value.Known? ==> (b == match e
              case Ticked => if last.Some? then Some(Aged(last.value)) else None
              case Learnt(a, mac) => if a == ip then Some(Known(mac, 0)) else last
              case Queried(_) => last)
  {
    match e
    case Ticked => TickBound(t, ip);
    case Learnt(a, mac) =>
      if a.addr != 0 {
        PlaceBound(t, Entry(a, mac, Stable, 0), ip);
      } else if Bound(t, ip).Some? && Bound(t, ip).value.Known? {
        assert InDate(t[Live(t, ip)]);
      }
    case Queried(a) =>
      if Live(t, a) == ARP_TABLE_SIZE && Victim(t) < ARP_TABLE_SIZE {
        PlaceBound(t, Entry(a, t[Victim(t)].mac, Pending, 0), ip);
      }
  }

  /** After any history, what the cache answers for an address is the hardware address it was last learnt with, and
      that was less than 120 ticks ago; the age in the entry is exactly the number of ticks since. */
  lemma {:induction false} KnownIsLastLearnt(es: seq<Event>, ip: Ip)
    ensures var b := Bound(Run(es), ip);
            b.Some? && b.value.Known? ==> LastLearnt(es, ip) == b && b.value.age < 120
    decreases |es|
  {
    if es != [] {
      var init := es[..|es| - 1];
      KnownIsLastLearnt(init, ip);
      AlwaysGood(init);
      StepKnown(Run(init), es[|es| - 1], ip, LastLearnt(init, ip));
    }
    AlwaysGood(es);
    assert Live(Run(es), ip) < ARP_TABLE_SIZE ==> InDate(Run(es)[Live(Run(es), ip)]);
  }

  // ---- With no more addresses than entries, nothing is ever evicted ----

  function Mentioned(es: seq<Event>): set<Ip> {
    if es == [] then {} else
      Mentioned(es[..|es| - 1]) +
      match es[|es| - 1] case Ticked => {} case Learnt(ip, _) => {ip} case Queried(ip) => {ip}
  }

  /** What an address would be bound to in a cache without bound. */
  function Life(es: seq<Event>, ip: Ip): Option<Binding> {
    if es == [] then None else LifeStep(Life(es[..|es| - 1], ip), es[|es| - 1], ip)
  }

  function LifeStep(l: Option<Binding>, e: Event, ip: Ip): Option<Binding> {
    match e
    case Ticked => if l.None? || Expires(l.value) then None else Some(Aged(l.value))
    case Learnt(a, mac) => if a == ip && a.addr != 0 then Some(Known(mac, 0)) else l
    case Queried(a) => if a == ip && l.None? then Some(Waiting(0)) else l
  }

  /** An address that is not live finds an empty entry, as long as it and the live ones are at most ten. */
  lemma RoomFor(t: Table, ip: Ip, known: set<Ip>)
    requires Good(t) && Bound(t, ip) == None && |known| <= ARP_TABLE_SIZE && ip in known
    requires forall a :: a in Keys(t, |t|) ==> a in known
    ensures !Full(t)
  {
    KeysAreBound(t);
    KeyCount(t, |t|);
    assert Keys(t, |t|) <= known - {ip};
    Smaller(Keys(t, |t|), known - {ip});
  }

  lemma {:induction false} Smaller(a: set<Ip>, b: set<Ip>)
    requires a <= b
    ensures |a| <= |b|
  {
    if a != {} {
      var x :| x in a;
      Smaller(a - {x}, b - {x});
    }
  }

  lemma StepWithRoom(t: Table, e: Event, ip: Ip)
    requires Good(t)
    requires e.Learnt? || e.Queried? ==> Bound(t, e.ip) != None || !Full(t)
    ensures Bound(Step(t, e), ip) == LifeStep(Bound(t, ip), e, ip)
  {
    match e
    case Ticked => TickBound(t, ip);
    case Learnt(a, mac) =>
      if a.addr != 0 {
        PlaceBound(t, Entry(a, mac, Stable, 0), ip);
      }
    case Queried(a) =>
      VictimIs(t);
      if Live(t, a) == ARP_TABLE_SIZE {
        PlaceBound(t, Entry(a, t[Victim(t)].mac, Pending, 0), ip);
      }
  }

  lemma {:induction false} MentionedGrows(es: seq<Event>)
    requires es != []
    ensures Mentioned(es[..|es| - 1]) <= Mentioned(es) && |Mentioned(es[..|es| - 1])| <= |Mentioned(es)|
  {
    Smaller(Mentioned(es[..|es| - 1]), Mentioned(es));
  }

  lemma {:induction false} FewAddresses(es: seq<Event>, ip: Ip)
    requires |Mentioned(es)| <= ARP_TABLE_SIZE
    ensures Bound(Run(es), ip) == Life(es, ip)
    ensures Life(es, ip) != None ==> ip in Mentioned(es)
    decreases |es|
  {
    if es != [] {
      var init, e := es[..|es| - 1], es[|es| - 1];
      var t := Run(init);
      MentionedGrows(es);
      AlwaysGood(init);
      FewAddresses(init, ip);
      if e != Ticked && Bound(t, e.ip) == None {
        KeysAreBound(t);
        forall a | a in Keys(t, |t|)
          ensures a in Mentioned(es)
        {
          FewAddresses(init, a);
        }
        RoomFor(t, e.ip, Mentioned(es));
      }
      StepWithRoom(t, e, ip);
    }
  }

  lemma {:induction false} LifeIsLastLearnt(es: seq<Event>, ip: Ip)
    requires ip.addr != 0
    ensures var l, last := Life(es, ip), LastLearnt(es, ip);
            && (last.Some? && last.value.age < ARP_MAXAGE ==> l == last)
            && (l.Some? && l.value.Known? ==> l == last && last.value.age < ARP_MAXAGE)
    decreases |es|
  {
    if es != [] {
      LifeIsLastLearnt(es[..|es| - 1], ip);
    }
  }

  /** While a history has involved no more than ten addresses, the cache answers for an address exactly when it was
      learnt less than 120 ticks ago, and then with what was learnt last. */
  lemma AnswersIff(es: seq<Event>, ip: Ip, mac: Mac)
    requires |Mentioned(es)| <= ARP_TABLE_SIZE && ip.addr != 0
    ensures Lookup(Run(es), ip) == Some(mac) <==>
            (var last := LastLearnt(es, ip); last.Some? && last.value.mac == mac && last.value.age < 120)
  {
    AlwaysGood(es);
    LookupBound(Run(es), ip);
    FewAddresses(es, ip);
    LifeIsLastLearnt(es, ip);
  }

  // ---- An unanswered query ----

  predicate NeverLearnt(es: seq<Event>, ip: Ip) {
    es == [] || (NeverLearnt(es[..|es| - 1], ip) && !(es[|es| - 1].Learnt? && es[|es| - 1].ip == ip))
  }

  predicate Waits(t: Table, ip: Ip, age: nat) {
    Good(t) && Bound(t, ip) == Some(Waiting(age))
  }

  lemma {:induction false} StillWaits(t: Table, es: seq<Event>, ip: Ip, age: nat)
    requires Waits(t, ip, age) && NeverLearnt(es, ip) && age + Ticks(es) < ARP_MAXPENDING
    ensures Waits(RunFrom(t, es), ip, age + Ticks(es))
    decreases |es|
  {
    if es != [] {
      var init, last := es[..|es| - 1], es[|es| - 1];
      assert NeverLearnt(init, ip) && Ticks(es) == Ticks(init) + TickOf(last);
      StillWaits(t, init, ip, age);
      PendingStep(RunFrom(t, init), last, ip, age + Ticks(init));
      assert RunFrom(t, es) == Step(RunFrom(t, init), last);
    }
  }

  /** Whatever else fills the table and however often the address is queried again, an unanswered entry stays until
      the second tick after it was made, and goes at that tick. */
  lemma PendingLasts(t: Table, es: seq<Event>, ip: Ip, age: nat)
    requires Good(t) && Bound(t, ip) == Some(Waiting(age))
    requires NeverLearnt(es, ip)
    requires age + Ticks(es) < ARP_MAXPENDING
    ensures var u := RunFrom(t, es);
            && Bound(u, ip) == Some(Waiting(age + Ticks(es)))
            && (age + Ticks(es) + 1 == ARP_MAXPENDING ==> Bound(Tick(u), ip) == None)
  {
    StillWaits(t, es, ip, age);
    WaitingIsBound(RunFrom(t, es), ip, age + Ticks(es));
  }

  lemma WaitingIsBound(t: Table, ip: Ip, age: nat)
    requires Waits(t, ip, age)
    ensures Bound(t, ip) == Some(Waiting(age))
    ensures age + 1 == ARP_MAXPENDING ==> Bound(Tick(t), ip) == None
  {
    TickBound(t, ip);
  }

  lemma PendingStep(t: Table, e: Event, ip: Ip, age: nat)
    requires Waits(t, ip, age) && !(e.Learnt? && e.ip == ip) && age + TickOf(e) < ARP_MAXPENDING
    ensures Waits(Step(t, e), ip, age + TickOf(e))
  {
    StepGood(t, e);
    match e
    case Ticked => TickBound(t, ip);
    case Learnt(a, mac) =>
      if a.addr != 0 {
        PlaceBound(t, Entry(a, mac, Stable, 0), ip);
      }
    case Queried(a) =>
      if Live(t, a) == ARP_TABLE_SIZE && Victim(t) < ARP_TABLE_SIZE {
        PlaceBound(t, Entry(a, t[Victim(t)].mac, Pending, 0), ip);
      }
  }

  /** A pair is in the cache once learnt, unless every entry is waiting for some other address. */
  lemma LearntIff(t: Table, ip: Ip, mac: Mac)
    requires Good(t) && ip.addr != 0
    ensures Lookup(Update(t, ip, mac), ip) == Some(mac) <==>
            (Bound(t, ip).Some? || exists i :: 0 <= i < ARP_TABLE_SIZE && t[i].state != Pending)
  {
    var e := Entry(ip, mac, Stable, 0);
    PlaceBound(t, e, ip);
    VictimIs(t);
    LookupBound(Update(t, ip, mac), ip);
    if Live(t, ip) == ARP_TABLE_SIZE && Victim(t) < ARP_TABLE_SIZE {
      LiveOnlyAt(t, ip, Victim(t));
      Overwrite(t, Victim(t), e);
    }
  }
}
