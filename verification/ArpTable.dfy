/** The address resolution cache: ten entries that are empty, waiting for a reply, or confirmed. */
module ArpTable {
  const ARP_TABLE_SIZE := 10
  const ARP_MAXAGE := 120    // timer ticks a confirmed entry lasts
  const ARP_MAXPENDING := 2  // timer ticks an unanswered one lasts

  /** An Internet address as a struct ip_addr holds it: in network order, loaded on a little-endian machine. */
  datatype Ip = Ip(addr: bv32)
  type Mac = m: seq<bv8> | |m| == 6 witness [0, 0, 0, 0, 0, 0]
  type Ctime = c: int | 0 <= c < 0x100

  datatype State = Empty | Pending | Stable
  datatype Entry = Entry(ip: Ip, mac: Mac, state: State, ctime: Ctime)
  type Table = t: seq<Entry> | |t| == ARP_TABLE_SIZE
    witness seq(ARP_TABLE_SIZE, _ => Entry(Ip(0), [0, 0, 0, 0, 0, 0], Empty, 0))

  datatype Option<T> = None | Some(value: T)

  predicate IsLive(e: Entry, ip: Ip) {
    e.state != Empty && e.ip == ip
  }

  /** The first of the first n entries that is live for the address; ARP_TABLE_SIZE when none is. */
  function FirstLive(t: Table, ip: Ip, n: nat): (k: nat)
    requires n <= ARP_TABLE_SIZE
    ensures k < n || k == ARP_TABLE_SIZE
    ensures k < n ==> IsLive(t[k], ip)
    ensures forall j :: 0 <= j < n && j < k ==> !IsLive(t[j], ip)
  {
    if n == 0 then ARP_TABLE_SIZE else
      var k := FirstLive(t, ip, n - 1);
      if k < n - 1 then k else if IsLive(t[n - 1], ip) then n - 1 else ARP_TABLE_SIZE
  }

  function Live(t: Table, ip: Ip): nat {
    FirstLive(t, ip, |t|)
  }

  function FirstEmpty(t: Table, n: nat): (k: nat)
    requires n <= ARP_TABLE_SIZE
    ensures k < n || k == ARP_TABLE_SIZE
    ensures k < n ==> t[k].state == Empty
    ensures forall j :: 0 <= j < n && j < k ==> t[j].state != Empty
  {
    if n == 0 then ARP_TABLE_SIZE else
      var k := FirstEmpty(t, n - 1);
      if k < n - 1 then k else if t[n - 1].state == Empty then n - 1 else ARP_TABLE_SIZE
  }

  /** Among the first n entries, the last of the oldest confirmed ones; ARP_TABLE_SIZE when none is confirmed. */
  function LastOldest(t: Table, n: nat): (k: nat)
    requires n <= ARP_TABLE_SIZE
    ensures k < n || k == ARP_TABLE_SIZE
    ensures k < n ==> t[k].state == Stable
    ensures forall j :: 0 <= j < n && t[j].state == Stable ==> k < n && NoOlder(t, j, k)
  {
    if n == 0 then ARP_TABLE_SIZE else
      var k := LastOldest(t, n - 1);
      if t[n - 1].state == Stable && (k == ARP_TABLE_SIZE || t[k].ctime <= t[n - 1].ctime) then n - 1 else k
  }

  predicate NoOlder(t: Table, j: nat, k: nat)
    requires j < ARP_TABLE_SIZE && k < ARP_TABLE_SIZE
  {
    t[j].ctime < t[k].ctime || (t[j].ctime == t[k].ctime && j <= k)
  }

  /** The entry a new address goes into: the first empty one, or else the last of the oldest confirmed ones, but never
      one that is waiting; ARP_TABLE_SIZE when all are waiting. */
  function Victim(t: Table): (k: nat)
    ensures k <= ARP_TABLE_SIZE
  {
    var k := FirstEmpty(t, |t|);
    if k < ARP_TABLE_SIZE then k else LastOldest(t, |t|)
  }

  /** The table after a pair has been learnt. */
  function Update(t: Table, ip: Ip, mac: Mac): Table {
    if ip.addr == 0 then t else Place(t, Entry(ip, mac, Stable, 0))
  }

  /** Writes an entry over the live one for its address, or else over the victim. */
  function Place(t: Table, e: Entry): Table {
    var k := Live(t, e.ip);
    var i := if k < ARP_TABLE_SIZE then k else Victim(t);
    if i == ARP_TABLE_SIZE then t else t[i := e]
  }

  /** Whether querying an address sends out a request: it is waiting already, or is given a place to wait. */
  predicate Asks(t: Table, ip: Ip) {
    var k := Live(t, ip);
    if k < ARP_TABLE_SIZE then t[k].state == Pending else Victim(t) < ARP_TABLE_SIZE
  }

  /** The table after an address has been queried. */
  function Query(t: Table, ip: Ip): Table {
    var i := Victim(t);
    if Live(t, ip) < ARP_TABLE_SIZE || i == ARP_TABLE_SIZE then t
    else Place(t, Entry(ip, t[i].mac, Pending, 0))
  }

  function TickEntry(e: Entry): Entry {
    var c: Ctime := if e.ctime == 0xFF then 0 else e.ctime + 1;
    var expired := (e.state == Stable && c >= ARP_MAXAGE) || (e.state == Pending && c >= ARP_MAXPENDING);
    e.(ctime := c, state := if expired then Empty else e.state)
  }

  function Tick(t: Table): Table {
    seq(ARP_TABLE_SIZE, i requires 0 <= i < ARP_TABLE_SIZE => TickEntry(t[i]))
  }

  /** What the cache answers: the hardware address of the first confirmed entry for the address. */
  function Lookup(t: Table, ip: Ip): Option<Mac> {
    LookupIn(t, ip, |t|)
  }

  function LookupIn(t: Table, ip: Ip, n: nat): (r: Option<Mac>)
    requires n <= ARP_TABLE_SIZE
    ensures r.None? ==> forall j :: 0 <= j < n ==> !(t[j].state == Stable && t[j].ip == ip)
    ensures r.Some? ==> exists j :: 0 <= j < n && t[j].state == Stable && t[j].ip == ip && t[j].mac == r.value
  {
    if n == 0 then None else
      var r := LookupIn(t, ip, n - 1);
      if r.Some? then r else if t[n - 1].state == Stable && t[n - 1].ip == ip then Some(t[n - 1].mac) else None
  }

  // ---- What every operation keeps ----

  predicate Clash(d: Entry, e: Entry) {
    d.state != Empty && e.state != Empty && d.ip == e.ip
  }

  predicate InDate(e: Entry) {
    && (e.state == Stable ==> e.ctime < ARP_MAXAGE && e.ip.addr != 0)
    && (e.state == Pending ==> e.ctime < ARP_MAXPENDING)
  }

  /** No two live entries for an address, no entry past its age, 0.0.0.0 never confirmed. */
  predicate Good(t: Table) {
    && (forall i, j :: 0 <= i < j < ARP_TABLE_SIZE ==> !Clash(t[i], t[j]))
    && (forall i :: 0 <= i < ARP_TABLE_SIZE ==> InDate(t[i]))
  }

  // ---- The table as a bounded map ----

  datatype Binding = Waiting(age: nat) | Known(mac: Mac, age: nat)

  function BindingOf(e: Entry): Binding {
    if e.state == Stable then Known(e.mac, e.ctime) else Waiting(e.ctime)
  }

  /** What the table holds for an address. */
  function Bound(t: Table, ip: Ip): Option<Binding> {
    var k := Live(t, ip);
    if k < ARP_TABLE_SIZE then Some(BindingOf(t[k])) else None
  }

  lemma LiveIs(t: Table, k: nat)
    requires Good(t) && k < ARP_TABLE_SIZE && t[k].state != Empty
    ensures Live(t, t[k].ip) == k
  {
  }

  /** Where an entry goes: never over one that is waiting for another address, and over a confirmed one only when
      nothing is empty and no confirmed one is older. */
  lemma VictimIs(t: Table)
    ensures var k := Victim(t);
      && (k == ARP_TABLE_SIZE <==> forall j :: 0 <= j < ARP_TABLE_SIZE ==> t[j].state == Pending)
      && (k < ARP_TABLE_SIZE ==> t[k].state != Pending)
      && (k < ARP_TABLE_SIZE && t[k].state == Stable ==> forall j :: 0 <= j < ARP_TABLE_SIZE ==> Younger(t[j], t[k]))
  {
  }

  predicate Younger(e: Entry, oldest: Entry) {
    e.state != Empty && (e.state == Stable ==> e.ctime <= oldest.ctime)
  }

  /** Overwriting an entry with one for an address that is live nowhere else drops what it held and binds that. */
  lemma Overwrite(t: Table, i: nat, e: Entry)
    requires Good(t) && i < ARP_TABLE_SIZE && e.state != Empty && InDate(e)
    requires forall j :: 0 <= j < ARP_TABLE_SIZE && IsLive(t[j], e.ip) ==> j == i
    ensures Good(t[i := e])
    ensures forall a :: Bound(t[i := e], a) ==
                        if a == e.ip then Some(BindingOf(e)) else if IsLive(t[i], a) then None else Bound(t, a)
  {
    var u: Table := t[i := e];
    assert Good(u);
    forall a
      ensures Bound(u, a) == if a == e.ip then Some(BindingOf(e)) else if IsLive(t[i], a) then None else Bound(t, a)
    {
      OverwriteOne(t, i, e, a);
    }
  }

  lemma OverwriteOne(t: Table, i: nat, e: Entry, a: Ip)
    requires i < ARP_TABLE_SIZE && Good(t) && Good(t[i := e]) && e.state != Empty
    ensures Bound(t[i := e], a) ==
            if a == e.ip then Some(BindingOf(e)) else if IsLive(t[i], a) then None else Bound(t, a)
  {
    var u: Table := t[i := e];
    var k := Live(t, a);
    if a == e.ip {
      LiveIs(u, i);
    } else if IsLive(t[i], a) {
      assert Live(u, a) == ARP_TABLE_SIZE by {
        if Live(u, a) < ARP_TABLE_SIZE {
          assert Clash(t[i], t[Live(u, a)]) && Clash(t[Live(u, a)], t[i]);
        }
      }
    } else if k < ARP_TABLE_SIZE {
      LiveIs(u, k);
    }
  }

  lemma TickBound(t: Table, a: Ip)
    requires Good(t)
    ensures Good(Tick(t))
    ensures Bound(Tick(t), a) ==
            if Bound(t, a).None? || Expires(Bound(t, a).value) then None else Some(Aged(Bound(t, a).value))
  {
    var u := Tick(t);
    forall j | 0 <= j < ARP_TABLE_SIZE
      ensures InDate(u[j]) && (IsLive(u[j], a) <==> IsLive(t[j], a) && !Expires(BindingOf(t[j])))
    {
      assert InDate(t[j]);
    }
    assert Good(u) by {
      forall i, j | 0 <= i < j < ARP_TABLE_SIZE
        ensures !Clash(u[i], u[j])
      {
        assert !Clash(t[i], t[j]);
      }
    }
    var k := Live(t, a);
    if k < ARP_TABLE_SIZE {
      assert forall j :: 0 <= j < ARP_TABLE_SIZE && j != k ==> !IsLive(t[j], a) by {
        forall j | 0 <= j < ARP_TABLE_SIZE && IsLive(t[j], a)
          ensures j == k
        {
          LiveIs(t, j);
        }
      }
      if u[k].state != Empty {
        LiveIs(u, k);
      }
    }
  }

  function Aged(b: Binding): Binding {
    match b
    case Waiting(age) => Waiting(age + 1)
    case Known(mac, age) => Known(mac, age + 1)
  }

  predicate Expires(b: Binding) {
    match b
    case Waiting(age) => ARP_MAXPENDING <= age + 1
    case Known(_, age) => ARP_MAXAGE <= age + 1
  }

  function Keys(t: Table, n: nat): set<Ip>
    requires n <= ARP_TABLE_SIZE
  {
    set i | 0 <= i < n && t[i].state != Empty :: t[i].ip
  }

  /** The map holds exactly the bindings of the table. */
  ghost predicate Shows(m: map<Ip, Binding>, t: Table) {
    forall a :: if a in m then Bound(t, a) == Some(m[a]) else Bound(t, a) == None
  }

  function At(m: map<Ip, Binding>, a: Ip): Option<Binding> {
    if a in m then Some(m[a]) else None
  }

  /** All the bindings a table holds. */
  function Cache(t: Table): (m: map<Ip, Binding>)
    ensures Shows(m, t)
  {
    KeysAreBound(t);
    map a | a in Keys(t, |t|) :: Bound(t, a).value
  }

  lemma KeysAreBound(t: Table)
    ensures forall a :: a in Keys(t, |t|) <==> Bound(t, a) != None
  {
  }

  lemma CacheSize(t: Table, m: map<Ip, Binding>)
    requires Good(t) && Shows(m, t)
    ensures |m| <= ARP_TABLE_SIZE
    ensures |m| == ARP_TABLE_SIZE <==> forall i :: 0 <= i < ARP_TABLE_SIZE ==> t[i].state != Empty
  {
    KeyCount(t, |t|);
    KeysAreBound(t);
    assert m.Keys == Keys(t, |t|);
    assert |m| == |m.Keys|;
  }

  lemma {:induction false} KeyCount(t: Table, n: nat)
    requires Good(t) && n <= ARP_TABLE_SIZE
    ensures |Keys(t, n)| <= n
    ensures |Keys(t, n)| == n <==> forall i :: 0 <= i < n ==> t[i].state != Empty
  {
    if n == 0 {
      assert Keys(t, n) == {};
    } else {
      KeyCount(t, n - 1);
      KeyLast(t, n);
    }
  }

  lemma KeyLast(t: Table, n: nat)
    requires Good(t) && 0 < n <= ARP_TABLE_SIZE
    ensures |Keys(t, n)| == |Keys(t, n - 1)| + if t[n - 1].state != Empty then 1 else 0
  {
    var key := t[n - 1].ip;
    if t[n - 1].state == Empty {
      assert Keys(t, n) == Keys(t, n - 1);
    } else {
      KeyIsNew(t, n);
      assert Keys(t, n) == Keys(t, n - 1) + {key};
    }
  }

  lemma KeyIsNew(t: Table, n: nat)
    requires Good(t) && 0 < n <= ARP_TABLE_SIZE && t[n - 1].state != Empty
    ensures t[n - 1].ip !in Keys(t, n - 1)
  {
    forall i | 0 <= i < n - 1
      ensures t[i].state == Empty || t[i].ip != t[n - 1].ip
    {
      assert !Clash(t[i], t[n - 1]);
    }
  }

  /** Binding an address in a map of at most ten: a bound address is rebound; a new one takes a free place or, when
      there is none, the place of a confirmed binding than which no confirmed one is older; when all ten are waiting
      the map stays as it is. */
  predicate Binds(m: map<Ip, Binding>, ip: Ip, b: Binding, n: map<Ip, Binding>) {
    if ip in m || |m| < ARP_TABLE_SIZE then n == m[ip := b]
    else if forall a :: a in m ==> m[a].Waiting? then n == m
    else exists gone :: gone in m && Oldest(m, gone) && n == (m - {gone})[ip := b]
  }

  predicate Oldest(m: map<Ip, Binding>, ip: Ip)
    requires ip in m
  {
    m[ip].Known? && forall a :: a in m && m[a].Known? ==> m[a].age <= m[ip].age
  }

  /** Placing an entry in the table is binding its address in the map. */
  lemma PlaceBinds(t: Table, e: Entry, m: map<Ip, Binding>, n: map<Ip, Binding>)
    requires Good(t) && e.state != Empty && InDate(e) && Shows(m, t) && Shows(n, Place(t, e))
    ensures Good(Place(t, e)) && Binds(m, e.ip, BindingOf(e), n)
  {
    var k := Live(t, e.ip);
    var i := if k < ARP_TABLE_SIZE then k else Victim(t);
    CacheSize(t, m);
    if i == ARP_TABLE_SIZE {
      AllWaiting(t, m);
      SameBindings(t, m, n);
    } else {
      OverwriteShows(t, i, e, m, n);
      if k == ARP_TABLE_SIZE {
        VictimIs(t);
        if t[i].state == Stable {
          VictimIsOldest(t, i, m);
        }
      }
    }
  }

  lemma OverwriteShows(t: Table, i: nat, e: Entry, m: map<Ip, Binding>, n: map<Ip, Binding>)
    requires Good(t) && i < ARP_TABLE_SIZE && e.state != Empty && InDate(e)
    requires Live(t, e.ip) == i || Live(t, e.ip) == ARP_TABLE_SIZE
    requires Shows(m, t) && Shows(n, t[i := e])
    ensures Good(t[i := e])
    ensures n == (if t[i].state == Empty || t[i].ip == e.ip then m else m - {t[i].ip})[e.ip := BindingOf(e)]
  {
    var gone := if t[i].state == Empty || t[i].ip == e.ip then {} else {t[i].ip};
    OverwriteRebinds(t, i, e, m, n, gone);
    Rebound(m, gone, e.ip, BindingOf(e), n);
    if gone == {} {
      assert m - gone == m;
    }
  }

  lemma OverwriteRebinds(t: Table, i: nat, e: Entry, m: map<Ip, Binding>, n: map<Ip, Binding>, gone: set<Ip>)
    requires Good(t) && i < ARP_TABLE_SIZE && e.state != Empty && InDate(e)
    requires Live(t, e.ip) == i || Live(t, e.ip) == ARP_TABLE_SIZE
    requires Shows(m, t) && Shows(n, t[i := e])
    requires forall a :: a in gone <==> IsLive(t[i], a) && a != e.ip
    ensures Good(t[i := e]) && Rebinds(m, gone, e.ip, BindingOf(e), n)
  {
    LiveOnlyAt(t, e.ip, i);
    Overwrite(t, i, e);
    forall a
      ensures At(n, a) == if a == e.ip then Some(BindingOf(e)) else if a in gone then None else At(m, a)
    {
      OverwriteOne(t, i, e, a);
    }
  }

  ghost predicate Rebinds(m: map<Ip, Binding>, gone: set<Ip>, ip: Ip, b: Binding, n: map<Ip, Binding>) {
    forall a :: At(n, a) == if a == ip then Some(b) else if a in gone then None else At(m, a)
  }

  lemma Rebound(m: map<Ip, Binding>, gone: set<Ip>, ip: Ip, b: Binding, n: map<Ip, Binding>)
    requires Rebinds(m, gone, ip, b, n)
    ensures n == (m - gone)[ip := b]
  {
    assert forall a :: a in n <==> At(n, a).Some?;
  }

  lemma SameBindings(t: Table, m: map<Ip, Binding>, n: map<Ip, Binding>)
    requires Shows(m, t) && Shows(n, t)
    ensures m == n
  {
  }

  lemma AllWaiting(t: Table, m: map<Ip, Binding>)
    requires Good(t) && Shows(m, t) && Victim(t) == ARP_TABLE_SIZE
    ensures |m| == ARP_TABLE_SIZE && forall a :: a in m ==> m[a].Waiting?
  {
    VictimIs(t);
    CacheSize(t, m);
  }

  lemma LiveOnlyAt(t: Table, ip: Ip, i: nat)
    requires Good(t) && i < ARP_TABLE_SIZE && (Live(t, ip) == i || Live(t, ip) == ARP_TABLE_SIZE)
    ensures forall j :: 0 <= j < ARP_TABLE_SIZE && IsLive(t[j], ip) ==> j == i
  {
  }

  lemma VictimIsOldest(t: Table, i: nat, m: map<Ip, Binding>)
    requires Good(t) && Shows(m, t) && i == Victim(t) < ARP_TABLE_SIZE && t[i].state == Stable
    ensures |m| == ARP_TABLE_SIZE && t[i].ip in m && Oldest(m, t[i].ip)
  {
    VictimIs(t);
    CacheSize(t, m);
    LiveIs(t, i);
  }

  /** Learning a pair binds the address to it with age 0, unless the address is 0.0.0.0. */
  lemma UpdateRefines(t: Table, ip: Ip, mac: Mac)
    requires Good(t)
    ensures Good(Update(t, ip, mac))
    ensures if ip.addr == 0 then Cache(Update(t, ip, mac)) == Cache(t)
            else Binds(Cache(t), ip, Known(mac, 0), Cache(Update(t, ip, mac)))
  {
    if ip.addr != 0 {
      PlaceBinds(t, Entry(ip, mac, Stable, 0), Cache(t), Cache(Update(t, ip, mac)));
    }
  }

  /** Querying an address binds it as waiting with age 0, unless it is bound already. */
  lemma QueryRefines(t: Table, ip: Ip)
    requires Good(t)
    ensures Good(Query(t, ip))
    ensures if ip in Cache(t) then Cache(Query(t, ip)) == Cache(t)
            else Binds(Cache(t), ip, Waiting(0), Cache(Query(t, ip)))
  {
    if Live(t, ip) == ARP_TABLE_SIZE {
      if Victim(t) == ARP_TABLE_SIZE {
        AllWaiting(t, Cache(t));
      } else {
        PlaceBinds(t, Entry(ip, t[Victim(t)].mac, Pending, 0), Cache(t), Cache(Query(t, ip)));
      }
    }
  }

  /** What a tick does: each binding gets older, and those that reach their limit go. */
  lemma TickRefines(t: Table)
    requires Good(t)
    ensures Good(Tick(t))
    ensures Cache(Tick(t)) == map a | a in Cache(t) && !Expires(Cache(t)[a]) :: Aged(Cache(t)[a])
  {
    var m, n := Cache(t), Cache(Tick(t));
    forall a
      ensures Good(Tick(t))
      ensures a in n <==> a in m && !Expires(m[a])
      ensures a in n ==> n[a] == Aged(m[a])
    {
      TickBound(t, a);
    }
    TickBound(t, Ip(0));
  }

  /** The cache answers exactly the confirmed bindings. */
  lemma LookupRefines(t: Table, ip: Ip)
    requires Good(t)
    ensures Lookup(t, ip) == if ip in Cache(t) && Cache(t)[ip].Known? then Some(Cache(t)[ip].mac) else None
  {
    LookupBound(t, ip);
  }

  lemma LookupBound(t: Table, ip: Ip)
    requires Good(t)
    ensures Lookup(t, ip) ==
            if Bound(t, ip).Some? && Bound(t, ip).value.Known? then Some(Bound(t, ip).value.mac) else None
  {
  }
}
