/** The transmit path of the smap driver as a state machine: the driver thread loads frames from its packet queue
    into the transmit ring and reclaims finished descriptors, the TCP/IP thread appends to the queue, and the
    hardware sends. Every interleaving of these steps is a run. */
module TxEngine {
  import opened Bytes
  import opened TxFifo

  const BD_MAX := 64
  const TX_BASE := 0x1000
  const BD_TX_READY: bv16 := 0x8000
  const BD_TX_SEND: bv16 := 0x8300     // READY | GENFCS | GENPAD
  const BD_TX_LOSSCR: bv16 := 0x0080
  const BD_TX_EDEFER: bv16 := 0x0040
  const BD_TX_COLLISION: bv16 := 0x003C // ECOLL | LCOLL | MCOLL | SCOLL
  const BD_TX_UNDERRUN: bv16 := 0x0002
  const BD_TX_DROPPED: bv16 := 0x00F2  // UNDERRUN | LCOLL | ECOLL | EDEFER | LOSSCR

  /** A packet as the driver finds it in memory: its payload, and the three bytes that happen to lie beyond it,
      which a copy by whole words may read. */
  datatype Frame = Frame(payload: seq<u8>, beyond: (u8, u8, u8))

  function Buffer(f: Frame): seq<u8> {
    f.payload + [f.beyond.0, f.beyond.1, f.beyond.2]
  }

  /** The image of a frame in the transmit memory: whole words. */
  function Padded(f: Frame): (r: seq<u8>)
    ensures |r| == Round4(|f.payload|) && f.payload <= r
  {
    Buffer(f)[..Round4(|f.payload|)]
  }

  /** The frames the engine can ever send. */
  predicate Sendable(f: Frame) { 0 < |f.payload| <= TX_BUFSIZE }

  function Payloads(q: seq<Frame>): seq<seq<u8>> {
    seq(|q|, i requires 0 <= i < |q| => q[i].payload)
  }

  /** The ring space a run of frames takes: their padded images, end to end. */
  function Image(q: seq<Frame>): seq<u8> {
    if q == [] then [] else Padded(q[0]) + Image(q[1..])
  }

  datatype BD = BD(ctrlStat: bv16, length: u16, pointer: u16)
  type Memory = m: seq<u8> | |m| == TX_BUFSIZE witness seq(TX_BUFSIZE, _ => 0)
  type Descriptors = b: seq<BD> | |b| == BD_MAX witness seq(BD_MAX, _ => BD(0, 0, 0))

  predicate Ready(bd: BD) { bd.ctrlStat & BD_TX_READY != 0 }

  datatype TxStats = TxStats(dropped: nat, errors: nat, losscr: nat, edefer: nat, collision: nat, underrun: nat)

  /** The counters after a reclaimed descriptor with this status. */
  function CountStatus(st: TxStats, status: bv16): TxStats {
    if status & BD_TX_DROPPED == 0 then st else TxStats(
      Wrap32(st.dropped + 1), Wrap32(st.errors + BitCount(status)),
      if status & BD_TX_LOSSCR != 0 then Wrap16(st.losscr + 1) else st.losscr,
      if status & BD_TX_EDEFER != 0 then Wrap16(st.edefer + 1) else st.edefer,
      if status & BD_TX_COLLISION != 0 then Wrap16(st.collision + 1) else st.collision,
      if status & BD_TX_UNDERRUN != 0 then Wrap16(st.underrun + 1) else st.underrun)
  }

  /** The transmit ring: the FIFO and descriptor memory and the driver's fields about them. */
  datatype Ring = Ring(mem: Memory, wrPtr: Place, bds: Descriptors, bdIndex: u8, dnvIndex: u8, numInTx: u8,
                       space: nat, stats: TxStats)

  /** The ring the bring-up sequence leaves. */
  function InitRing(): Ring {
    Ring(seq(TX_BUFSIZE, _ => 0), 0, seq(BD_MAX, _ => BD(0, 0, 0)), 0, 0, 0, TX_BUFSIZE, TxStats(0, 0, 0, 0, 0, 0))
  }

  /** Descriptor numbers. */
  type Index = j: int | 0 <= j < BD_MAX

  /** The descriptor k places after a free-running 8-bit index. */
  function Slot(index: u8, k: nat): Index {
    (index + k) % BD_MAX
  }

  function NextIndex(j: Index): Index {
    if j == BD_MAX - 1 then 0 else j + 1
  }

  /** The checks of one pass of HandleTxReqs: a length, a free descriptor, room. */
  predicate CanLoad(r: Ring, f: Frame) {
    f.payload != [] && r.numInTx < BD_MAX && |Padded(f)| <= r.space
  }

  function Load(r: Ring, f: Frame): Ring
    requires CanLoad(r, f) && r.space <= TX_BUFSIZE
  {
    r.(mem := RingWrite(r.mem, r.wrPtr, Padded(f)),
       wrPtr := Advance(r.wrPtr, |Padded(f)|),
       bds := r.bds[Slot(r.bdIndex, 0) := BD(BD_TX_SEND, |f.payload|, r.wrPtr + TX_BASE)],
       bdIndex := Plus8(r.bdIndex, 1),
       numInTx := Plus8(r.numInTx, 1),
       space := r.space - |Padded(f)|)
  }

  predicate CanReclaim(r: Ring) {
    0 < r.numInTx && !Ready(r.bds[Slot(r.dnvIndex, 0)])
  }

  function Reclaim(r: Ring): Ring
    requires CanReclaim(r)
  {
    var bd := r.bds[Slot(r.dnvIndex, 0)];
    r.(stats := CountStatus(r.stats, bd.ctrlStat),
       space := r.space + Round4(bd.length),
       dnvIndex := Plus8(r.dnvIndex, 1),
       numInTx := r.numInTx - 1)
  }

  /** The hardware finishes the frame of a descriptor: it clears READY and leaves a status. */
  function Complete(r: Ring, j: Index, status: bv16): Ring {
    r.(bds := r.bds[j := r.bds[j].(ctrlStat := status & 0x7FFF)])
  }

  /** Where in the transmit memory a descriptor points, and what it points at. */
  function PlaceOf(bd: BD): Place {
    if TX_BASE <= bd.pointer < TX_BASE + TX_BUFSIZE then bd.pointer - TX_BASE else 0
  }

  function PointsAt(r: Ring, j: Index): seq<u8> {
    if r.bds[j].length <= TX_BUFSIZE then RingRead(r.mem, PlaceOf(r.bds[j]), r.bds[j].length) else []
  }

  // ---- What ties the ring to the frames in flight ----

  /** The counters and indices agree with the number and size of the frames in flight. */
  predicate Accounts(r: Ring, fl: seq<Frame>) {
    && r.numInTx == |fl| <= BD_MAX
    && r.bdIndex == Plus8(r.dnvIndex, |fl|)
    && |Image(fl)| + r.space == TX_BUFSIZE
  }

  /** The transmit memory holds the frames in flight, end to end and ending at the write pointer. */
  predicate MemoryHolds(r: Ring, fl: seq<Frame>) {
    Holds(r.mem, r.wrPtr, Image(fl))
  }

  /** The descriptors the hardware may still send are exactly those of the frames it has not finished. */
  predicate Flags(r: Ring, done: nat) {
    forall k :: 0 <= k < BD_MAX ==> (Ready(r.bds[Slot(r.dnvIndex, k)]) <==> done <= k < r.numInTx)
  }

  /** The descriptor k places after the reclaim index describes the k-th frame in flight. */
  predicate Described(r: Ring, fl: seq<Frame>) {
    forall k :: 0 <= k < |fl| ==> Describes(r, fl, k)
  }

  predicate Describes(r: Ring, fl: seq<Frame>, k: nat)
    requires k < |fl|
  {
    var bd := r.bds[Slot(r.dnvIndex, k)];
    && |Image(fl[..k])| <= |Image(fl)| <= TX_BUFSIZE
    && bd.length == |fl[k].payload|
    && bd.pointer == TX_BASE + Advance(Back(r.wrPtr, |Image(fl)|), |Image(fl[..k])|)
  }

  predicate Sound(r: Ring, fl: seq<Frame>) {
    Accounts(r, fl) && MemoryHolds(r, fl) && Described(r, fl)
  }

  lemma ReadyIsUnfinished(r: Ring, done: nat)
    requires done <= r.numInTx <= BD_MAX && Flags(r, done)
    ensures Ready(r.bds[Slot(r.dnvIndex, done)]) <==> done < r.numInTx
  {
    assert Slot(r.dnvIndex, done % BD_MAX) == Slot(r.dnvIndex, done);
  }

  lemma ReclaimableIsFinished(r: Ring, done: nat)
    requires done <= r.numInTx <= BD_MAX && Flags(r, done)
    ensures CanReclaim(r) <==> 0 < done
  {
  }

  lemma {:induction false} ImageJoin(a: seq<Frame>, b: seq<Frame>)
    ensures Image(a + b) == Image(a) + Image(b)
  {
    if a == [] {
      assert a + b == b;
    } else {
      ImageJoin(a[1..], b);
      assert (a + b)[1..] == a[1..] + b;
      Assoc(Padded(a[0]), Image(a[1..]), Image(b));
    }
  }

  lemma ImageOne(f: Frame)
    ensures Image([f]) == Padded(f)
  {
  }

  /** The first n packets could be loaded: none is empty, and descriptors and bytes suffice. */
  predicate Fits(r: Ring, q: seq<Frame>, n: nat) {
    && n <= |q|
    && r.numInTx + n <= BD_MAX
    && |Image(q[..n])| <= r.space
    && forall i :: 0 <= i < n ==> q[i].payload != []
  }

  /** Whatever fits, every shorter prefix fits too; so a prefix that fits while the next does not is the longest. */
  lemma FitsIsPrefixClosed(r: Ring, q: seq<Frame>, n: nat, m: nat)
    requires Fits(r, q, n) && !Fits(r, q, n + 1)
    ensures Fits(r, q, m) <==> m <= n
  {
    if m <= n {
      ImageMonotone(q, m, n);
    } else if Fits(r, q, m) {
      ImageMonotone(q, n + 1, m);
    }
  }

  lemma NoneFurther(r: Ring, q: seq<Frame>, n: nat)
    requires n < |q| ==> q[n].payload == []
    ensures !Fits(r, q, n + 1)
  {
  }

  lemma ImageMonotone(q: seq<Frame>, m: nat, n: nat)
    requires m <= n <= |q|
    ensures |Image(q[..m])| <= |Image(q[..n])|
  {
    assert q[..n] == q[..m] + q[m..n];
    ImageJoin(q[..m], q[m..n]);
  }

  lemma ImageGrows(q: seq<Frame>, n: nat)
    requires n < |q|
    ensures Image(q[..n + 1]) == Image(q[..n]) + Padded(q[n])
  {
    assert q[..n + 1] == q[..n] + [q[n]];
    ImageJoin(q[..n], [q[n]]);
    ImageOne(q[n]);
  }

  /** After the first n packets have been loaded. */
  predicate Moved(first: Ring, r: Ring, q: seq<Frame>, n: nat) {
    && Fits(first, q, n)
    && r.numInTx == first.numInTx + n
    && r.space == first.space - |Image(q[..n])|
  }

  lemma OneMoreMoved(first: Ring, r: Ring, q: seq<Frame>, n: nat)
    requires Moved(first, r, q, n) && n < |q| && r.space <= TX_BUFSIZE
    ensures Fits(first, q, n + 1) <==> CanLoad(r, q[n])
    ensures CanLoad(r, q[n]) ==> Moved(first, Load(r, q[n]), q, n + 1)
  {
    ImageGrows(q, n);
  }

  /** The statuses of the first n descriptors in flight, counted one after the other. */
  function CountStatuses(r: Ring, n: nat): TxStats {
    if n == 0 then r.stats
    else CountStatus(CountStatuses(r, n - 1), r.bds[Slot(r.dnvIndex, n - 1)].ctrlStat)
  }

  lemma SlotsDiffer(index: u8, j: nat, k: nat)
    requires j < BD_MAX && k < BD_MAX && j != k
    ensures Slot(index, j) != Slot(index, k)
  {
  }

  lemma SlotWraps(index: u8)
    ensures Slot(index, BD_MAX) == Slot(index, 0)
  {
  }

  lemma SlotShift(index: u8, n: nat, k: nat)
    requires n <= BD_MAX
    ensures Slot(Plus8(index, n), k) == Slot(index, n + k)
  {
  }

  lemma SlotNext(index: u8, k: nat)
    ensures NextIndex(Slot(index, k)) == Slot(index, k + 1)
  {
  }

  // ---- What loading the head keeps ----

  lemma LoadMemory(r: Ring, fl: seq<Frame>, f: Frame)
    requires Accounts(r, fl) && MemoryHolds(r, fl) && CanLoad(r, f)
    ensures MemoryHolds(Load(r, f), fl + [f])
    ensures Accounts(Load(r, f), fl + [f])
  {
    assert Image(fl + [f]) == Image(fl) + Padded(f) by {
      ImageJoin(fl, [f]);
      ImageOne(f);
    }
    WriteExtends(r.mem, r.wrPtr, Image(fl), Padded(f));
  }

  lemma LoadFlags(r: Ring, done: nat, f: Frame)
    requires done <= r.numInTx <= BD_MAX && CanLoad(r, f) && Flags(r, done)
    requires r.space <= TX_BUFSIZE && r.bdIndex == Plus8(r.dnvIndex, r.numInTx)
    ensures Flags(Load(r, f), done)
  {
    var u := Load(r, f);
    SlotShift(r.dnvIndex, r.numInTx, 0);
    forall k | 0 <= k < BD_MAX
      ensures Ready(u.bds[Slot(u.dnvIndex, k)]) <==> done <= k < u.numInTx
    {
      if k != r.numInTx {
        SlotsDiffer(r.dnvIndex, k, r.numInTx);
      }
    }
  }

  lemma LoadDescribed(r: Ring, fl: seq<Frame>, f: Frame)
    requires Accounts(r, fl) && CanLoad(r, f) && Described(r, fl)
    ensures Described(Load(r, f), fl + [f])
  {
    var u, gl := Load(r, f), fl + [f];
    SlotShift(r.dnvIndex, r.numInTx, 0);
    ImageJoin(fl, [f]);
    ImageOne(f);
    forall k | 0 <= k < |gl|
      ensures Describes(u, gl, k)
    {
      assert gl[..k] == fl[..k];
      if k < |fl| {
        SlotsDiffer(r.dnvIndex, k, |fl|);
        assert Describes(r, fl, k);
      } else {
        assert fl[..k] == fl;
      }
    }
  }

  // ---- What reclaiming the oldest descriptor keeps ----

  lemma ReclaimMemory(r: Ring, fl: seq<Frame>)
    requires Accounts(r, fl) && MemoryHolds(r, fl) && CanReclaim(r) && Described(r, fl)
    ensures MemoryHolds(Reclaim(r), fl[1..])
    ensures Accounts(Reclaim(r), fl[1..])
  {
    var f, rest := fl[0], fl[1..];
    assert fl == [f] + rest;
    assert Describes(r, fl, 0);
    assert Image(fl) == [] + Padded(f) + Image(rest);
    HeldPart(r.mem, r.wrPtr, [], Padded(f), Image(rest));
  }

  lemma ReclaimFlags(r: Ring, done: nat)
    requires 0 < done <= r.numInTx <= BD_MAX && Flags(r, done) && CanReclaim(r)
    ensures Flags(Reclaim(r), done - 1)
  {
    var u := Reclaim(r);
    forall k | 0 <= k < BD_MAX
      ensures Ready(u.bds[Slot(u.dnvIndex, k)]) <==> done - 1 <= k < u.numInTx
    {
      SlotShift(r.dnvIndex, 1, k);
      if k == BD_MAX - 1 {
        assert Slot(r.dnvIndex, BD_MAX) == Slot(r.dnvIndex, 0);
      }
    }
  }

  lemma ReclaimDescribed(r: Ring, fl: seq<Frame>)
    requires Accounts(r, fl) && CanReclaim(r) && Described(r, fl)
    ensures Described(Reclaim(r), fl[1..])
  {
    var f, rest, u := fl[0], fl[1..], Reclaim(r);
    assert fl == [f] + rest;
    ImageJoin([f], rest);
    forall k | 0 <= k < |rest|
      ensures Describes(u, rest, k)
    {
      SlotShift(r.dnvIndex, 1, k);
      assert Describes(r, fl, k + 1);
      assert fl[..k + 1] == [f] + rest[..k];
      ImageJoin([f], rest[..k]);
      ImageOne(f);
    }
  }

  lemma LoadKeeps(r: Ring, fl: seq<Frame>, f: Frame)
    requires Sound(r, fl) && CanLoad(r, f)
    ensures Sound(Load(r, f), fl + [f])
  {
    LoadMemory(r, fl, f);
    LoadDescribed(r, fl, f);
  }

  lemma ReclaimKeeps(r: Ring, fl: seq<Frame>)
    requires Sound(r, fl) && CanReclaim(r)
    ensures Sound(Reclaim(r), fl[1..])
  {
    ReclaimMemory(r, fl);
    ReclaimDescribed(r, fl);
  }

  // ---- What the hardware's step keeps, and what it sends ----

  /** The bytes the hardware reads through the k-th descriptor in flight are that frame's payload. */
  lemma SendsPayload(r: Ring, fl: seq<Frame>, k: nat)
    requires Accounts(r, fl) && MemoryHolds(r, fl) && k < |fl| && Describes(r, fl, k)
    ensures PointsAt(r, Slot(r.dnvIndex, k)) == fl[k].payload
  {
    var before, f, after := fl[..k], fl[k], fl[k + 1..];
    var p, slack := f.payload, Padded(f)[|f.payload|..];
    assert Image(fl) == Image(before) + p + (slack + Image(after)) by {
      assert fl == before + [f] + after;
      ImageJoin(before + [f], after);
      ImageJoin(before, [f]);
      ImageOne(f);
      assert Padded(f) == p + slack;
      Assoc(Image(before), p, slack);
      Assoc(Image(before) + p, slack, Image(after));
    }
    HeldPart(r.mem, r.wrPtr, Image(before), p, slack + Image(after));
  }

  lemma CompleteFlags(r: Ring, done: nat, status: bv16)
    requires done < r.numInTx <= BD_MAX && Flags(r, done)
    ensures Flags(Complete(r, Slot(r.dnvIndex, done), status), done + 1)
  {
    var u := Complete(r, Slot(r.dnvIndex, done), status);
    forall k | 0 <= k < BD_MAX
      ensures Ready(u.bds[Slot(u.dnvIndex, k)]) <==> done + 1 <= k < u.numInTx
    {
      if k != done {
        SlotsDiffer(r.dnvIndex, k, done);
      }
    }
  }

  lemma CompleteKeeps(r: Ring, fl: seq<Frame>, j: Index, status: bv16)
    requires Sound(r, fl)
    ensures Sound(Complete(r, j, status), fl)
  {
    forall k | 0 <= k < |fl|
      ensures Describes(Complete(r, j, status), fl, k)
    {
      assert Describes(r, fl, k);
    }
  }

  // ---- Whole calls of the two loops ----

  /** The ring after the first n packets have been loaded. */
  function LoadAll(r: Ring, q: seq<Frame>, n: nat): (u: Ring)
    requires Fits(r, q, n) && r.space <= TX_BUFSIZE
    ensures Moved(r, u, q, n) && u.space <= TX_BUFSIZE
  {
    if n == 0 then r else
      ImageMonotone(q, n - 1, n);
      OneMoreMoved(r, LoadAll(r, q, n - 1), q, n - 1);
      Load(LoadAll(r, q, n - 1), q[n - 1])
  }

  /** The second ring is the first with n packets loaded. */
  predicate Loaded(first: Ring, r: Ring, q: seq<Frame>, n: nat) {
    first.space <= TX_BUFSIZE && Fits(first, q, n) && r == LoadAll(first, q, n)
  }

  /** The next packet can be loaded exactly when one more fits. */
  lemma OneMoreLoaded(first: Ring, r: Ring, q: seq<Frame>, n: nat)
    requires Loaded(first, r, q, n) && n < |q|
    ensures r.space <= TX_BUFSIZE && (Fits(first, q, n + 1) <==> CanLoad(r, q[n]))
    ensures CanLoad(r, q[n]) ==> Loaded(first, Load(r, q[n]), q, n + 1)
  {
    OneMoreMoved(first, r, q, n);
  }

  /** The ring after every finished descriptor has been reclaimed. */
  function ReclaimAll(r: Ring): Ring
    decreases r.numInTx
  {
    if CanReclaim(r) then ReclaimAll(Reclaim(r)) else r
  }

  /** Loading adds exactly those packets behind the frames in flight. */
  lemma {:induction false} LoadAllKeeps(r: Ring, fl: seq<Frame>, done: nat, q: seq<Frame>, n: nat)
    requires Sound(r, fl) && done <= |fl| && Flags(r, done) && Fits(r, q, n) && r.space <= TX_BUFSIZE
    ensures Sound(LoadAll(r, q, n), fl + q[..n]) && Flags(LoadAll(r, q, n), done)
    decreases n
  {
    if n == 0 {
      assert fl + q[..0] == fl;
    } else {
      ImageMonotone(q, n - 1, n);
      LoadAllKeeps(r, fl, done, q, n - 1);
      var u := LoadAll(r, q, n - 1);
      OneMoreMoved(r, u, q, n - 1);
      LoadKeeps(u, fl + q[..n - 1], q[n - 1]);
      LoadFlags(u, done, q[n - 1]);
      assert fl + q[..n - 1] + [q[n - 1]] == fl + q[..n];
    }
  }

  lemma {:induction false} CountShift(r: Ring, n: nat)
    requires CanReclaim(r) && n < BD_MAX
    ensures CountStatuses(Reclaim(r), n) == CountStatuses(r, n + 1)
    decreases n
  {
    if n == 0 {
      assert CountStatuses(r, 0) == r.stats;
    } else {
      CountShift(r, n - 1);
      SlotShift(r.dnvIndex, 1, n - 1);
    }
  }

  /** Reclaiming takes exactly the finished frames, and counts the status of each once. */
  lemma {:induction false} ReclaimAllKeeps(r: Ring, fl: seq<Frame>, done: nat)
    requires Sound(r, fl) && done <= |fl| && Flags(r, done)
    ensures var u := ReclaimAll(r);
            && Sound(u, fl[done..]) && Flags(u, 0)
            && u.stats == CountStatuses(r, done)
    decreases done
  {
    ReclaimableIsFinished(r, done);
    if done == 0 {
      assert fl[0..] == fl;
    } else {
      ReclaimKeeps(r, fl);
      ReclaimFlags(r, done);
      ReclaimAllKeeps(Reclaim(r), fl[1..], done - 1);
      CountShift(r, done - 1);
      assert fl[1..][done - 1..] == fl[done..];
    }
  }

  // ---- Why a call of HandleTxReqs stops ----

  /** After n packets the next one is taken as well, unless none is left, or it is empty, or there would be more than 64
      frames, or more than 4096 bytes with every frame in whole words. */
  lemma GoesOnIff(r: Ring, fl: seq<Frame>, q: seq<Frame>, n: nat)
    requires Accounts(r, fl) && Fits(r, q, n)
    ensures Fits(r, q, n + 1) <==>
            && n < |q| && q[n].payload != [] && |fl| + n < 64
            && |Image(fl)| + |Image(q[..n])| + Round4(|q[n].payload|) <= 4096
  {
    if n < |q| {
      ImageGrows(q, n);
    }
  }
}
