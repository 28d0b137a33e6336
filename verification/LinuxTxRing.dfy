/** The transmit ring of the smap-linux driver: a window of the 4 KB memory between two places, and one of the 64
    descriptors between two indices. */
module LinuxTxRing {
  import opened Bytes
  import opened TxFifo
  import opened TxEngine

  const SMAP_TXMAXSIZE := 1514
  const MAX_ACTIVE := 63
  const BD_TX_ERRMASK: bv16 := 0x03FF   // every status bit but READY

  /** The ring: `ptrStart` to `ptrEnd` is in use, and so are the descriptors from `first` up to `last`. */
  datatype Tx = Tx(mem: Memory, ptrStart: Place, ptrEnd: Place, first: Index, last: Index, bds: Descriptors)

  /** The ring TXBDInit leaves. */
  function InitTx(): Tx {
    Tx(seq(TX_BUFSIZE, _ => 0), 0, 0, 0, 0, seq(BD_MAX, _ => BD(0, 0, 0)))
  }

  /** How many descriptors are in use. */
  function Active(s: Tx): (n: nat)
    ensures n <= MAX_ACTIVE
  {
    if s.first <= s.last then s.last - s.first else s.last + BD_MAX - s.first
  }

  /** The descriptor k places after the first one in use. */
  function Nth(s: Tx, k: nat): Index
    requires k < BD_MAX
  {
    if s.first + k < BD_MAX then s.first + k else s.first + k - BD_MAX
  }

  /** The space each takes. */
  function Lengths(s: Tx): seq<nat> {
    seq(Active(s), k requires 0 <= k < Active(s) => Round4(s.bds[Nth(s, k)].length))
  }

  function InUse(s: Tx): nat {
    Sum(Lengths(s))
  }

  /** What the driver takes for the free space. */
  function ComputeFreeSize(s: Tx): nat {
    if s.ptrStart > s.ptrEnd then TX_BUFSIZE + s.ptrEnd - s.ptrStart else TX_BUFSIZE - (s.ptrEnd - s.ptrStart)
  }

  /** The driver's test for room. It has none for a descriptor. */
  predicate HasRoom(s: Tx, len: nat) {
    Round4(len) <= ComputeFreeSize(s)
  }

  function AddMod(p: Place, n: nat): Place {
    (p + n) % TX_BUFSIZE
  }

  /** Sends a packet of len bytes, of which a padded image is written. */
  function Send(s: Tx, image: seq<u8>, len: u16): Tx
    requires |image| == Round4(len) <= TX_BUFSIZE
  {
    s.(mem := RingWrite(s.mem, s.ptrEnd, image), bds := s.bds[s.last := BD(BD_TX_SEND, len, s.ptrEnd + TX_BASE)],
       ptrEnd := Advance(s.ptrEnd, |image|), last := NextIndex(s.last))
  }

  predicate CanReclaim(s: Tx) {
    s.first != s.last && !Ready(s.bds[s.first])
  }

  function ReclaimOne(s: Tx): Tx
    requires s.first != s.last
  {
    s.(ptrStart := AddMod(s.ptrStart, Round4(s.bds[s.first].length)), bds := s.bds[s.first := BD(0, 0, 0)],
       first := NextIndex(s.first))
  }

  /** Reclaims up to the first descriptor still waiting to be sent. */
  function ReclaimAll(s: Tx): Tx
    decreases Active(s)
  {
    if CanReclaim(s) then ReclaimAll(ReclaimOne(s)) else s
  }

  /** What handling a transmit interrupt does: with no descriptor in use any more, the memory window is emptied too. */
  function TxInt(s: Tx): Tx {
    var u := ReclaimAll(s);
    u.(ptrStart := if u.first == u.last then u.ptrEnd else u.ptrStart)
  }

  /** Whether none of the descriptors looked at shows an error: those reclaimed, and the one reclaiming stops at. */
  predicate NoError(s: Tx)
    decreases Active(s)
  {
    s.first == s.last ||
    (s.bds[s.first].ctrlStat & BD_TX_ERRMASK == 0 && (CanReclaim(s) ==> NoError(ReclaimOne(s))))
  }

  /** The hardware finishes a frame: it clears READY and leaves a status. */
  function Finish(s: Tx, j: Index, status: bv16): Tx {
    s.(bds := s.bds[j := s.bds[j].(ctrlStat := status & 0x7FFF)])
  }

  // ---- When an error is reported ----

  /** What is still to be sent has the control bits it was given; two of them, GENFCS and GENPAD, are error bits when
      read back. */
  predicate AsSent(s: Tx) {
    forall j: Index :: Ready(s.bds[j]) ==> s.bds[j].ctrlStat == BD_TX_SEND
  }

  predicate Clean(bd: BD) {
    !Ready(bd) && bd.ctrlStat & BD_TX_ERRMASK == 0
  }

  predicate AllClean(s: Tx) {
    forall k :: 0 <= k < Active(s) ==> Clean(s.bds[Nth(s, k)])
  }

  /** So reclaiming reports no error exactly when every packet of the window has been sent, and sent without error: one
      that merely waits for its turn counts as an error. */
  lemma {:induction false} NoErrorIff(s: Tx)
    requires AsSent(s)
    ensures NoError(s) <==> AllClean(s)
    decreases Active(s)
  {
    if s.first != s.last {
      assert Nth(s, 0) == s.first;
      if Clean(s.bds[s.first]) {
        NoErrorIff(ReclaimOne(s));
        CleanBehind(s);
      }
    }
  }

  lemma CleanBehind(s: Tx)
    requires s.first != s.last && Clean(s.bds[s.first])
    ensures AllClean(s) <==> AllClean(ReclaimOne(s))
  {
    var u := ReclaimOne(s);
    assert forall k :: 0 <= k < Active(u) ==> u.bds[Nth(u, k)] == s.bds[Nth(s, k + 1)];
    if AllClean(u) {
      forall k | 0 <= k < Active(s)
        ensures Clean(s.bds[Nth(s, k)])
      {
        assert k == 0 || Clean(u.bds[Nth(u, k - 1)]);
      }
    }
  }

  /** Reclaiming takes the descriptors the hardware has finished off the front of the window, clears them, and stops at
      the first that waits to be sent. */
  lemma {:induction false} ReclaimsFinished(s: Tx, k: nat)
    requires k <= Active(s) && (k < Active(s) ==> Ready(s.bds[Nth(s, k)]))
    requires forall j :: 0 <= j < k ==> !Ready(s.bds[Nth(s, j)])
    ensures var u := ReclaimAll(s);
            && Active(u) == Active(s) - k && u.last == s.last && u.ptrEnd == s.ptrEnd && u.mem == s.mem
            && (forall j :: 0 <= j < k ==> u.bds[Nth(s, j)] == BD(0, 0, 0))
            && (forall j :: k <= j < BD_MAX ==> u.bds[Nth(s, j)] == s.bds[Nth(s, j)])
    decreases k
  {
    if k != 0 {
      assert Nth(s, 0) == s.first;
      var v := ReclaimOne(s);
      OneBehind(s);
      ReclaimsFinished(v, k - 1);
      assert forall j :: 0 < j < BD_MAX ==> Nth(s, j) == Nth(v, j - 1);
      assert Nth(v, BD_MAX - 1) == s.first;
    }
  }

  lemma OneBehind(s: Tx)
    requires s.first != s.last
    ensures var v := ReclaimOne(s);
            && v.bds[s.first] == BD(0, 0, 0) && Active(v) == Active(s) - 1
            && forall j :: 0 <= j < BD_MAX - 1 ==>
                 Nth(v, j) == Nth(s, j + 1) && v.bds[Nth(v, j)] == s.bds[Nth(s, j + 1)]
  {
  }

  lemma {:induction false} ReclaimAllAsSent(s: Tx)
    requires AsSent(s)
    ensures AsSent(ReclaimAll(s))
    decreases Active(s)
  {
    if CanReclaim(s) {
      ReclaimAllAsSent(ReclaimOne(s));
    }
  }

  // ---- The two windows go together ----

  /** The end of the memory window is where the lengths of the descriptors in use, laid end to end, lead. */
  predicate Coupled(s: Tx) {
    s.ptrEnd == AddMod(s.ptrStart, InUse(s))
  }

  lemma SendCoupled(s: Tx, image: seq<u8>, len: u16)
    requires Coupled(s) && |image| == Round4(len) <= TX_BUFSIZE && Active(s) < MAX_ACTIVE
    ensures Coupled(Send(s, image, len))
    ensures Active(Send(s, image, len)) == Active(s) + 1 && InUse(Send(s, image, len)) == InUse(s) + |image|
  {
    var u := Send(s, image, len);
    assert Lengths(u) == Lengths(s) + [|image|] by {
      assert Nth(s, Active(s)) == s.last;
    }
    SumLast(Lengths(s), |image|);
    PlacesAreModulo(s.ptrEnd, |image|);
    AddModTwice(s.ptrStart, InUse(s), |image|);
  }

  /** A send with 63 descriptors active makes the window of descriptors look empty: the two windows part, unless the
      memory happens to be used up exactly. */
  predicate SendFits(s: Tx, n: nat) {
    Active(s) < MAX_ACTIVE || AddMod(s.ptrStart, InUse(s) + n) == s.ptrStart
  }

  lemma SendCoupledIff(s: Tx, image: seq<u8>, len: u16)
    requires Coupled(s) && |image| == Round4(len) <= TX_BUFSIZE
    ensures Coupled(Send(s, image, len)) <==> SendFits(s, |image|)
  {
    if Active(s) < MAX_ACTIVE {
      SendCoupled(s, image, len);
    } else {
      var u := Send(s, image, len);
      assert u.first == u.last && Lengths(u) == [] && InUse(u) == 0;
      PlacesAreModulo(s.ptrEnd, |image|);
      AddModTwice(s.ptrStart, InUse(s), |image|);
    }
  }

  lemma AddModTwice(p: Place, m: nat, n: nat)
    ensures AddMod(AddMod(p, m), n) == AddMod(p, m + n)
  {
  }

  lemma ReclaimCoupled(s: Tx)
    requires Coupled(s) && s.first != s.last
    ensures Coupled(ReclaimOne(s))
    ensures Active(ReclaimOne(s)) == Active(s) - 1
    ensures InUse(s) == Round4(s.bds[s.first].length) + InUse(ReclaimOne(s))
  {
    var n := Round4(s.bds[s.first].length);
    assert Lengths(s)[0] == n;
    assert Lengths(s)[1..] == Lengths(ReclaimOne(s));
    AddModTwice(s.ptrStart, n, InUse(ReclaimOne(s)));
  }

  lemma FinishCoupled(s: Tx, j: Index, status: bv16)
    requires Coupled(s)
    ensures Coupled(Finish(s, j, status)) && Lengths(Finish(s, j, status)) == Lengths(s)
  {
    assert Lengths(Finish(s, j, status)) == Lengths(s);
  }

  lemma {:induction false} ReclaimAllCoupled(s: Tx)
    requires Coupled(s)
    ensures Coupled(ReclaimAll(s)) && !CanReclaim(ReclaimAll(s))
    decreases Active(s)
  {
    if CanReclaim(s) {
      ReclaimCoupled(s);
      ReclaimAllCoupled(ReclaimOne(s));
    }
  }

  /** While the windows go together, emptying the memory window changes nothing: it is empty already. */
  lemma ResetChangesNothing(s: Tx)
    requires Coupled(s)
    ensures TxInt(s) == ReclaimAll(s)
  {
    ReclaimAllCoupled(s);
    if ReclaimAll(s).first == ReclaimAll(s).last {
      assert Lengths(ReclaimAll(s)) == [];
    }
  }

  /** The free space computed is the true one exactly when the ring is not full and the window does not wrap, or
      happens to be half full; when it wraps, what is computed is the space in use. */
  lemma FreeSizeIff(s: Tx)
    requires Coupled(s) && InUse(s) <= TX_BUFSIZE
    ensures ComputeFreeSize(s) == TX_BUFSIZE - InUse(s) <==>
            InUse(s) < TX_BUFSIZE && (s.ptrStart <= s.ptrEnd || InUse(s) == TX_BUFSIZE / 2)
    ensures s.ptrStart > s.ptrEnd ==> ComputeFreeSize(s) == InUse(s)
    ensures InUse(s) == TX_BUFSIZE ==> ComputeFreeSize(s) == TX_BUFSIZE
  {
  }

  /** So with an unwrapped window that is not full a packet has room exactly when it fits beside those in use, to the
      last byte; with a wrapped one, exactly when it is no longer than what is in use; and with a full ring, always. */
  lemma RoomIff(s: Tx, len: nat)
    requires Coupled(s) && InUse(s) <= TX_BUFSIZE && len <= SMAP_TXMAXSIZE
    ensures HasRoom(s, len) <==> Round4(len) <= (if s.ptrStart > s.ptrEnd then InUse(s)
                                                 else if InUse(s) < 4096 then 4096 - InUse(s) else 4096)
  {
    FreeSizeIff(s);
  }

  // ---- Runs ----

  datatype Step = Sends(image: seq<u8>, len: u16) | Reclaims | Finishes(j: Index, status: bv16)

  predicate Permitted(s: Tx, image: seq<u8>, len: u16) {
    len <= SMAP_TXMAXSIZE && |image| == Round4(len) && HasRoom(s, len)
  }

  /** The effect of a step; a send needs room as the driver sees it. */
  function Next(s: Tx, step: Step): Tx {
    match step
    case Sends(image, len) => if Permitted(s, image, len) then Send(s, image, len) else s
    case Reclaims => TxInt(s)
    case Finishes(j, status) => Finish(s, j, status)
  }

  function Run(steps: seq<Step>): Tx {
    if steps == [] then InitTx() else Next(Run(steps[..|steps| - 1]), steps[|steps| - 1])
  }

  lemma RunLast(steps: seq<Step>, step: Step)
    ensures Run(steps + [step]) == Next(Run(steps), step)
  {
    assert (steps + [step])[..|steps|] == steps;
  }

  /** All along a run the two windows go together. */
  predicate AlwaysCoupled(steps: seq<Step>) {
    Coupled(Run(steps)) && (steps == [] || AlwaysCoupled(steps[..|steps| - 1]))
  }

  /** Every send of a run fits as above, which the driver does not check. */
  predicate AllSendsFit(steps: seq<Step>) {
    steps == [] || (AllSendsFit(steps[..|steps| - 1]) && StepFits(Run(steps[..|steps| - 1]), steps[|steps| - 1]))
  }

  predicate StepFits(s: Tx, step: Step) {
    step.Sends? && Permitted(s, step.image, step.len) ==> SendFits(s, |step.image|)
  }

  lemma StepCoupledIff(s: Tx, step: Step)
    requires Coupled(s)
    ensures Coupled(Next(s, step)) <==> StepFits(s, step)
  {
    match step
    case Sends(image, len) =>
      if Permitted(s, image, len) {
        SendCoupledIff(s, image, len);
      }
    case Reclaims =>
      ReclaimAllCoupled(s);
      ResetChangesNothing(s);
    case Finishes(j, status) => FinishCoupled(s, j, status);
  }

  lemma {:induction false} AlwaysCoupledIff(steps: seq<Step>)
    ensures AlwaysCoupled(steps) <==> AllSendsFit(steps)
    decreases |steps|
  {
    if steps == [] {
      assert Lengths(InitTx()) == [];
    } else {
      AlwaysCoupledIff(steps[..|steps| - 1]);
      if AlwaysCoupled(steps[..|steps| - 1]) {
        StepCoupledIff(Run(steps[..|steps| - 1]), steps[|steps| - 1]);
      }
    }
  }

  /** So many sends of 60 bytes, the smallest Ethernet frame, with no interrupt handled in between. */
  function Small(n: nat): seq<Step> {
    if n == 0 then [] else Small(n - 1) + [Sends(seq(60, _ => 0), 60)]
  }

  /** What they leave. */
  predicate Crowded(s: Tx, n: nat) {
    s.ptrStart == 0 && s.ptrEnd == 60 * n && s.first == 0 && s.last == if n < BD_MAX then n else 0
  }

  lemma SmallSend(s: Tx, n: nat, image: seq<u8>)
    requires n < BD_MAX && Crowded(s, n) && |image| == 60
    ensures Permitted(s, image, 60) && Crowded(Send(s, image, 60), n + 1)
  {
  }

  lemma {:induction false} SmallSends(n: nat)
    requires n <= BD_MAX
    ensures Crowded(Run(Small(n)), n)
  {
    if n != 0 {
      var image: seq<u8> := seq(60, _ => 0);
      SmallSends(n - 1);
      SmallSend(Run(Small(n - 1)), n - 1, image);
      RunLast(Small(n - 1), Sends(image, 60));
    }
  }

  /** This can fail: 64 such packets fit in the memory, and then none counts as active. */
  lemma WindowsPart()
    ensures Active(Run(Small(BD_MAX))) == 0 && !Coupled(Run(Small(BD_MAX)))
  {
    SmallSends(BD_MAX);
    assert Lengths(Run(Small(BD_MAX))) == [];
  }

  lemma {:induction false} AlwaysAsSent(steps: seq<Step>)
    ensures AsSent(Run(steps))
    decreases |steps|
  {
    if steps != [] {
      var s := Run(steps[..|steps| - 1]);
      AlwaysAsSent(steps[..|steps| - 1]);
      match steps[|steps| - 1]
      case Sends(image, len) =>
      case Reclaims => ReclaimAllAsSent(s);
      case Finishes(j, status) =>
    }
  }

  /** In every run reclaiming reports no error exactly when every packet in the window has been sent without error. */
  lemma RunNoErrorIff(steps: seq<Step>)
    ensures NoError(Run(steps)) <==> AllClean(Run(steps))
  {
    AlwaysAsSent(steps);
    NoErrorIff(Run(steps));
  }
}
