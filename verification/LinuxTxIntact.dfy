/** Which packets on the transmit ring of the smap-linux driver reach the hardware as they were sent: those ready to be
    sent, whether or not the driver's window covers them. */
module LinuxTxIntact {
  import opened Bytes
  import opened TxFifo
  import opened TxEngine
  import opened Ring = LinuxTxRing
  import opened LinuxTxSafety

  // ---- What the hardware still has to send ----

  /** A place is one of those a descriptor designates. */
  predicate InPacket(s: Tx, j: Index, p: Place) {
    s.bds[j].length <= TX_BUFSIZE && Back(p, PlaceOf(s.bds[j])) < s.bds[j].length
  }

  /** A send of n bytes writes over no packet that is ready to be sent, wherever the driver's window is. */
  predicate Misses(s: Tx, n: nat) {
    forall j: Index, p: Place :: Ready(s.bds[j]) && InPacket(s, j, p) ==> !Written(s, n, p)
  }

  /** And the descriptor it takes is not one that is ready to be sent. */
  predicate Harmless(s: Tx, len: nat) {
    !Ready(s.bds[s.last]) && Misses(s, Round4(len))
  }

  /** Every packet that is ready to be sent can still be read. */
  predicate Spares(s: Tx, u: Tx) {
    forall j: Index :: Ready(s.bds[j]) && j != s.last ==> Reads(u, j) == Reads(s, j)
  }

  lemma MissedReads(s: Tx, image: seq<u8>, len: u16, j: Index)
    requires |image| == Round4(len) <= TX_BUFSIZE && Ready(s.bds[j]) && j != s.last && Misses(s, |image|)
    ensures Reads(Send(s, image, len), j) == Reads(s, j)
  {
    if s.bds[j].length <= TX_BUFSIZE {
      forall i | 0 <= i < s.bds[j].length
        ensures Reads(Send(s, image, len), j)[i] == Reads(s, j)[i]
      {
        var p := Advance(PlaceOf(s.bds[j]), i);
        assert InPacket(s, j, p);
        assert !Written(s, |image|, p);
      }
    }
  }

  /** The bytes a send could write so that a place it writes to changes. */
  function Changing(s: Tx, n: nat, p: Place): (image: seq<u8>)
    requires n <= TX_BUFSIZE
    ensures |image| == n
  {
    seq(n, _ => if s.mem[p] == 0 then 1 else 0)
  }

  lemma HitChanges(s: Tx, len: u16, j: Index, p: Place)
    requires Round4(len) <= TX_BUFSIZE && j != s.last && InPacket(s, j, p) && Written(s, Round4(len), p)
    ensures Reads(Send(s, Changing(s, Round4(len), p), len), j) != Reads(s, j)
  {
    var u, i := Send(s, Changing(s, Round4(len), p), len), Back(p, PlaceOf(s.bds[j]));
    assert Advance(PlaceOf(s.bds[j]), i) == p;
    assert u.mem[p] != s.mem[p];
    assert Reads(u, j)[i] == u.mem[p] && Reads(s, j)[i] == s.mem[p];
  }

  /** In any state: a send that takes no ready descriptor leaves every ready packet as it was, whatever it writes, if
      and only if it misses them all. */
  lemma SparesIff(s: Tx, len: u16)
    requires Round4(len) <= TX_BUFSIZE && !Ready(s.bds[s.last])
    ensures (forall image :: |image| == Round4(len) ==> Spares(s, Send(s, image, len))) <==> Misses(s, Round4(len))
  {
    var n := Round4(len);
    if Misses(s, n) {
      forall image | |image| == n
        ensures Spares(s, Send(s, image, len))
      {
        forall j: Index | Ready(s.bds[j]) && j != s.last
          ensures Reads(Send(s, image, len), j) == Reads(s, j)
        {
          MissedReads(s, image, len, j);
        }
      }
    } else {
      var j: Index, p: Place :| Ready(s.bds[j]) && InPacket(s, j, p) && Written(s, n, p);
      HitChanges(s, len, j, p);
      assert !Spares(s, Send(s, Changing(s, n, p), len));
    }
  }

  /** The packet last sent through each descriptor. */
  function Owners(steps: seq<Step>): (owners: seq<seq<u8>>)
    ensures |owners| == BD_MAX
  {
    if steps == [] then seq(BD_MAX, _ => []) else
      var init := steps[..|steps| - 1];
      OwnersAfter(Run(init), Owners(init), steps[|steps| - 1])
  }

  function OwnersAfter(s: Tx, owners: seq<seq<u8>>, step: Step): (after: seq<seq<u8>>)
    requires |owners| == BD_MAX
    ensures |after| == BD_MAX
  {
    if step.Sends? && Permitted(s, step.image, step.len) then owners[s.last := step.image[..step.len]] else owners
  }

  /** Every descriptor ready to be sent reads its own packet. */
  predicate Intact(s: Tx, owners: seq<seq<u8>>)
    requires |owners| == BD_MAX
  {
    forall j: Index :: Ready(s.bds[j]) ==> Reads(s, j) == owners[j]
  }

  /** A permitted send takes a descriptor that is not ready to be sent. */
  predicate TakesFree(s: Tx, step: Step) {
    step.Sends? && Permitted(s, step.image, step.len) ==> !Ready(s.bds[s.last])
  }

  /** All along a run no packet is lost before the hardware has sent it: its descriptor is not taken and reads its
      bytes. */
  predicate AlwaysIntact(steps: seq<Step>) {
    Intact(Run(steps), Owners(steps)) &&
    (steps == [] ||
     (AlwaysIntact(steps[..|steps| - 1]) && TakesFree(Run(steps[..|steps| - 1]), steps[|steps| - 1])))
  }

  predicate StepHarmless(s: Tx, step: Step) {
    step.Sends? && Permitted(s, step.image, step.len) ==> Harmless(s, step.len)
  }

  predicate AllHarmless(steps: seq<Step>) {
    steps == [] ||
    (AllHarmless(steps[..|steps| - 1]) && StepHarmless(Run(steps[..|steps| - 1]), steps[|steps| - 1]))
  }

  lemma SentReads(s: Tx, image: seq<u8>, len: u16)
    requires |image| == Round4(len) <= TX_BUFSIZE
    ensures Reads(Send(s, image, len), s.last) == image[..len]
  {
    var mem := RingWrite(s.mem, s.ptrEnd, image);
    WriteRead(s.mem, s.ptrEnd, image);
    assert RingRead(mem, s.ptrEnd, len) == RingRead(mem, s.ptrEnd, |image|)[..len];
    assert PlaceOf(BD(BD_TX_SEND, len, s.ptrEnd + TX_BASE)) == s.ptrEnd;
  }

  lemma SendIntact(s: Tx, owners: seq<seq<u8>>, image: seq<u8>, len: u16)
    requires |owners| == BD_MAX && Intact(s, owners) && |image| == Round4(len) <= TX_BUFSIZE && Harmless(s, len)
    ensures Intact(Send(s, image, len), owners[s.last := image[..len]])
  {
    SentReads(s, image, len);
    forall j: Index | Ready(Send(s, image, len).bds[j]) && j != s.last
      ensures Reads(Send(s, image, len), j) == owners[j]
    {
      MissedReads(s, image, len, j);
    }
  }

  /** Giving back descriptors touches neither the memory nor the others. */
  predicate Fewer(s: Tx, u: Tx) {
    u.mem == s.mem && forall j: Index :: Ready(u.bds[j]) ==> u.bds[j] == s.bds[j]
  }

  lemma {:induction false} ReclaimAllFewer(s: Tx)
    ensures Fewer(s, Ring.ReclaimAll(s))
    decreases Active(s)
  {
    if Ring.CanReclaim(s) {
      ReclaimAllFewer(ReclaimOne(s));
    }
  }

  lemma FewerIntact(s: Tx, u: Tx, owners: seq<seq<u8>>)
    requires |owners| == BD_MAX && Intact(s, owners) && Fewer(s, u)
    ensures Intact(u, owners)
  {
    forall j: Index | Ready(u.bds[j])
      ensures Reads(u, j) == owners[j]
    {
      assert Reads(u, j) == Reads(s, j);
    }
  }

  lemma StepIntact(s: Tx, owners: seq<seq<u8>>, step: Step)
    requires |owners| == BD_MAX && Intact(s, owners) && StepHarmless(s, step)
    ensures Intact(Next(s, step), OwnersAfter(s, owners, step)) && TakesFree(s, step)
  {
    match step
    case Sends(image, len) =>
      if Permitted(s, image, len) {
        SendIntact(s, owners, image, len);
      }
    case Reclaims =>
      ReclaimAllFewer(s);
      FewerIntact(s, TxInt(s), owners);
    case Finishes(j, status) =>
      FinishFewer(s, j, status);
      FewerIntact(s, Finish(s, j, status), owners);
  }

  lemma FinishFewer(s: Tx, j: Index, status: bv16)
    ensures Fewer(s, Finish(s, j, status))
  {
    assert (status & 0x7FFF) & BD_TX_READY == 0;
  }

  lemma {:induction false} HarmlessIsIntact(steps: seq<Step>)
    requires AllHarmless(steps)
    ensures AlwaysIntact(steps)
    decreases |steps|
  {
    if steps != [] {
      var init := steps[..|steps| - 1];
      HarmlessIsIntact(init);
      StepIntact(Run(init), Owners(init), steps[|steps| - 1]);
    }
  }

  /** Runs that differ at most in what their packets hold. */
  predicate SameShape(a: seq<Step>, b: seq<Step>) {
    |a| == |b| && forall i :: 0 <= i < |a| ==> SameStep(a[i], b[i])
  }

  predicate SameStep(x: Step, y: Step) {
    if x.Sends? then y.Sends? && x.len == y.len && |x.image| == |y.image| else x == y
  }

  /** States that differ at most in the memory. */
  predicate Alike(s: Tx, u: Tx) {
    u == s.(mem := u.mem)
  }

  lemma {:induction false} ReclaimAllAlike(s: Tx, u: Tx)
    requires Alike(s, u)
    ensures Alike(Ring.ReclaimAll(s), Ring.ReclaimAll(u))
    decreases Active(s)
  {
    if Ring.CanReclaim(s) {
      ReclaimAllAlike(ReclaimOne(s), ReclaimOne(u));
    }
  }

  lemma StepAlike(s: Tx, u: Tx, x: Step, y: Step)
    requires Alike(s, u) && SameStep(x, y)
    ensures Alike(Next(s, x), Next(u, y))
    ensures StepHarmless(s, x) <==> StepHarmless(u, y)
  {
    match x
    case Sends(image, len) =>
      assert Misses(s, Round4(len)) <==> Misses(u, Round4(len)) by {
        MissesAlike(s, u, Round4(len));
        MissesAlike(u, s, Round4(len));
      }
    case Reclaims => ReclaimAllAlike(s, u);
    case Finishes(_, _) =>
  }

  lemma MissesAlike(s: Tx, u: Tx, n: nat)
    requires Alike(s, u)
    ensures Misses(s, n) ==> Misses(u, n)
  {
    if Misses(s, n) {
      forall j: Index, p: Place | Ready(u.bds[j]) && InPacket(u, j, p)
        ensures !Written(u, n, p)
      {
        assert InPacket(s, j, p);
      }
    }
  }

  lemma {:induction false} RunAlike(a: seq<Step>, b: seq<Step>)
    requires SameShape(a, b)
    ensures Alike(Run(a), Run(b)) && (AllHarmless(a) <==> AllHarmless(b))
    decreases |a|
  {
    if a != [] {
      var n := |a| - 1;
      RunAlike(a[..n], b[..n]);
      StepAlike(Run(a[..n]), Run(b[..n]), a[n], b[n]);
    }
  }

  lemma IntactLast(steps: seq<Step>, step: Step)
    ensures AlwaysIntact(steps + [step]) <==>
            AlwaysIntact(steps) && TakesFree(Run(steps), step)
            && Intact(Next(Run(steps), step), OwnersAfter(Run(steps), Owners(steps), step))
  {
    var all := steps + [step];
    assert all[..|steps|] == steps;
    assert Owners(all) == OwnersAfter(Run(steps), Owners(steps), step);
    RunLast(steps, step);
  }

  lemma ShapeLast(a: seq<Step>, x: Step, b: seq<Step>, y: Step)
    requires SameShape(a, b) && SameStep(x, y)
    ensures SameShape(a + [x], b + [y])
  {
  }

  lemma ShapeItself(a: seq<Step>)
    ensures SameShape(a, a)
  {
  }

  /** A run with a harmful send loses a packet, its own or another's, for some contents of its packets. */
  lemma {:induction false} Spoiled(steps: seq<Step>) returns (others: seq<Step>)
    requires !AllHarmless(steps)
    ensures SameShape(steps, others) && !AlwaysIntact(others)
    decreases |steps|
  {
    var init, last := steps[..|steps| - 1], steps[|steps| - 1];
    assert steps == init + [last];
    if AllHarmless(init) {
      others := SpoiledLast(init, last);
    } else {
      var first := Spoiled(init);
      IntactLast(first, last);
      ShapeLast(init, last, first, last);
      others := first + [last];
    }
  }

  lemma SpoiledLast(init: seq<Step>, last: Step) returns (others: seq<Step>)
    requires AllHarmless(init) && !StepHarmless(Run(init), last)
    ensures SameShape(init + [last], others) && !AlwaysIntact(others)
  {
    HarmlessIsIntact(init);
    var step := SpoilingStep(Run(init), Owners(init), last);
    others := init + [step];
    IntactLast(init, step);
    ShapeItself(init);
    ShapeLast(init, last, init, step);
  }

  lemma SpoilingStep(s: Tx, owners: seq<seq<u8>>, step: Step) returns (other: Step)
    requires |owners| == BD_MAX && Intact(s, owners) && !StepHarmless(s, step)
    ensures SameStep(step, other)
    ensures !TakesFree(s, other) || !Intact(Next(s, other), OwnersAfter(s, owners, other))
  {
    other := step;
    if !Ready(s.bds[s.last]) {
      var n := Round4(step.len);
      var j: Index, p: Place :| Ready(s.bds[j]) && InPacket(s, j, p) && Written(s, n, p);
      other := Sends(Changing(s, n, p), step.len);
      HitChanges(s, step.len, j, p);
      assert Reads(Next(s, other), j) != owners[j];
    }
  }

  /** No packet is lost before it has been sent, all along a run and whatever the packets hold, if and only if every
      permitted send takes a descriptor that is not ready and misses all packets that are. */
  lemma IntactIff(steps: seq<Step>)
    ensures (forall others :: SameShape(steps, others) ==> AlwaysIntact(others)) <==> AllHarmless(steps)
  {
    if AllHarmless(steps) {
      forall others | SameShape(steps, others)
        ensures AlwaysIntact(others)
      {
        RunAlike(steps, others);
        HarmlessIsIntact(others);
      }
    } else {
      var others := Spoiled(steps);
      assert SameShape(steps, others) && !AlwaysIntact(others);
    }
  }

  // ---- Keeping to the window is harmless ----

  /** How many places after the first descriptor in use. */
  function Offset(s: Tx, j: Index): (k: nat)
    ensures k < BD_MAX && Nth(s, k) == j
  {
    if s.first <= j then j - s.first else j + BD_MAX - s.first
  }

  /** What is ready to be sent is in the driver's window. */
  predicate Covered(s: Tx) {
    forall j: Index :: Ready(s.bds[j]) ==> Offset(s, j) < Active(s)
  }

  lemma {:induction false} ReclaimAllCovered(s: Tx)
    requires Covered(s)
    ensures Covered(Ring.ReclaimAll(s))
    decreases Active(s)
  {
    if Ring.CanReclaim(s) {
      ReclaimAllCovered(ReclaimOne(s));
    }
  }

  lemma StepCovered(s: Tx, step: Step)
    requires Covered(s) && StepKept(s, step)
    ensures Covered(Next(s, step))
  {
    match step
    case Sends(image, len) =>
    case Reclaims => ReclaimAllCovered(s);
    case Finishes(j, status) => FinishFewer(s, j, status);
  }

  lemma Apart(end: Place, total: nat, before: nat, len: nat, p: Place)
    requires before + len <= total <= TX_BUFSIZE
    requires Back(p, Advance(Back(end, total), before)) < len
    ensures TX_BUFSIZE - total <= Back(p, end)
  {
  }

  lemma KeptMisses(s: Tx, fl: seq<Frame>, n: nat)
    requires Safe(s, fl) && Covered(s) && |Image(fl)| + n <= TX_BUFSIZE
    ensures Misses(s, n)
  {
    forall j: Index, p: Place | Ready(s.bds[j]) && InPacket(s, j, p)
      ensures !Written(s, n, p)
    {
      var k := Offset(s, j);
      assert Located(s, fl, k);
      ImageGrows(fl, k);
      ImageMonotone(fl, k + 1, |fl|);
      assert fl[..|fl|] == fl;
      Apart(s.ptrEnd, |Image(fl)|, |Image(fl[..k])|, |fl[k].payload|, p);
    }
  }

  lemma StepHarmlessIfKept(s: Tx, fl: seq<Frame>, step: Step)
    requires Safe(s, fl) && Covered(s) && StepKept(s, step)
    ensures StepHarmless(s, step)
  {
    if step.Sends? && Permitted(s, step.image, step.len) {
      UseIsImage(s, fl);
      KeptMisses(s, fl, |step.image|);
      assert Offset(s, s.last) == Active(s);
    }
  }

  lemma {:induction false} KeptIsHarmless(steps: seq<Step>)
    requires AllKept(steps)
    ensures AllHarmless(steps) && Covered(Run(steps))
    decreases |steps|
  {
    if steps != [] {
      var init, last := steps[..|steps| - 1], steps[|steps| - 1];
      KeptIsHarmless(init);
      AlwaysSafeIff(init);
      StepHarmlessIfKept(Run(init), Flying(init), last);
      StepCovered(Run(init), last);
    }
  }

  /** In a run whose sends find a free descriptor and keep to the space really free, every packet reaches the hardware:
      whenever a descriptor is ready to be sent, it reads the packet last sent through it. */
  lemma KeptIsIntact(steps: seq<Step>)
    requires AllKept(steps)
    ensures AlwaysIntact(steps)
    ensures forall j: Index :: Ready(Run(steps).bds[j]) ==> Reads(Run(steps), j) == Owners(steps)[j]
  {
    KeptIsHarmless(steps);
    HarmlessIsIntact(steps);
  }

  // ---- Two sends that are permitted and do harm ----

  /** After 64 small packets, none of them sent yet, and an interrupt the driver's window is empty, while all of them
      are ready: a full-size packet keeps to the space it takes for free, and destroys the second. */
  lemma EmptyWindowOverwrites()
    ensures var s := Run(Small(BD_MAX) + [Reclaims]);
            var image: seq<u8> := seq(1500, _ => 1);
            && Active(s) == 0 && InUse(s) == 0 && Permitted(s, image, 1500) && Ready(s.bds[1])
            && Ready(Send(s, image, 1500).bds[1]) && Reads(Send(s, image, 1500), 1) != Reads(s, 1)
  {
    var s := Run(Small(BD_MAX));
    SmallSends(BD_MAX);
    SmallSecond(BD_MAX);
    RunLast(Small(BD_MAX), Reclaims);
    var t := TxInt(s);
    assert t == s.(ptrStart := 3840);
    assert Lengths(t) == [];
    var u := Send(t, seq(1500, _ => 1), 1500);
    assert u.mem[60] == 1;
    assert Reads(u, 1)[0] == 1 && Reads(t, 1)[0] == 0;
  }

  /** What becomes of the second of them. */
  predicate SecondWaits(s: Tx, n: nat) {
    s.mem[60] == 0 && (1 < n ==> s.bds[1] == BD(BD_TX_SEND, 60, TX_BASE + 60))
  }

  lemma SecondStays(s: Tx, n: nat, image: seq<u8>)
    requires n < BD_MAX && Crowded(s, n) && SecondWaits(s, n) && image == seq(60, _ => 0)
    ensures SecondWaits(Send(s, image, 60), n + 1)
  {
    assert RingWrite(s.mem, s.ptrEnd, image)[60] == 0;
  }

  lemma {:induction false} SmallSecond(n: nat)
    requires n <= BD_MAX
    ensures SecondWaits(Run(Small(n)), n)
  {
    if n != 0 {
      var s, image: seq<u8> := Run(Small(n - 1)), seq(60, _ => 0);
      SmallSends(n - 1);
      SmallSecond(n - 1);
      SmallSend(s, n - 1, image);
      SecondStays(s, n - 1, image);
      RunLast(Small(n - 1), Sends(image, 60));
    }
  }

  function Fill(b: u8): Frame {
    Frame(seq(1500, _ => b), (0, 0, 0))
  }

  /** Four full-size packets, the first of which has been sent and reclaimed: the window wraps, the driver finds room
      for the last one, and that destroys the packet the hardware sends next. The driver polls the MAC before each of
      these sends; this is a MAC that reports itself ready while an earlier descriptor is still to be sent. */
  lemma WrappedSendOverwrites()
    ensures var s1 := SendFrame(SendFrame(InitTx(), Fill(1)), Fill(2));
            var s2 := SendFrame(ReclaimOne(Finish(s1, 0, 0)), Fill(3));
            && HasRoom(InitTx(), 1500) && HasRoom(SendFrame(InitTx(), Fill(1)), 1500)
            && HasRoom(ReclaimOne(Finish(s1, 0, 0)), 1500) && HasRoom(s2, 1500)
            && Ready(s2.bds[1]) && Reads(s2, 1) == Fill(2).payload
            && Ready(SendFrame(s2, Fill(4)).bds[1]) && Reads(SendFrame(s2, Fill(4)), 1) != Fill(2).payload
  {
    var s0 := SendFrame(InitTx(), Fill(1));
    var s1 := SendFrame(s0, Fill(2));
    var r := ReclaimOne(Finish(s1, 0, 0));
    var s2 := SendFrame(r, Fill(3));
    var s3 := SendFrame(s2, Fill(4));
    assert s1.bds[1] == BD(BD_TX_SEND, 1500, TX_BASE + 1500) && s1.ptrEnd == 3000;
    assert r.ptrStart == 1500 && r.ptrEnd == 3000 && r.bds[1] == s1.bds[1];
    assert s2.ptrEnd == 404 && s2.bds[1] == s1.bds[1] == s3.bds[1];
    assert forall i :: 1500 <= i < 3000 ==> s1.mem[i] == 2 && s2.mem[i] == 2;
    assert Reads(s2, 1) == Fill(2).payload;
    assert s3.mem[1500] == 4;
    assert Reads(s3, 1)[0] == 4;
  }
}
