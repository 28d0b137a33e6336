/** The transmit path as a state machine: the driver thread loads packets from its queue into the transmit ring and
    reclaims finished descriptors, the TCP/IP thread appends to the queue, and the hardware sends. Every interleaving
    of these steps is a run. */
module TxRuns {
  import opened Bytes
  import opened TxFifo
  import opened TxEngine

  /** The driver's ring and packet queue (oldest first), the hardware's own descriptor index, the wire, and every
      packet ever queued. `loaded` is the driver thread's place in its loop: the head of the queue has been copied
      out but not yet taken off. The last three components are bookkeeping that decides nothing: the frames in
      flight, how many of those the hardware has finished, and all the frames it has ever finished. */
  datatype World = World(ring: Ring, queue: seq<Frame>, loaded: bool, hwIndex: Index, wire: seq<seq<u8>>,
                         enqueued: seq<Frame>, inFlight: seq<Frame>, done: nat, sent: seq<Frame>)

  datatype Step =
    | Enqueue(frame: Frame)     // the TCP/IP thread appends a packet that is not queued already
    | LoadHead                  // one pass of HandleTxReqs, up to taking the packet off the queue
    | TakeOff                   // the rest of that pass
    | ReclaimOne                // one pass of HandleTxIntr
    | Send(status: bv16)        // the hardware sends the next ready descriptor and leaves a status

  function InitWorld(): World {
    World(InitRing(), [], false, 0, [], [], [], 0, [])
  }

  /** The effect of a step; one that is not enabled changes nothing. */
  function Next(w: World, step: Step): World {
    match step
    case Enqueue(f) => w.(queue := w.queue + [f], enqueued := w.enqueued + [f])
    case LoadHead => if HeadFits(w) then LoadedHead(w) else w
    case TakeOff => if w.loaded && w.queue != [] then TakenOff(w) else w
    case ReclaimOne => if !w.loaded && CanReclaim(w.ring) then Reclaimed(w) else w
    case Send(status) =>
      if Ready(w.ring.bds[w.hwIndex]) then Sent(w, status) else w
  }

  function TakenOff(w: World): World
    requires w.queue != []
  {
    w.(queue := w.queue[1..], loaded := false)
  }

  function Reclaimed(w: World): World
    requires CanReclaim(w.ring)
  {
    w.(ring := Reclaim(w.ring),
       inFlight := if w.inFlight == [] then [] else w.inFlight[1..], done := if w.done == 0 then 0 else w.done - 1)
  }

  function Sent(w: World, status: bv16): World {
    w.(ring := Complete(w.ring, w.hwIndex, status), hwIndex := NextIndex(w.hwIndex),
       wire := w.wire + [PointsAt(w.ring, w.hwIndex)],
       sent := w.sent + (if w.done < |w.inFlight| then [w.inFlight[w.done]] else []), done := w.done + 1)
  }

  /** The head of the queue is there to be loaded and passes the checks. The space counter never exceeds the buffer
      size in any run; it is spelt out because a frame larger than the buffer has no image in it. */
  predicate HeadFits(w: World) {
    !w.loaded && w.queue != [] && CanLoad(w.ring, w.queue[0]) && w.ring.space <= TX_BUFSIZE
  }

  function LoadedHead(w: World): World
    requires HeadFits(w)
  {
    w.(ring := Load(w.ring, w.queue[0]), loaded := true, inFlight := w.inFlight + [w.queue[0]])
  }

  /** The state a schedule of steps leads to. */
  function RunFrom(w: World, steps: seq<Step>): World {
    if steps == [] then w else Next(RunFrom(w, steps[..|steps| - 1]), steps[|steps| - 1])
  }

  function Run(steps: seq<Step>): World {
    RunFrom(InitWorld(), steps)
  }

  /** The packets still to be loaded. */
  function Waiting(w: World): seq<Frame> {
    if w.loaded && w.queue != [] then w.queue[1..] else w.queue
  }

  predicate Inv(w: World) {
    && Sound(w.ring, w.inFlight)
    && w.done <= |w.inFlight|
    && Flags(w.ring, w.done)
    && w.hwIndex == Slot(w.ring.dnvIndex, w.done)
    && (w.loaded ==> w.queue != [])
    && w.wire == Payloads(w.sent)
    && w.enqueued == w.sent + w.inFlight[w.done..] + Waiting(w)
    && (forall f :: f in w.sent + w.inFlight ==> Sendable(f))
  }

  // ---- The invariant over all runs ----

  lemma SendKeeps(w: World, status: bv16)
    requires Inv(w)
    ensures Inv(Next(w, Send(status)))
  {
    ReadyIsUnfinished(w.ring, w.done);
    if w.done < |w.inFlight| {
      SlotNext(w.ring.dnvIndex, w.done);
      CompleteFlags(w.ring, w.done, status);
      CompleteKeeps(w.ring, w.inFlight, w.hwIndex, status);
      SendsPayload(w.ring, w.inFlight, w.done);
      SendHistory(w.sent, w.inFlight, w.done);
    }
  }

  lemma SendHistory(sent: seq<Frame>, fl: seq<Frame>, done: nat)
    requires done < |fl|
    ensures sent + fl[done..] == sent + [fl[done]] + fl[done + 1..]
    ensures Payloads(sent + [fl[done]]) == Payloads(sent) + [fl[done].payload]
  {
  }

  lemma LoadHeadKeeps(w: World)
    requires Inv(w)
    ensures Inv(Next(w, LoadHead))
  {
    if HeadFits(w) {
      TxEngine.LoadKeeps(w.ring, w.inFlight, w.queue[0]);
      LoadFlags(w.ring, w.done, w.queue[0]);
      assert (w.inFlight + [w.queue[0]])[w.done..] == w.inFlight[w.done..] + [w.queue[0]];
      assert w.queue == [w.queue[0]] + w.queue[1..];
    }
  }

  lemma ReclaimOneKeeps(w: World)
    requires Inv(w)
    ensures Inv(Next(w, ReclaimOne))
  {
    if !w.loaded && CanReclaim(w.ring) {
      ReclaimableIsFinished(w.ring, w.done);
      ReclaimKeeps(w.ring, w.inFlight);
      ReclaimFlags(w.ring, w.done);
      SlotShift(w.ring.dnvIndex, 1, w.done - 1);
      assert w.inFlight[1..][w.done - 1..] == w.inFlight[w.done..];
    }
  }

  lemma NextKeeps(w: World, step: Step)
    requires Inv(w)
    ensures Inv(Next(w, step))
  {
    match step
    case Enqueue(f) => assert Waiting(Next(w, step)) == Waiting(w) + [f];
    case LoadHead => LoadHeadKeeps(w);
    case TakeOff =>
    case ReclaimOne => ReclaimOneKeeps(w);
    case Send(status) => SendKeeps(w, status);
  }

  lemma {:induction false} RunKeeps(w: World, steps: seq<Step>)
    requires Inv(w)
    ensures Inv(RunFrom(w, steps))
    decreases |steps|
  {
    if steps != [] {
      RunKeeps(w, steps[..|steps| - 1]);
      NextKeeps(RunFrom(w, steps[..|steps| - 1]), steps[|steps| - 1]);
    }
  }

  lemma Reachable(steps: seq<Step>)
    ensures Inv(Run(steps))
  {
    RunKeeps(InitWorld(), steps);
  }

  // ---- End to end ----

  /** What the unfinished descriptors from the k-th on point at, in ring order. */
  function OnRing(r: Ring, k: nat): seq<seq<u8>>
    decreases r.numInTx - k
  {
    if r.numInTx <= k then []
    else (if Ready(r.bds[Slot(r.dnvIndex, k)]) then [PointsAt(r, Slot(r.dnvIndex, k))] else []) + OnRing(r, k + 1)
  }

  lemma {:induction false} OnRingIsUnfinished(r: Ring, fl: seq<Frame>, done: nat, k: nat)
    requires Accounts(r, fl) && MemoryHolds(r, fl) && Described(r, fl) && Flags(r, done)
    requires done <= |fl| && k <= |fl|
    ensures OnRing(r, k) == Payloads(fl[if k < done then done else k..])
    decreases |fl| - k
  {
    if k < |fl| {
      OnRingIsUnfinished(r, fl, done, k + 1);
      assert Ready(r.bds[Slot(r.dnvIndex, k)]) <==> done <= k < r.numInTx;
      assert PointsAt(r, Slot(r.dnvIndex, k)) == fl[k].payload by {
        assert Describes(r, fl, k);
        SendsPayload(r, fl, k);
      }
      if done <= k {
        assert Payloads(fl[k..]) == [fl[k].payload] + Payloads(fl[k + 1..]);
      }
    }
  }

  /** However the threads and the hardware interleave, the packets ever queued are, in order: those on the wire,
      byte for byte; those the unfinished descriptors point at in the transmit memory; and those still waiting. */
  lemma EndToEnd(steps: seq<Step>)
    ensures var w := Run(steps);
            Payloads(w.enqueued) == w.wire + OnRing(w.ring, 0) + Payloads(Waiting(w))
  {
    Reachable(steps);
    var w := Run(steps);
    OnRingIsUnfinished(w.ring, w.inFlight, w.done, 0);
    PayloadsJoin(w.sent, w.inFlight[w.done..], Waiting(w));
  }

  lemma PayloadsJoin(a: seq<Frame>, b: seq<Frame>, c: seq<Frame>)
    ensures Payloads(a + b + c) == Payloads(a) + Payloads(b) + Payloads(c)
  {
  }

  /** In every reachable state the byte-space counter is exactly what the frames in flight leave free, and the two
      free-running 8-bit indices differ by the number of frames in flight, wrap-around included. */
  lemma Conservation(steps: seq<Step>)
    ensures var r := Run(steps).ring;
            && Sum(Held(r)) + r.space == TX_BUFSIZE
            && r.numInTx == (r.bdIndex - r.dnvIndex) % U8_RANGE
            && r.numInTx <= BD_MAX
  {
    Reachable(steps);
    var w := Run(steps);
    HeldLength(w.ring, w.inFlight);
    Plus8Difference(w.ring.dnvIndex, |w.inFlight|);
  }

  /** The rounded lengths of the descriptors in flight. */
  function Held(r: Ring): seq<nat> {
    seq(r.numInTx, k requires 0 <= k => Round4(r.bds[Slot(r.dnvIndex, k)].length))
  }

  lemma HeldLength(r: Ring, fl: seq<Frame>)
    requires r.numInTx == |fl| && Described(r, fl)
    ensures Sum(Held(r)) == |Image(fl)|
  {
    forall k | 0 <= k < |fl|
      ensures Held(r)[k] == |Padded(fl[k])|
    {
      assert Describes(r, fl, k);
    }
    ImageLength(fl, Held(r));
  }

  lemma {:induction false} ImageLength(q: seq<Frame>, lengths: seq<nat>)
    requires |q| == |lengths| && forall k :: 0 <= k < |q| ==> lengths[k] == |Padded(q[k])|
    ensures |Image(q)| == Sum(lengths)
  {
    if q != [] {
      ImageLength(q[1..], lengths[1..]);
    }
  }

  /** Whether a byte place belongs to the frame in flight at place k, or to the next n bytes to be written. */
  predicate InRegion(r: Ring, k: nat, p: Place) {
    var bd := r.bds[Slot(r.dnvIndex, k)];
    exists a :: 0 <= a < Round4(bd.length) && a < TX_BUFSIZE && p == Advance(PlaceOf(bd), a)
  }

  predicate InNext(r: Ring, n: nat, p: Place) {
    exists a :: 0 <= a < n && a < TX_BUFSIZE && p == Advance(r.wrPtr, a)
  }

  lemma ImagePrefixes(fl: seq<Frame>, j: nat, k: nat)
    requires j < k <= |fl|
    ensures |Image(fl[..j])| + |Padded(fl[j])| <= |Image(fl[..k])| <= |Image(fl)|
  {
    ImageGrows(fl, j);
    ImageMonotone(fl, j + 1, k);
    ImageMonotone(fl, k, |fl|);
    assert fl[..|fl|] == fl;
  }

  /** In every reachable state the regions of the frames in flight are pairwise disjoint. */
  lemma FramesDisjoint(steps: seq<Step>, j: nat, k: nat, p: Place)
    requires j < k < Run(steps).ring.numInTx
    ensures var r := Run(steps).ring; !(InRegion(r, j, p) && InRegion(r, k, p))
  {
    Reachable(steps);
    var w := Run(steps);
    assert Describes(w.ring, w.inFlight, j) && Describes(w.ring, w.inFlight, k);
    ImagePrefixes(w.inFlight, j, k);
    ImagePrefixes(w.inFlight, k, |w.inFlight|);
  }

  /** In every reachable state the region the next copy fills, however much of the free space it takes, meets none
      of the frames in flight. */
  lemma NextCopyDisjoint(steps: seq<Step>, k: nat, n: nat, p: Place)
    requires var r := Run(steps).ring; k < r.numInTx && n <= r.space
    ensures var r := Run(steps).ring; !(InRegion(r, k, p) && InNext(r, n, p))
  {
    Reachable(steps);
    var w := Run(steps);
    assert Describes(w.ring, w.inFlight, k);
    ImagePrefixes(w.inFlight, k, |w.inFlight|);
  }

  // ---- What the hardware is told with a frame ----

  /** What is still to be sent has the control bits READY, GENFCS and GENPAD, and no others. */
  predicate AsSent(r: Ring) {
    forall j: Index :: Ready(r.bds[j]) ==> r.bds[j].ctrlStat == 0x8300
  }

  lemma NextAsSent(w: World, step: Step)
    requires AsSent(w.ring)
    ensures AsSent(Next(w, step).ring)
  {
    match step
    case Enqueue(_) =>
    case LoadHead =>
    case TakeOff =>
    case ReclaimOne =>
    case Send(_) =>
  }

  lemma {:induction false} AlwaysAsSent(steps: seq<Step>)
    ensures AsSent(Run(steps).ring)
    decreases |steps|
  {
    if steps != [] {
      AlwaysAsSent(steps[..|steps| - 1]);
      NextAsSent(Run(steps[..|steps| - 1]), steps[|steps| - 1]);
    }
  }
}
