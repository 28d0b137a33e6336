/** The request queue of the smap-linux driver in its own form: a ring of eight packet pointers, each of which holds a
    reference to its packet. */
module RequestQueue {
  import opened Pbuf
  import opened WakeUp
  import Ring = LinuxTxRing
  import LinuxTxDriver

  type Slot = i: int | 0 <= i < MAX_REQ_CNT

  function SlotOf(first: Slot, k: nat): Slot
    requires k <= MAX_REQ_CNT
  {
    if first + k < MAX_REQ_CNT then first + k else first + k - MAX_REQ_CNT
  }

  /** A call of SMap_Send and what it said. */
  datatype Attempt = Attempt(packet: PBuf, status: Status)

  /** These attempts went through the queue from the front, n packets were done with, and the next had to wait. */
  predicate Tried(log: seq<Attempt>, queue: seq<PBuf>, n: nat) {
    && n <= |queue| && |log| == (if n < |queue| then n + 1 else n)
    && (forall i :: 0 <= i < |log| ==> log[i].packet == queue[i])
    && (forall i :: 0 <= i < |log| ==> (log[i].status == Tx <==> i == n))
  }

  /** The first n of these packets have been tried, and none of them had to wait. */
  predicate Logged(log: seq<Attempt>, queue: seq<PBuf>, n: nat) {
    && |log| == n <= |queue|
    && forall i :: 0 <= i < n ==> log[i].packet == queue[i] && log[i].status != Tx
  }

  /** If what is accepted stays the same, what leaves the queue has been disposed of. */
  lemma LeftIsDisposed(disposed: seq<PBuf>, queue: seq<PBuf>, disposed': seq<PBuf>, n: nat)
    requires n <= |queue| && disposed + queue == disposed' + queue[n..]
    ensures disposed' == disposed + queue[..n]
  {
    var all := disposed + queue;
    assert disposed' == all[..|disposed'|] && disposed + queue[..n] == all[..|disposed| + n];
  }

  /** How often a packet is in a queue. */
  function Times(q: seq<PBuf>, p: PBuf): nat {
    if q == [] then 0 else Times(q[1..], p) + if q[0] == p then 1 else 0
  }

  lemma {:induction false} TimesLast(q: seq<PBuf>, x: PBuf, p: PBuf)
    ensures Times(q + [x], p) == Times(q, p) + if x == p then 1 else 0
  {
    if q == [] {
      assert ([x])[1..] == [];
    } else {
      TimesLast(q[1..], x, p);
      assert (q + [x])[1..] == q[1..] + [x];
    }
  }

  lemma {:induction false} TimesOfMember(q: seq<PBuf>, p: PBuf)
    ensures p in q <==> 0 < Times(q, p)
  {
    if q != [] {
      TimesOfMember(q[1..], p);
    }
  }

  class Requests {
    const apReqQueue: array<PBuf?>
    var iReqNR: Slot
    var iReqCNT: nat
    var iSendReq: bool            // a thread is announced as waiting
    var iTimeoutCNT: nat
    var signal: nat               // the count of iSendReqMutex
    ghost var queue: seq<PBuf>    // the ring's contents, oldest first
    ghost var accepted: seq<PBuf>
    ghost var disposed: seq<PBuf> // those SMap_Send has sent or given up on
    ghost var attempts: seq<Attempt>

    /** The references to a packet besides those its places in the queue hold. */
    ghost function OtherRefs(p: PBuf): int
      reads `queue, p`ref
    {
      p.ref - Times(queue, p)
    }

    /** The ring holds the queue, the queue is what has been accepted and not disposed of, and each packet has a
        reference for every time it is queued. */
    ghost predicate Valid()
      reads this, apReqQueue, queue
    {
      && apReqQueue.Length == MAX_REQ_CNT
      && iReqCNT == |queue| <= MAX_REQ_CNT
      && (forall k :: 0 <= k < |queue| ==> apReqQueue[SlotOf(iReqNR, k)] == queue[k])
      && accepted == disposed + queue
      && (forall p :: p in queue ==> Times(queue, p) <= p.ref)
    }

    /** These fields are those of a state of the wake-up protocol. */
    ghost predicate Is(s: State)
      reads this
    {
      && queue == s.queue && iSendReq == s.sendReq && signal == s.signal && iTimeoutCNT == s.timeout
      && accepted == s.accepted && disposed == s.disposed
    }

    constructor ()
      ensures Valid() && queue == [] && accepted == [] && !iSendReq && signal == 1 && fresh(apReqQueue)
    {
      apReqQueue := new PBuf?[MAX_REQ_CNT](_ => null);
      iReqNR, iReqCNT, iSendReq, iTimeoutCNT, signal := 0, 0, false, 0, 1;
      queue, accepted, disposed, attempts := [], [], [], [];
    }

    /** SMap_Send, whatever it says. */
    method Transmit(p: PBuf) returns (status: Status)
      modifies `attempts
      ensures attempts == old(attempts) + [Attempt(p, status)]
    {
      status := *;
      attempts := attempts + [Attempt(p, status)];
    }

    method StoreLast(p: PBuf)
      requires Valid() && |queue| < MAX_REQ_CNT
      modifies `iReqCNT, `queue, `accepted, apReqQueue, p`ref
      ensures Valid() && queue == old(queue) + [p] && accepted == old(accepted) + [p] && p.ref == old(p.ref) + 1
      ensures forall x :: x in queue ==> OtherRefs(x) == old(OtherRefs(x))
    {
      forall x
        ensures Times(queue + [p], x) == Times(queue, x) + if x == p then 1 else 0
      {
        TimesLast(queue, p, x);
      }
      TimesOfMember(queue, p);
      apReqQueue[SlotOf(iReqNR, iReqCNT)] := p;
      iReqCNT := iReqCNT + 1;
      p.ref := p.ref + 1;
      queue, accepted := queue + [p], accepted + [p];
    }

    /** Accepts a packet, unless the queue is full or it is empty and the packet cannot be sent. A packet that has to
        wait is put last and holds one more reference; only an empty queue means trying at once. This is the protocol's
        step for the thread that called, which has to wait exactly when the answer is Tx. */
    method AddToQueue(p: PBuf, ghost s: State, ghost i: nat) returns (ret: Status, ghost said: Status)
      requires Valid() && Is(s) && i < |s.threads|
      modifies `iReqCNT, `queue, `accepted, `disposed, `iTimeoutCNT, `attempts, apReqQueue, p`ref
      ensures Valid()
      ensures |old(queue)| == MAX_REQ_CNT ==> ret == Tx && queue == old(queue) && attempts == old(attempts)
      ensures 0 < |old(queue)| < MAX_REQ_CNT ==> ret == Ok && queue == old(queue) + [p] && attempts == old(attempts)
      ensures old(queue) == [] ==> attempts == old(attempts) + [Attempt(p, said)]
      ensures old(queue) == [] ==> if said == Tx then queue == [p] && ret == Ok else queue == [] && ret == said
      ensures accepted == if ret == Ok then old(accepted) + [p] else old(accepted)
      ensures p.ref == old(p.ref) + |queue| - |old(queue)|
      ensures Is(Added(s, i, p, said)) && (ret == Tx <==> Added(s, i, p, said).threads[i] == AtMutex(p))
    {
      said := Ok;
      if iReqCNT == 0 {
        ret := Transmit(p);
        said := ret;
        if ret == Tx {
          StoreLast(p);
          iTimeoutCNT := 0;
          ret := Ok;
        } else if ret == Ok {
          accepted, disposed := accepted + [p], disposed + [p];
        }
      } else if iReqCNT < MAX_REQ_CNT {
        StoreLast(p);
        ret := Ok;
      } else {
        ret := Tx;
      }
    }

    /** The oldest packet is done with: its place and its reference are given back. */
    method DropFirst(first: PBuf, ghost all: seq<PBuf>)
      requires Valid() && queue != [] && first == queue[0]
      modifies `iReqNR, `iReqCNT, `queue, `disposed, first`ref
      ensures Valid() && queue == old(queue)[1..] && accepted == old(accepted)
      ensures forall p :: p in all ==> OtherRefs(p) == old(OtherRefs(p))
    {
      first.ref := first.ref - 1;
      iReqNR := SlotOf(iReqNR, 1);
      iReqCNT := iReqCNT - 1;
      disposed := disposed + [first];
      queue := queue[1..];
    }

    /** Tries to send the oldest packet; unless there is no room for it in the transmit memory, it is done with. */
    method SendFirst(first: PBuf, ghost all: seq<PBuf>) returns (status: Status)
      requires Valid() && queue != [] && first == queue[0]
      modifies `iReqNR, `iReqCNT, `queue, `disposed, `iTimeoutCNT, `attempts, first`ref
      ensures Valid() && iTimeoutCNT == 0 && accepted == old(accepted)
      ensures attempts == old(attempts) + [Attempt(first, status)]
      ensures queue == if status == Tx then old(queue) else old(queue)[1..]
      ensures forall p :: p in all ==> OtherRefs(p) == old(OtherRefs(p))
    {
      status := Transmit(first);
      iTimeoutCNT := 0;
      if status != Tx {
        DropFirst(first, all);
      }
    }

    /** One pass of the loop below, after n of these packets have been sent or given up on. */
    method TryNext(ghost all: seq<PBuf>, ghost log: seq<Attempt>, ghost n: nat)
      returns (status: Status, ghost more: seq<Attempt>)
      requires Valid() && iReqCNT > 0 && Logged(log, all, n) && queue == all[n..]
      modifies `iReqNR, `iReqCNT, `queue, `disposed, `iTimeoutCNT, `attempts, all`ref
      ensures Valid() && iTimeoutCNT == 0 && accepted == old(accepted)
      ensures |more| == n + 1 && attempts == old(attempts) + [more[n]] && more == log + [more[n]]
      ensures if status == Tx then Tried(more, all, n) && queue == all[n..]
              else Logged(more, all, n + 1) && queue == all[n + 1..]
      ensures forall p :: p in all ==> OtherRefs(p) == old(OtherRefs(p))
    {
      var first := apReqQueue[SlotOf(iReqNR, 0)];
      assert first == queue[0] == all[n];
      status := SendFirst(first, all);
      more := log + [Attempt(first, status)];
    }

    /** Sends from the front until there is no room in the transmit memory. Every packet sent or given up on loses
        exactly the references its places in the queue held. */
    method SendRequests() returns (sent: nat, ghost log: seq<Attempt>)
      requires Valid()
      modifies `iReqNR, `iReqCNT, `queue, `disposed, `iTimeoutCNT, `attempts, queue`ref
      ensures Valid() && accepted == old(accepted)
      ensures attempts == old(attempts) + log && Tried(log, old(queue), sent) && queue == old(queue)[sent..]
      ensures iTimeoutCNT == if old(queue) == [] then old(iTimeoutCNT) else 0
      ensures forall p :: p in old(queue) ==> OtherRefs(p) == old(OtherRefs(p))
    {
      sent, log := 0, [];
      ghost var all := queue;
      while iReqCNT > 0
        invariant Valid() && accepted == old(accepted)
        invariant Logged(log, all, sent) && queue == all[sent..] && attempts == old(attempts) + log
        invariant iTimeoutCNT == if sent == 0 then old(iTimeoutCNT) else 0
        invariant forall p :: p in all ==> OtherRefs(p) == old(OtherRefs(p))
        decreases iReqCNT
      {
        var status;
        status, log := TryNext(all, log, sent);
        if status == Tx {
          return;
        }
        sent := sent + 1;
      }
    }

    /** Sends what can be sent, then signals a waiting thread: the protocol's handler. */
    method QueueHandler(ghost s: State) returns (sent: nat, ghost log: seq<Attempt>)
      requires Valid() && Is(s)
      modifies this, queue`ref
      ensures Valid() && Is(Handled(s, sent))
      ensures attempts == old(attempts) + log && Tried(log, old(queue), sent)
      ensures forall p :: p in old(queue) ==> OtherRefs(p) == old(OtherRefs(p))
    {
      sent, log := SendRequests();
      LeftIsDisposed(s.disposed, s.queue, disposed, sent);
      if iSendReq {
        signal := Signalled(signal);
        iSendReq := false;
      }
    }

    /** The timer: when no handler has run for three intervals while packets waited, it runs now. */
    method Timer(ghost s: State) returns (handled: bool, sent: nat, ghost log: seq<Attempt>)
      requires Valid() && Is(s)
      modifies this, queue`ref
      ensures Valid() && Is(Ticked(s, sent)) && attempts == old(attempts) + log
      ensures handled <==> old(queue) != [] && TIMEOUT <= old(iTimeoutCNT) + TIMER_INTERVAL < TIMEOUT + TIMER_INTERVAL
      ensures if handled then Tried(log, old(queue), sent) else log == [] && queue == old(queue)
      ensures forall p :: p in old(queue) ==> OtherRefs(p) == old(OtherRefs(p))
    {
      handled, sent, log := false, 0, [];
      if iReqCNT == 0 {
        return;
      }
      iTimeoutCNT := iTimeoutCNT + TIMER_INTERVAL;
      if iTimeoutCNT >= TIMEOUT && iTimeoutCNT < TIMEOUT + TIMER_INTERVAL {
        sent, log := QueueHandler(s.(timeout := iTimeoutCNT));
        handled := true;
      }
    }
  }

  /** tot_len. */
  function Length(p: PBuf): nat {
    |p.payload| + |p.rest|
  }

  /** A sender that waits is signalled by the next call of the handler; it finds room exactly when SMap_Send did not
      answer "no room" for the head of the queue: when there is no link, or that packet is too long ever to be sent, or
      the transmit ring, as the driver counts, has room for it. */
  lemma SignalMeansRoomIff(s: State, sent: nat, log: seq<Attempt>, ring: Ring.Tx, linkValid: bool, emacReady: bool)
    requires Inv(s) && s.sendReq && Tried(log, s.queue, sent)
    requires LinuxTxDriver.Says(log[0].status, ring, Length(s.queue[0]), linkValid, emacReady)
    ensures Handled(s, sent).signal == 1
    ensures |Handled(s, sent).queue| < MAX_REQ_CNT <==>
            !linkValid || Length(s.queue[0]) > Ring.SMAP_TXMAXSIZE || Ring.HasRoom(ring, Length(s.queue[0]))
  {
    WakeUp.SignalMeansRoomIff(s, sent);
    assert log[0].status == Tx <==> 0 == sent;
  }
}
