/** The request queue of the smap-linux driver with any number of sending threads, its timer and its interrupt handler:
    a queue of eight packets, a drainer, and two binary semaphores through which a sender that found the queue full
    waits for room. Every interleaving of the atomic steps is a run. */
module WakeUp {
  import opened Pbuf

  const MAX_REQ_CNT := 8
  const TIMER_INTERVAL := 100_000
  const TIMEOUT := 300_000

  type Packet = PBuf

  /** What SMap_Send says: sent, not sendable, not connected, or no room in the transmit memory. */
  datatype Status = Ok | Err | Con | Tx

  /** Where a thread is in Send. */
  datatype Place =
    | Away
    | Adding(packet: Packet)        // about to call AddToQueue
    | AtMutex(packet: Packet)       // waits for iSendMutex
    | Rechecking(packet: Packet)    // holds iSendMutex, about to look at the queue again
    | Blocked(packet: Packet)       // holds iSendMutex, waits for iSendReqMutex
    | Releasing(packet: Packet)     // about to give iSendMutex back

  /** `sendReq` is iSendReq != -1; `mutex` and `signal` are the counts of iSendMutex and iSendReqMutex. The last four
      components are bookkeeping: the packets accepted, those of them SMap_Send has disposed of, all that Send was ever
      called with, and those it was told could not be sent. */
  datatype State = State(threads: seq<Place>, queue: seq<Packet>, sendReq: bool, mutex: nat, signal: nat, timeout: nat,
                         accepted: seq<Packet>, disposed: seq<Packet>, called: multiset<Packet>,
                         refused: multiset<Packet>)

  datatype Step =
    | Call(thread: nat, packet: Packet)
    | AddToQueue(thread: nat, status: Status)   // status is what SMap_Send says, if it is asked
    | TakeMutex(thread: nat)
    | Recheck(thread: nat)
    | TakeSignal(thread: nat)
    | Release(thread: nat)
    | TxInterrupt(sent: nat)                    // the handler gets that many packets sent before it runs out of room
    | Timer(sent: nat)

  function InitState(threads: nat): State {
    State(seq(threads, _ => Away), [], false, 1, 1, 0, [], [], multiset{}, multiset{})
  }

  function MoveTo(s: State, i: nat, p: Place): State
    requires i < |s.threads|
  {
    s.(threads := s.threads[i := p])
  }

  /** A semaphore with a maximum of 1. */
  function Signalled(count: nat): nat {
    if count < 1 then count + 1 else count
  }

  /** AddToQueue: an empty queue means trying at once; a full one means the thread has to wait. */
  function Added(s: State, i: nat, p: Packet, status: Status): State
    requires i < |s.threads|
  {
    if s.queue == [] then
      match status
      case Ok => MoveTo(s, i, Away).(accepted := s.accepted + [p], disposed := s.disposed + [p])
      case Tx => MoveTo(s, i, Away).(accepted := s.accepted + [p], queue := [p], timeout := 0)
      case Err => MoveTo(s, i, Away).(refused := s.refused + multiset{p})
      case Con => MoveTo(s, i, Away).(refused := s.refused + multiset{p})
    else if |s.queue| < MAX_REQ_CNT then MoveTo(s, i, Away).(accepted := s.accepted + [p], queue := s.queue + [p])
    else MoveTo(s, i, AtMutex(p))
  }

  /** QueueHandler: sends from the front of the queue, then signals whoever waits. */
  function Handled(s: State, sent: nat): State {
    var n := if sent < |s.queue| then sent else |s.queue|;
    var u := s.(queue := s.queue[n..], disposed := s.disposed + s.queue[..n],
                timeout := if s.queue == [] then s.timeout else 0);
    if s.sendReq then u.(sendReq := false, signal := Signalled(s.signal)) else u
  }

  function Ticked(s: State, sent: nat): State {
    if s.queue == [] then s else
      var u := s.(timeout := s.timeout + TIMER_INTERVAL);
      if TIMEOUT <= u.timeout < TIMEOUT + TIMER_INTERVAL then Handled(u, sent) else u
  }

  // ---- What a thread does in Send ----

  function Called(s: State, i: nat, p: Packet): State
    requires i < |s.threads|
  {
    MoveTo(s, i, Adding(p)).(called := s.called + multiset{p})
  }

  /** WaitSema(iSendMutex) returns. */
  function MutexTaken(s: State, i: nat, p: Packet): State
    requires i < |s.threads| && s.mutex > 0
  {
    MoveTo(s, i, Rechecking(p)).(mutex := s.mutex - 1)
  }

  function Rechecked(s: State, i: nat, p: Packet): State
    requires i < |s.threads|
  {
    var full := |s.queue| == MAX_REQ_CNT;
    MoveTo(s, i, if full then Blocked(p) else Releasing(p)).(sendReq := s.sendReq || full)
  }

  /** WaitSema(iSendReqMutex) returns. */
  function SignalTaken(s: State, i: nat, p: Packet): State
    requires i < |s.threads| && s.signal > 0
  {
    MoveTo(s, i, Releasing(p)).(signal := s.signal - 1)
  }

  /** SignalSema(iSendMutex), and back to the start of the loop. */
  function Released(s: State, i: nat, p: Packet): State
    requires i < |s.threads|
  {
    MoveTo(s, i, Adding(p)).(mutex := Signalled(s.mutex))
  }

  function ThreadStep(s: State, i: nat, step: Step): State
    requires i < |s.threads|
  {
    match s.threads[i]
    case Away => if step.Call? then Called(s, i, step.packet) else s
    case Adding(p) => if step.AddToQueue? then Added(s, i, p, step.status) else s
    case AtMutex(p) => if step.TakeMutex? && s.mutex > 0 then MutexTaken(s, i, p) else s
    case Rechecking(p) => if step.Recheck? then Rechecked(s, i, p) else s
    case Blocked(p) => if step.TakeSignal? && s.signal > 0 then SignalTaken(s, i, p) else s
    case Releasing(p) => if step.Release? then Released(s, i, p) else s
  }

  /** The effect of a step; one that is not enabled changes nothing. */
  function Next(s: State, step: Step): State {
    match step
    case TxInterrupt(sent) => Handled(s, sent)
    case Timer(sent) => Ticked(s, sent)
    case _ => if step.thread < |s.threads| then ThreadStep(s, step.thread, step) else s
  }

  function RunFrom(s: State, steps: seq<Step>): State {
    if steps == [] then s else Next(RunFrom(s, steps[..|steps| - 1]), steps[|steps| - 1])
  }

  // ---- What every step keeps ----

  predicate Holds(p: Place) {
    p.Rechecking? || p.Blocked? || p.Releasing?
  }

  predicate Inv(s: State) {
    && |s.queue| <= MAX_REQ_CNT
    && s.accepted == s.disposed + s.queue
    && s.mutex <= 1 && s.signal <= 1
    && s.timeout < TIMEOUT
    && (s.sendReq ==> |s.queue| == MAX_REQ_CNT)
    && (forall i :: 0 <= i < |s.threads| && Holds(s.threads[i]) ==> s.mutex == 0)
    && (forall i, j :: 0 <= i < j < |s.threads| ==> !(Holds(s.threads[i]) && Holds(s.threads[j])))
    && (forall i :: 0 <= i < |s.threads| && s.threads[i].Blocked? ==> s.sendReq || s.signal == 1)
  }

  lemma NextKeeps(s: State, step: Step)
    requires Inv(s)
    ensures Inv(Next(s, step))
  {
    match step
    case TxInterrupt(sent) => HandledKeeps(s, sent);
    case Timer(sent) =>
      if s.queue != [] && TIMEOUT <= s.timeout + TIMER_INTERVAL {
        HandledKeeps(s, sent);
      }
    case _ =>
      if step.thread < |s.threads| {
        ThreadStepKeeps(s, step.thread, step);
      }
  }

  lemma HandledKeeps(s: State, sent: nat)
    requires Inv(s)
    ensures Inv(Handled(s, sent)) && (s.sendReq ==> Handled(s, sent).signal == 1)
  {
  }

  lemma CalledKeeps(s: State, i: nat, p: Packet)
    requires Inv(s) && i < |s.threads| && s.threads[i].Away?
    ensures Inv(Called(s, i, p))
  {
  }

  lemma AddedKeeps(s: State, i: nat, p: Packet, status: Status)
    requires Inv(s) && i < |s.threads| && s.threads[i] == Adding(p)
    ensures Inv(Added(s, i, p, status))
  {
  }

  lemma MutexTakenKeeps(s: State, i: nat, p: Packet)
    requires Inv(s) && i < |s.threads| && s.threads[i] == AtMutex(p) && s.mutex > 0
    ensures Inv(MutexTaken(s, i, p))
  {
  }

  lemma RecheckedKeeps(s: State, i: nat, p: Packet)
    requires Inv(s) && i < |s.threads| && s.threads[i] == Rechecking(p)
    ensures Inv(Rechecked(s, i, p))
  {
  }

  lemma SignalTakenKeeps(s: State, i: nat, p: Packet)
    requires Inv(s) && i < |s.threads| && s.threads[i] == Blocked(p) && s.signal > 0
    ensures Inv(SignalTaken(s, i, p))
  {
  }

  lemma ReleasedKeeps(s: State, i: nat, p: Packet)
    requires Inv(s) && i < |s.threads| && s.threads[i] == Releasing(p)
    ensures Inv(Released(s, i, p)) && s.mutex == 0
  {
    assert Holds(s.threads[i]);
  }

  lemma ThreadStepKeeps(s: State, i: nat, step: Step)
    requires Inv(s) && i < |s.threads|
    ensures Inv(ThreadStep(s, i, step))
  {
    match s.threads[i]
    case Away => if step.Call? { CalledKeeps(s, i, step.packet); }
    case Adding(p) => if step.AddToQueue? { AddedKeeps(s, i, p, step.status); }
    case AtMutex(p) => if step.TakeMutex? && s.mutex > 0 { MutexTakenKeeps(s, i, p); }
    case Rechecking(p) => if step.Recheck? { RecheckedKeeps(s, i, p); }
    case Blocked(p) => if step.TakeSignal? && s.signal > 0 { SignalTakenKeeps(s, i, p); }
    case Releasing(p) => if step.Release? { ReleasedKeeps(s, i, p); }
  }

  lemma {:induction false} RunKeeps(s: State, steps: seq<Step>)
    requires Inv(s)
    ensures Inv(RunFrom(s, steps))
    decreases |steps|
  {
    if steps != [] {
      RunKeeps(s, steps[..|steps| - 1]);
      NextKeeps(RunFrom(s, steps[..|steps| - 1]), steps[|steps| - 1]);
    }
  }

  /** In every reachable state the packets accepted are, in order, those SMap_Send has disposed of and then those
      queued, so none is lost, sent twice or overtaken; a thread is announced as waiting only while the queue is full;
      one thread at a time waits, and it is announced or already signalled; and the timer has not run out. */
  lemma Reachable(threads: nat, steps: seq<Step>)
    ensures Inv(RunFrom(InitState(threads), steps))
  {
    RunKeeps(InitState(threads), steps);
  }

  // ---- No packet is lost on the way, and iSendMutex neither ----

  /** Whether a thread has this packet in its hands. */
  function InHand(p: Place, x: Packet): nat {
    if !p.Away? && p.packet == x then 1 else 0
  }

  function Hands(threads: seq<Place>, x: Packet): nat {
    if threads == [] then 0 else Hands(threads[..|threads| - 1], x) + InHand(threads[|threads| - 1], x)
  }

  function Holders(threads: seq<Place>): nat {
    if threads == [] then 0 else
      Holders(threads[..|threads| - 1]) + if Holds(threads[|threads| - 1]) then 1 else 0
  }

  lemma {:induction false} HandsMove(threads: seq<Place>, i: nat, p: Place, x: Packet)
    requires i < |threads|
    ensures Hands(threads[i := p], x) + InHand(threads[i], x) == Hands(threads, x) + InHand(p, x)
    decreases |threads|
  {
    var n := |threads| - 1;
    if i < n {
      HandsMove(threads[..n], i, p, x);
      assert threads[i := p][..n] == threads[..n][i := p];
    } else {
      assert threads[i := p][..n] == threads[..n];
    }
  }

  lemma {:induction false} HoldersMove(threads: seq<Place>, i: nat, p: Place)
    requires i < |threads|
    ensures Holders(threads[i := p]) + (if Holds(threads[i]) then 1 else 0)
         == Holders(threads) + if Holds(p) then 1 else 0
    decreases |threads|
  {
    var n := |threads| - 1;
    if i < n {
      HoldersMove(threads[..n], i, p);
      assert threads[i := p][..n] == threads[..n][i := p];
    } else {
      assert threads[i := p][..n] == threads[..n];
    }
  }

  lemma {:induction false} NobodyIn(threads: seq<Place>, x: Packet)
    requires forall i :: 0 <= i < |threads| ==> threads[i].Away?
    ensures Hands(threads, x) == 0 && Holders(threads) == 0
    decreases |threads|
  {
    if threads != [] {
      NobodyIn(threads[..|threads| - 1], x);
    }
  }

  /** How often a packet was sent with Send, and what became of it each time. */
  predicate Conserved(s: State, x: Packet) {
    s.called[x] == multiset(s.accepted)[x] + s.refused[x] + Hands(s.threads, x)
  }

  predicate OneHolder(s: State) {
    s.mutex + Holders(s.threads) == 1
  }

  lemma MoveConserves(s: State, i: nat, u: State, x: Packet)
    requires Conserved(s, x) && OneHolder(s) && i < |s.threads| == |u.threads|
    requires u.threads == s.threads[i := u.threads[i]] && u.accepted == s.accepted && u.refused == s.refused
    requires u.called[x] + InHand(s.threads[i], x) == s.called[x] + InHand(u.threads[i], x)
    requires u.mutex + (if Holds(u.threads[i]) then 1 else 0) == s.mutex + if Holds(s.threads[i]) then 1 else 0
    ensures Conserved(u, x) && OneHolder(u)
  {
    HandsMove(s.threads, i, u.threads[i], x);
    HoldersMove(s.threads, i, u.threads[i]);
  }

  lemma AcceptedConserves(s: State, i: nat, u: State, p: Packet, x: Packet)
    requires Conserved(s, x) && OneHolder(s) && i < |s.threads| && s.threads[i] == Adding(p)
    requires u.threads == s.threads[i := Away] && u.called == s.called && u.mutex == s.mutex
    requires (u.accepted == s.accepted + [p] && u.refused == s.refused)
             || (u.accepted == s.accepted && u.refused == s.refused + multiset{p})
    ensures Conserved(u, x) && OneHolder(u)
  {
    HandsMove(s.threads, i, Away, x);
    HoldersMove(s.threads, i, Away);
  }

  lemma AddedConserves(s: State, i: nat, p: Packet, status: Status, x: Packet)
    requires Conserved(s, x) && OneHolder(s) && i < |s.threads| && s.threads[i] == Adding(p)
    ensures Conserved(Added(s, i, p, status), x) && OneHolder(Added(s, i, p, status))
  {
    var u := Added(s, i, p, status);
    if u.threads[i].Away? {
      AcceptedConserves(s, i, u, p, x);
    } else {
      MoveConserves(s, i, u, x);
    }
  }

  lemma CalledConserves(s: State, i: nat, p: Packet, x: Packet)
    requires Conserved(s, x) && OneHolder(s) && i < |s.threads| && s.threads[i].Away?
    ensures Conserved(Called(s, i, p), x) && OneHolder(Called(s, i, p))
  {
    MoveConserves(s, i, Called(s, i, p), x);
  }

  lemma MutexTakenConserves(s: State, i: nat, p: Packet, x: Packet)
    requires Conserved(s, x) && OneHolder(s) && i < |s.threads| && s.threads[i] == AtMutex(p) && s.mutex > 0
    ensures Conserved(MutexTaken(s, i, p), x) && OneHolder(MutexTaken(s, i, p))
  {
    MoveConserves(s, i, MutexTaken(s, i, p), x);
  }

  lemma RecheckedConserves(s: State, i: nat, p: Packet, x: Packet)
    requires Conserved(s, x) && OneHolder(s) && i < |s.threads| && s.threads[i] == Rechecking(p)
    ensures Conserved(Rechecked(s, i, p), x) && OneHolder(Rechecked(s, i, p))
  {
    MoveConserves(s, i, Rechecked(s, i, p), x);
  }

  lemma SignalTakenConserves(s: State, i: nat, p: Packet, x: Packet)
    requires Conserved(s, x) && OneHolder(s) && i < |s.threads| && s.threads[i] == Blocked(p) && s.signal > 0
    ensures Conserved(SignalTaken(s, i, p), x) && OneHolder(SignalTaken(s, i, p))
  {
    MoveConserves(s, i, SignalTaken(s, i, p), x);
  }

  lemma ReleasedConserves(s: State, i: nat, p: Packet, x: Packet)
    requires Conserved(s, x) && OneHolder(s) && i < |s.threads| && s.threads[i] == Releasing(p) && s.mutex == 0
    ensures Conserved(Released(s, i, p), x) && OneHolder(Released(s, i, p))
  {
    MoveConserves(s, i, Released(s, i, p), x);
  }

  lemma FreeStepConserves(s: State, i: nat, step: Step, x: Packet)
    requires Conserved(s, x) && OneHolder(s) && i < |s.threads| && !Holds(s.threads[i])
    ensures Conserved(ThreadStep(s, i, step), x) && OneHolder(ThreadStep(s, i, step))
  {
    match s.threads[i]
    case Away => if step.Call? { CalledConserves(s, i, step.packet, x); }
    case Adding(p) => if step.AddToQueue? { AddedConserves(s, i, p, step.status, x); }
    case AtMutex(p) => if step.TakeMutex? && s.mutex > 0 { MutexTakenConserves(s, i, p, x); }
  }

  lemma HolderStepConserves(s: State, i: nat, step: Step, x: Packet)
    requires Conserved(s, x) && OneHolder(s) && i < |s.threads| && Holds(s.threads[i]) && s.mutex == 0
    ensures Conserved(ThreadStep(s, i, step), x) && OneHolder(ThreadStep(s, i, step))
  {
    match s.threads[i]
    case Rechecking(p) => if step.Recheck? { RecheckedConserves(s, i, p, x); }
    case Blocked(p) => if step.TakeSignal? && s.signal > 0 { SignalTakenConserves(s, i, p, x); }
    case Releasing(p) => if step.Release? { ReleasedConserves(s, i, p, x); }
  }

  lemma HandledConserves(s: State, sent: nat, x: Packet)
    requires Conserved(s, x) && OneHolder(s)
    ensures Conserved(Handled(s, sent), x) && OneHolder(Handled(s, sent))
    ensures Conserved(Ticked(s, sent), x) && OneHolder(Ticked(s, sent))
  {
  }

  lemma NextConserves(s: State, step: Step, x: Packet)
    requires Conserved(s, x) && Inv(s) && OneHolder(s)
    ensures Conserved(Next(s, step), x) && OneHolder(Next(s, step))
  {
    match step
    case TxInterrupt(sent) => HandledConserves(s, sent, x);
    case Timer(sent) => HandledConserves(s, sent, x);
    case _ =>
      if step.thread < |s.threads| {
        if Holds(s.threads[step.thread]) {
          HolderStepConserves(s, step.thread, step, x);
        } else {
          FreeStepConserves(s, step.thread, step, x);
        }
      }
  }

  /** In every run, of the times Send was called with a packet, each ended with the packet accepted, or with an error or
      no connection, or has it still in a thread's hands: a sender that had to wait loses nothing. And iSendMutex is
      free exactly while nobody holds it. */
  lemma {:induction false} NoneLost(threads: nat, steps: seq<Step>, x: Packet)
    ensures var s := RunFrom(InitState(threads), steps);
            && s.called[x] == multiset(s.accepted)[x] + s.refused[x] + Hands(s.threads, x)
            && s.mutex + Holders(s.threads) == 1
    decreases |steps|
  {
    if steps == [] {
      NobodyIn(InitState(threads).threads, x);
    } else {
      var init := steps[..|steps| - 1];
      NoneLost(threads, init, x);
      Reachable(threads, init);
      NextConserves(RunFrom(InitState(threads), init), steps[|steps| - 1], x);
    }
  }

  // ---- A blocked sender is woken ----

  function Timers(steps: seq<Step>): nat {
    if steps == [] then 0 else Timers(steps[..|steps| - 1]) + if steps[|steps| - 1].Timer? then 1 else 0
  }

  predicate IsBlocked(s: State, i: nat) {
    i < |s.threads| && s.threads[i].Blocked?
  }

  /** The thread is blocked at the start, at the end and everywhere between. */
  predicate StaysBlocked(s: State, steps: seq<Step>, i: nat) {
    IsBlocked(RunFrom(s, steps), i) && (steps == [] || StaysBlocked(s, steps[..|steps| - 1], i))
  }

  lemma StepWhileBlocked(s: State, step: Step, i: nat)
    requires Inv(s) && IsBlocked(s, i) && IsBlocked(Next(s, step), i)
    ensures s.signal == 1 ==> Next(s, step).signal == 1
    ensures s.signal != 1 ==> var u := Next(s, step);
      u.signal == 1 || (u.sendReq && u.timeout == s.timeout + if step.Timer? then TIMER_INTERVAL else 0)
  {
  }

  lemma {:induction false} WaitIsTimed(s: State, steps: seq<Step>, i: nat)
    requires Inv(s) && StaysBlocked(s, steps, i)
    ensures var u := RunFrom(s, steps);
            u.signal == 1 || (u.sendReq && u.timeout == s.timeout + TIMER_INTERVAL * Timers(steps))
    decreases |steps|
  {
    if steps != [] {
      var init := steps[..|steps| - 1];
      WaitIsTimed(s, init, i);
      RunKeeps(s, init);
      StepWhileBlocked(RunFrom(s, init), steps[|steps| - 1], i);
    }
  }

  /** A blocked thread keeps its packet. */
  lemma {:induction false} SamePacket(s: State, steps: seq<Step>, i: nat)
    requires StaysBlocked(s, steps, i)
    ensures IsBlocked(s, i) && RunFrom(s, steps).threads[i] == s.threads[i]
    decreases |steps|
  {
    if steps != [] {
      SamePacket(s, steps[..|steps| - 1], i);
      BlockedStays(RunFrom(s, steps[..|steps| - 1]), steps[|steps| - 1], i);
    }
  }

  lemma BlockedStays(s: State, step: Step, i: nat)
    requires IsBlocked(s, i) && IsBlocked(Next(s, step), i)
    ensures Next(s, step).threads[i] == s.threads[i]
  {
  }

  /** Whatever the other threads and the interrupt handler do, a sender that is still blocked after three timer ticks
      has been signalled: it can go on, uses the signal up, and tries the packet again that it was blocked with. */
  lemma WokenWithinThreeTicks(s: State, steps: seq<Step>, i: nat)
    requires Inv(s) && StaysBlocked(s, steps, i) && Timers(steps) >= 3
    ensures IsBlocked(s, i)
    ensures var u := RunFrom(s, steps);
            var v := Next(u, TakeSignal(i));
            var w := Next(v, Release(i));
            && u.signal == 1 && v.signal == 0
            && i < |w.threads| && w.threads[i] == Adding(s.threads[i].packet) && w.mutex == 1
  {
    WaitIsTimed(s, steps, i);
    RunKeeps(s, steps);
    SamePacket(s, steps, i);
    TriesAgain(RunFrom(s, steps), i);
  }

  lemma TriesAgain(s: State, i: nat)
    requires Inv(s) && IsBlocked(s, i) && s.signal == 1
    ensures var v := Next(s, TakeSignal(i));
            var w := Next(v, Release(i));
            v.signal == 0 && i < |w.threads| && w.threads[i] == Adding(s.threads[i].packet) && w.mutex == 1
  {
    assert Holds(s.threads[i]);
  }

  /** A sender that finds the queue full and gets iSendMutex blocks, announced, exactly if the queue is full then too;
      otherwise it gives the mutex back and tries again. */
  lemma WaitsIff(s: State, i: nat, p: Packet, status: Status)
    requires Inv(s) && i < |s.threads| && s.threads[i] == AtMutex(p) && s.mutex == 1
    ensures var u := Next(Next(s, TakeMutex(i)), Recheck(i));
            && i < |u.threads| && (|s.queue| == MAX_REQ_CNT <==> u.threads[i] == Blocked(p) && u.sendReq)
            && (|s.queue| < MAX_REQ_CNT ==> Next(u, Release(i)) == s.(threads := s.threads[i := Adding(p)]))
  {
    var u := Next(Next(s, TakeMutex(i)), Recheck(i));
    assert u.threads == s.threads[i := u.threads[i]];
    assert s.threads[i := Releasing(p)][i := Adding(p)] == s.threads[i := Adding(p)];
  }

  /** The handler signals the waiting thread whether or not it made room; there is room for it exactly when at least
      one packet got sent. */
  lemma SignalMeansRoomIff(s: State, sent: nat)
    requires Inv(s) && s.sendReq
    ensures Handled(s, sent).signal == 1 && !Handled(s, sent).sendReq
    ensures |Handled(s, sent).queue| < MAX_REQ_CNT <==> sent > 0
  {
  }

  // ---- When the timer calls the handler ----

  /** How many ticks packets have waited for, since the queue was empty last, an interrupt came, or the third tick
      called the handler. */
  function Waited(threads: nat, steps: seq<Step>): (n: nat)
    ensures n <= 2
    decreases |steps|
  {
    if steps == [] then 0 else
      var init := steps[..|steps| - 1];
      var n := Waited(threads, init);
      if RunFrom(InitState(threads), init).queue == [] then 0 else
        match steps[|steps| - 1]
        case TxInterrupt(_) => 0
        case Timer(_) => if n == 2 then 0 else n + 1
        case _ => n
  }

  lemma TimeoutKept(s: State, i: nat, step: Step)
    requires i < |s.threads|
    ensures ThreadStep(s, i, step).timeout == s.timeout || s.queue == []
    ensures s.queue == [] && ThreadStep(s, i, step).queue != [] ==> ThreadStep(s, i, step).timeout == 0
  {
    match s.threads[i]
    case Away =>
    case Adding(p) =>
    case AtMutex(p) =>
    case Rechecking(p) =>
    case Blocked(p) =>
    case Releasing(p) =>
  }

  lemma {:induction false} TimeoutIsWaited(threads: nat, steps: seq<Step>)
    ensures var s := RunFrom(InitState(threads), steps);
            s.queue != [] ==> s.timeout == TIMER_INTERVAL * Waited(threads, steps)
    decreases |steps|
  {
    if steps != [] {
      var init := steps[..|steps| - 1];
      TimeoutIsWaited(threads, init);
      var s := RunFrom(InitState(threads), init);
      match steps[|steps| - 1]
      case TxInterrupt(_) =>
      case Timer(_) =>
      case step => if step.thread < |s.threads| { TimeoutKept(s, step.thread, step); }
    }
  }

  /** In every run a tick calls the handler exactly if it is the third that packets have waited for; another one changes
      nothing else. */
  lemma TimerHandlesIff(threads: nat, steps: seq<Step>, sent: nat)
    ensures var s := RunFrom(InitState(threads), steps);
            var u := Next(s, Timer(sent));
            if s.queue != [] && Waited(threads, steps) == 2 then u == Handled(s, sent)
            else u == s.(timeout := u.timeout)
  {
    TimeoutIsWaited(threads, steps);
  }
}
