/** The smap driver's event thread, the interrupt callback, the calls of the TCP/IP thread and the transmitting hardware
    as a state machine: the steps below are the atomic pieces, and every interleaving of them is a run. What the
    interrupt status shows and how the PHY behaves is left open. */
module EventThread {
  import opened TxFifo
  import opened TxLengths

  /** The bits of the event flag. */
  datatype Events = Events(start: bool, stop: bool, intr: bool, xmit: bool, linkCheck: bool)
  const NO_EVENTS := Events(false, false, false, false, false)

  predicate Any(e: Events) {
    e.start || e.stop || e.intr || e.xmit || e.linkCheck
  }

  /** Where the thread is. */
  datatype Place =
    | Waiting        // blocked in WaitEventFlag
    | Stopping       // about to handle STOP
    | Starting       // about to handle START
    | StartingPhy    // in InitPHY, for START
    | Serving        // about to look at the interrupt status
    | Loading        // about to call HandleTxReqs
    | Reclaiming     // about to call HandleTxIntr
    | Arming         // about to enable interrupts
    | CheckingLink
    | RelinkingPhy   // in InitPHY, after the link was lost
    | Ended

  datatype Notice = None | Up | Down

  /** The lengths of the packets that wait in the queue and of the frames in flight, how many of these the hardware has
      finished, whether it has been told to send and is at it, and whether packetToSend is set. */
  datatype Transmission = Transmission(queued: seq<nat>, flying: seq<nat>, finished: nat, sending: bool, held: bool)
  type Tx = t: Transmission | t.finished <= |t.flying| witness Transmission([], [], 0, false, false)

  /** The thread's place and its variables EFBits and ResetCounterFlag, the event flag, the enabled interrupts (`masks`
      are those other than TXDNV), the driver's fields, the last notification posted, and what the TCP/IP thread is in
      the middle of: it has queued a packet and not asked for transmission yet, or has set STOP and not the stop
      flag. */
  datatype State = State(at: Place, ev: Events, reset: bool, events: Events, masks: bool, txdnv: bool,
                         initialized: bool, stopFlag: bool, link: bool, timer: bool, counter: int, notice: Notice,
                         asking: bool, halting: bool, tx: Tx)

  /** How a call of InitPHY ends. */
  datatype PhyEnd = Linked | Halted | Failed

  /** What the thread finds as it goes on: the interrupt status, the PHY, and how InitPHY ends; each matters in one
      place only. */
  datatype Found = Found(received: bool, txdnv: bool, up: bool, end: PhyEnd, link: bool)

  datatype Step =
    | Thread(found: Found)
    | Interrupt
    | Finish
    | GoIdle
    | Enqueue(length: nat)
    | Xmit
    | Start
    | StopEvent
    | StopFlag
    | LinkTimer

  /** After the initial start: with a link, or without when that failed. */
  function InitState(started: bool): State {
    State(Waiting, NO_EVENTS, false, NO_EVENTS, true, false, started, false, started, started, 3,
          if started then Up else None, false, false, Transmission([], [], 0, false, false))
  }

  /** What InitPHY promises: it ends with a link, or because it was told to stop, or leaves the link as it was. */
  predicate PhyMay(s: State, end: PhyEnd, link: bool) {
    match end
    case Linked => link
    case Halted => s.stopFlag
    case Failed => link == s.link
  }

  /** Whether something will wake the thread on account of packets: a request made or about to be made, or an
      interrupt enabled or pending. */
  predicate WakeComing(s: State) {
    s.asking || Signalled(s)
  }

  predicate Signalled(s: State) {
    s.txdnv || s.events.xmit || s.events.intr
  }

  // ---- What the steps do to packets and frames ----

  /** HandleTxReqs. It leaves packetToSend set when it stops at a packet that does not fit, cleared when it has moved
      some and stops for another reason. */
  function Load(t: Tx): Tx {
    var n := Moves(t.queued, |t.flying|, Used(t.flying));
    var rest := t.queued[n..];
    t.(queued := rest, flying := t.flying + t.queued[..n],
       held := if rest != [] && rest[0] != 0 then true else t.held && n == 0)
  }

  /** HandleTxIntr. */
  function Reclaim(t: Tx): Tx {
    t.(flying := t.flying[t.finished..], finished := 0)
  }

  function Finished(t: Tx): Tx {
    t.(finished := if t.sending && t.finished < |t.flying| then t.finished + 1 else t.finished)
  }

  /** With nothing ready the channel clears the bit it was started with. */
  function Idle(t: Tx): Tx {
    t.(sending := t.sending && t.finished < |t.flying|)
  }

  /** The packets from the first empty one on. */
  function FromEmpty(queued: seq<nat>): seq<nat> {
    if queued == [] || queued[0] == 0 then queued else FromEmpty(queued[1..])
  }

  /** ClearPacketQueue. */
  function Clear(t: Tx): Tx {
    t.(queued := if t.held then FromEmpty(t.queued) else t.queued, held := false)
  }

  // ---- The thread's own steps ----

  function Woken(s: State): State {
    var any := Any(s.events);
    s.(at := if any then Stopping else Waiting, ev := if any then s.events else s.ev, events := NO_EVENTS)
  }

  function StopHandled(s: State): State {
    var stop := s.ev.stop && s.initialized;
    s.(at := Starting, masks := s.masks && !stop, stopFlag := s.stopFlag && !stop, link := s.link && !stop,
       initialized := s.initialized && !stop, notice := if stop then Down else s.notice)
  }

  function StartHandled(s: State): State {
    var start := s.ev.start && !s.initialized;
    s.(at := if start then StartingPhy else Serving, masks := s.masks || start)
  }

  function Started(s: State, end: PhyEnd, link: bool): State {
    var failed, up := end.Failed?, !end.Failed? && !s.stopFlag;
    s.(at := if failed then Ended else if s.stopFlag then Waiting else Serving,
       link := link, stopFlag := s.stopFlag && failed, initialized := s.initialized || up,
       notice := if up then Up else s.notice, timer := s.timer || up)
  }

  function StatusRead(s: State, received: bool, txdnv: bool): State {
    var sent := s.initialized && s.ev.intr && txdnv;
    s.(at := if s.initialized then Loading else Waiting, ev := s.ev.(xmit := s.ev.xmit || sent),
       reset := s.ev.intr && received, tx := if sent then Reclaim(s.tx) else s.tx)
  }

  /** TXDNV is enabled, and the hardware told to send, only if there are frames in flight. */
  function Armed(s: State): State {
    var any := s.tx.flying != [];
    s.(at := CheckingLink, masks := true, txdnv := s.txdnv || any, tx := s.tx.(sending := s.tx.sending || any))
  }

  function LinkChecked(s: State, up: bool): State {
    var counter := if s.reset then 3 else if s.ev.linkCheck then s.counter - 1 else s.counter;
    var lost := !s.reset && s.ev.linkCheck && counter <= 0 && !up;
    s.(at := if lost then RelinkingPhy else Waiting, counter := counter, link := s.link && !lost,
       notice := if lost then Down else s.notice)
  }

  function Relinked(s: State, link: bool): State {
    s.(at := Waiting, link := link, notice := if link then Up else s.notice)
  }

  /** The thread goes on from where it is; InitPHY goes on until it ends. */
  function Advance(s: State, found: Found): State {
    match s.at
    case Waiting => Woken(s)
    case Stopping => StopHandled(s)
    case Starting => StartHandled(s)
    case StartingPhy => if PhyMay(s, found.end, found.link) then Started(s, found.end, found.link) else s
    case Serving => StatusRead(s, found.received, found.txdnv)
    case Loading => s.(at := Reclaiming, tx := if s.ev.xmit then Load(s.tx) else s.tx)
    case Reclaiming => s.(at := Arming, tx := Reclaim(s.tx))
    case Arming => Armed(s)
    case CheckingLink => LinkChecked(s, found.up)
    case RelinkingPhy => if PhyMay(s, found.end, found.link) then Relinked(s, found.link) else s
    case Ended => s
  }

  // ---- The others' steps ----

  /** The callback disables all interrupts, TXDNV included; only an enabled one can come. */
  function Interrupted(s: State): State {
    s.(masks := false, txdnv := false, events := s.events.(intr := s.events.intr || s.masks || s.txdnv))
  }

  function Queued(s: State, length: nat): State {
    s.(tx := s.tx.(queued := s.tx.queued + [length]), asking := true)
  }

  /** SMAPXmit, for a packet queued before. */
  function Requested(s: State): State {
    s.(asking := false, events := s.events.(xmit := s.events.xmit || (s.asking && s.link)),
       tx := if s.asking && !s.link then Clear(s.tx) else s.tx)
  }

  /** The effect of a step; one that is not enabled changes nothing. */
  function Next(s: State, step: Step): State {
    match step
    case Thread(found) => Advance(s, found)
    case Interrupt => Interrupted(s)
    case Finish => s.(tx := Finished(s.tx))
    case GoIdle => s.(tx := Idle(s.tx))
    case Enqueue(length) => Queued(s, length)
    case Xmit => Requested(s)
    case Start => s.(events := s.events.(start := true))
    case StopEvent => s.(events := s.events.(stop := true), halting := true)
    case StopFlag => s.(stopFlag := s.stopFlag || s.halting, halting := false)
    case LinkTimer => s.(events := s.events.(linkCheck := s.events.linkCheck || s.timer))
  }

  function Run(s: State, steps: seq<Step>): State {
    if steps == [] then s else Next(Run(s, steps[..|steps| - 1]), steps[|steps| - 1])
  }

  // ---- What holds in every run ----

  /** The thread has armed the interrupts for what is in flight and has not woken since. */
  predicate HasArmed(p: Place) {
    p.CheckingLink? || p.RelinkingPhy? || p.Waiting?
  }

  /** What is in flight has its interrupt enabled or pending, and the hardware is at what it has not finished. */
  predicate TxArmed(s: State) {
    HasArmed(s.at) && s.initialized && s.tx.flying != [] ==>
      && (s.txdnv || s.events.intr)
      && (s.tx.finished < |s.tx.flying| ==> s.tx.sending)
  }

  /** The other interrupts are enabled or pending too, and the timer runs. */
  predicate RxArmed(s: State) {
    s.initialized ==> s.timer && (HasArmed(s.at) ==> s.masks || s.events.intr)
  }

  predicate LinkAnnounced(s: State) {
    s.notice.Up? <==> s.initialized && s.link
  }

  /** In which places the driver is in service. */
  predicate InService(p: Place, initialized: bool, link: bool) {
    match p
    case StartingPhy => !initialized
    case RelinkingPhy => initialized && !link
    case Loading | Reclaiming | Arming | CheckingLink => initialized
    case _ => true
  }

  predicate PlaceFits(s: State) {
    InService(s.at, s.initialized, s.link)
  }

  predicate Inv(s: State) {
    TxArmed(s) && RxArmed(s) && LinkAnnounced(s) && PlaceFits(s)
  }

  /** A thread done with its packets has a wake-up coming for those still queued. */
  predicate QueueWatched(s: State) {
    HasArmed(s.at) && s.initialized && s.tx.queued != [] ==> WakeComing(s)
  }

  lemma WakingKeeps(s: State, found: Found)
    requires Inv(s) && (s.at.Waiting? || s.at.Stopping? || s.at.Starting?)
    ensures Inv(Advance(s, found))
    ensures QueueWatched(s) && !s.at.Arming? ==> QueueWatched(Advance(s, found))
  {
    match s.at
    case Waiting =>
    case Stopping =>
    case Starting =>
  }

  lemma ServingKeeps(s: State, found: Found)
    requires Inv(s) && (s.at.Serving? || s.at.Loading? || s.at.Reclaiming? || s.at.Arming?)
    ensures Inv(Advance(s, found))
    ensures QueueWatched(s) && !s.at.Arming? ==> QueueWatched(Advance(s, found))
  {
    match s.at
    case Serving =>
    case Loading =>
    case Reclaiming =>
    case Arming =>
  }

  lemma LinkingKeeps(s: State, found: Found)
    requires Inv(s) && (s.at.CheckingLink? || s.at.RelinkingPhy? || s.at.Ended?)
    ensures Inv(Advance(s, found))
    ensures QueueWatched(s) && !s.at.Arming? ==> QueueWatched(Advance(s, found))
  {
    match s.at
    case CheckingLink =>
    case RelinkingPhy =>
    case Ended =>
  }

  lemma StartingPhyKeeps(s: State, found: Found)
    requires Inv(s) && s.at.StartingPhy?
    ensures Inv(Advance(s, found)) && QueueWatched(Advance(s, found))
  {
    if PhyMay(s, found.end, found.link) {
      var u := Started(s, found.end, found.link);
      assert TxArmed(u) && RxArmed(u);
      assert PlaceFits(u);
      assert LinkAnnounced(u);
    }
  }

  lemma AdvanceKeeps(s: State, found: Found)
    requires Inv(s)
    ensures Inv(Advance(s, found))
    ensures QueueWatched(s) && !s.at.Arming? ==> QueueWatched(Advance(s, found))
  {
    match s.at
    case Waiting | Stopping | Starting => WakingKeeps(s, found);
    case StartingPhy => StartingPhyKeeps(s, found);
    case Serving | Loading | Reclaiming | Arming => ServingKeeps(s, found);
    case CheckingLink | RelinkingPhy | Ended => LinkingKeeps(s, found);
  }

  lemma OthersKeep(s: State, step: Step)
    requires Inv(s) && !step.Thread?
    ensures Inv(Next(s, step))
    ensures QueueWatched(s) && !step.Xmit? ==> QueueWatched(Next(s, step))
  {
    match step
    case Interrupt =>
    case Finish =>
    case GoIdle =>
    case Enqueue(_) =>
    case Xmit =>
    case Start =>
    case StopEvent =>
    case StopFlag =>
    case LinkTimer =>
  }

  /** Every step of the thread, of the TCP/IP thread, of interrupts and of the hardware keeps the invariant. */
  lemma NextKeeps(s: State, step: Step)
    requires Inv(s)
    ensures Inv(Next(s, step))
  {
    if step.Thread? {
      AdvanceKeeps(s, step.found);
    } else {
      OthersKeep(s, step);
    }
  }

  lemma {:induction false} RunKeeps(s: State, steps: seq<Step>)
    requires Inv(s)
    ensures Inv(Run(s, steps))
    decreases |steps|
  {
    if steps != [] {
      RunKeeps(s, steps[..|steps| - 1]);
      NextKeeps(Run(s, steps[..|steps| - 1]), steps[|steps| - 1]);
    }
  }

  /** In every interleaving: whenever the thread is blocked with frames in flight and the driver initialised, TXDNV is
      enabled or an interrupt is already pending, and the hardware is sending unless it has finished them all; the
      interrupts of reception are enabled or pending then in any case, and the timer runs; and the last notification
      was Up exactly when the driver is initialised and has a link. */
  lemma WaitingIsSafe(started: bool, steps: seq<Step>)
    ensures var s := Run(InitState(started), steps);
            && (s.at.Waiting? && s.initialized && s.tx.flying != [] ==>
                  && (s.txdnv || s.events.intr)
                  && (s.tx.finished < |s.tx.flying| ==> s.tx.sending))
            && (s.at.Waiting? && s.initialized ==> s.timer && (s.masks || s.events.intr))
            && (s.notice.Up? <==> s.initialized && s.link)
  {
    RunKeeps(InitState(started), steps);
  }

  // ---- Whether the thread is woken for what is queued ----

  /** Arming leaves the queue watched exactly when nothing is queued, or something is in flight, or a wake-up was
      coming anyway. */
  predicate ArmGuard(s: State) {
    s.tx.queued == [] || s.tx.flying != [] || WakeComing(s)
  }

  /** And a request without a link, when nothing is queued, or packetToSend is set and no packet is empty, or a wake-up
      is coming for another reason. */
  predicate XmitGuard(s: State) {
    s.tx.queued == [] || (s.tx.held && 0 !in s.tx.queued) || Signalled(s)
  }

  lemma {:induction false} FromEmptyIff(queued: seq<nat>)
    ensures FromEmpty(queued) == [] <==> 0 !in queued
  {
    if queued != [] && queued[0] != 0 {
      FromEmptyIff(queued[1..]);
      assert queued == [queued[0]] + queued[1..];
    }
  }

  lemma ArmWatchesIff(s: State, found: Found)
    requires s.at.Arming? && PlaceFits(s)
    ensures QueueWatched(Advance(s, found)) <==> ArmGuard(s)
  {
  }

  lemma XmitWatchesIff(s: State)
    requires s.asking && !s.link && HasArmed(s.at) && s.initialized
    ensures QueueWatched(Next(s, Xmit)) <==> XmitGuard(s)
  {
    FromEmptyIff(s.tx.queued);
  }

  /** The two steps that can leave packets unwatched, and when they do not. */
  predicate Guard(s: State, step: Step) {
    && (step.Thread? && s.at.Arming? ==> ArmGuard(s))
    && (step.Xmit? && s.asking && !s.link && HasArmed(s.at) && s.initialized ==> XmitGuard(s))
  }

  lemma StepWatchesIff(s: State, step: Step)
    requires QueueWatched(s) && Inv(s)
    ensures QueueWatched(Next(s, step)) <==> Guard(s, step)
  {
    if step.Thread? {
      if s.at.Arming? {
        ArmWatchesIff(s, step.found);
      } else {
        AdvanceKeeps(s, step.found);
      }
    } else if !step.Xmit? {
      OthersKeep(s, step);
    } else if s.asking && !s.link && HasArmed(s.at) && s.initialized {
      XmitWatchesIff(s);
    }
  }

  /** Every step of a run meets its guard. */
  predicate Guarded(s: State, steps: seq<Step>)
    decreases |steps|
  {
    steps == [] ||
    (Guarded(s, steps[..|steps| - 1]) && Guard(Run(s, steps[..|steps| - 1]), steps[|steps| - 1]))
  }

  /** The queue is watched all along a run. */
  predicate AlwaysWatched(s: State, steps: seq<Step>)
    decreases |steps|
  {
    QueueWatched(Run(s, steps)) && (steps == [] || AlwaysWatched(s, steps[..|steps| - 1]))
  }

  lemma {:induction false} RunWatchedIff(s: State, steps: seq<Step>)
    requires QueueWatched(s) && Inv(s)
    ensures AlwaysWatched(s, steps) <==> Guarded(s, steps)
    decreases |steps|
  {
    if steps != [] {
      var init := steps[..|steps| - 1];
      RunWatchedIff(s, init);
      RunKeeps(s, init);
      if AlwaysWatched(s, init) {
        StepWatchesIff(Run(s, init), steps[|steps| - 1]);
      }
    }
  }

  /** In every interleaving: a wake-up is coming whenever the thread is done with packets still queued, if and only if
      every arming and every request without a link meets its guard. */
  lemma WatchedIff(started: bool, steps: seq<Step>)
    ensures AlwaysWatched(InitState(started), steps) <==> Guarded(InitState(started), steps)
  {
    RunWatchedIff(InitState(started), steps);
  }

  /** So in a run whose steps meet their guards, a blocked thread in service with packets queued will be woken. */
  lemma GuardedIsWoken(started: bool, steps: seq<Step>)
    requires Guarded(InitState(started), steps)
    ensures var s := Run(InitState(started), steps);
            s.at.Waiting? && s.initialized && s.tx.queued != [] ==> WakeComing(s)
  {
    WatchedIff(started, steps);
  }

  /** A packet that can be sent is left by HandleTxReqs only if frames are in flight then: it takes HandleTxIntr to
      break the guard of arming. */
  lemma LoadLeavesBeside(t: Tx)
    ensures var u := Load(t);
            u.queued != [] && 0 < u.queued[0] <= TX_BUFSIZE ==> u.flying != []
  {
    StopsBeside(t.queued, |t.flying|, Used(t.flying));
  }

  // ---- Whether a START is obeyed ----

  /** Among these steps a stop flag is set: by the second half of an SMAPStop begun before or among them. */
  predicate StopCompletes(begun: bool, steps: seq<Step>)
    decreases |steps|
  {
    steps != [] &&
    (StopCompletes(begun, steps[..|steps| - 1]) ||
     (steps[|steps| - 1].StopFlag? && (begun || StopEvent in steps)))
  }

  predicate NoThread(steps: seq<Step>) {
    forall i :: 0 <= i < |steps| ==> !steps[i].Thread?
  }

  lemma FlagsKept(s: State, step: Step)
    requires !step.Thread? && !step.StopFlag? && !step.StopEvent?
    ensures var u := Next(s, step);
            u.at == s.at && u.initialized == s.initialized && u.stopFlag == s.stopFlag && u.halting == s.halting
  {
    match step
    case Interrupt =>
    case Finish =>
    case GoIdle =>
    case Enqueue(_) =>
    case Xmit =>
    case Start =>
    case LinkTimer =>
  }

  lemma {:induction false} FlagWhileStarting(s: State, steps: seq<Step>)
    requires NoThread(steps)
    ensures var u := Run(s, steps);
            && u.at == s.at && u.initialized == s.initialized
            && (u.stopFlag <==> s.stopFlag || StopCompletes(s.halting, steps))
            && (u.halting ==> s.halting || StopEvent in steps)
            && ((s.halting || StopEvent in steps) && !StopCompletes(s.halting, steps) ==> u.halting)
    decreases |steps|
  {
    if steps != [] {
      var init, last := steps[..|steps| - 1], steps[|steps| - 1];
      FlagWhileStarting(s, init);
      assert steps == init + [last];
      if !last.StopFlag? && !last.StopEvent? {
        FlagsKept(Run(s, init), last);
      }
    }
  }

  lemma StartTaken(s: State, taken: Found)
    requires s.at.Starting? && s.ev.start && !s.initialized
    ensures var u := Advance(s, taken);
            u.at.StartingPhy? && !u.initialized && u.stopFlag == s.stopFlag && u.halting == s.halting
  {
  }

  lemma PhyIsUp(s: State, found: Found)
    requires s.at.StartingPhy? && !s.initialized && PhyMay(s, found.end, found.link) && !found.end.Failed?
    ensures var u := Advance(s, found);
            && u.initialized == !s.stopFlag && !u.stopFlag
            && (if u.initialized then u.at.Serving? && u.link && u.notice.Up? && u.timer else u.at.Waiting?)
  {
  }

  /** A START is obeyed exactly when the stop flag is clear as it is taken and no SMAPStop sets it until the PHY is set
      up, whatever else happens meanwhile: then the driver is in service, with a link that is announced and the timer
      running, and the thread goes on; otherwise it blocks. */
  lemma StartObeyedIff(s: State, taken: Found, steps: seq<Step>, found: Found)
    requires s.at.Starting? && s.ev.start && !s.initialized && NoThread(steps)
    requires PhyMay(Run(Advance(s, taken), steps), found.end, found.link) && !found.end.Failed?
    ensures var u := Advance(Run(Advance(s, taken), steps), found);
            && (u.initialized <==> !s.stopFlag && !StopCompletes(s.halting, steps))
            && (if u.initialized then u.at.Serving? && u.link && u.notice.Up? && u.timer else u.at.Waiting?)
            && !u.stopFlag
  {
    StartTaken(s, taken);
    FlagWhileStarting(Advance(s, taken), steps);
    PhyIsUp(Run(Advance(s, taken), steps), found);
  }
}
