/** What the event thread does about the events it is woken for, whatever the other steps do meanwhile: a request and a
    TXDNV interrupt make it load what is queued, a STOP takes the driver out of service, and the third check without
    traffic makes it look at the link. */
module EventEffects {
  import opened Bytes
  import opened TxLengths
  import opened EventThread

  /** How many of the steps are the thread's. */
  function Threads(steps: seq<Step>): nat
    decreases |steps|
  {
    if steps == [] then 0 else Threads(steps[..|steps| - 1]) + if steps[|steps| - 1].Thread? then 1 else 0
  }

  lemma {:induction false} ThreadsIn(steps: seq<Step>)
    ensures NoThread(steps) <==> Threads(steps) == 0
    ensures steps != [] && steps[0].Thread? ==> Threads(steps) >= 1
    decreases |steps|
  {
    if steps != [] {
      var init, last := steps[..|steps| - 1], steps[|steps| - 1];
      ThreadsIn(init);
      assert steps == init + [last];
    }
  }

  // ---- What the others leave to the thread ----

  /** Only the thread itself moves on, and changes its variables, the state of the driver and what frames are in flight.
      The others may finish frames, and with a link they can only add to the queue. */
  predicate Left(s: State, u: State) {
    && u.at == s.at && u.ev == s.ev && u.reset == s.reset && u.counter == s.counter
    && u.initialized == s.initialized && u.link == s.link && u.notice == s.notice && u.timer == s.timer
    && u.tx.flying == s.tx.flying && s.tx.finished <= u.tx.finished && (s.link ==> s.tx.queued <= u.tx.queued)
  }

  lemma OtherLeaves(s: State, step: Step)
    requires !step.Thread?
    ensures Left(s, Next(s, step))
  {
    match step
    case Interrupt =>
    case Finish =>
    case GoIdle =>
    case Enqueue(_) =>
    case Xmit =>
    case Start =>
    case StopEvent =>
    case StopFlag =>
    case LinkTimer =>
  }

  lemma {:induction false} OthersLeave(s: State, steps: seq<Step>)
    requires NoThread(steps)
    ensures Left(s, Run(s, steps))
    decreases |steps|
  {
    if steps != [] {
      OthersLeave(s, steps[..|steps| - 1]);
      OtherLeaves(Run(s, steps[..|steps| - 1]), steps[|steps| - 1]);
    }
  }

  // ---- Packets are loaded ----

  /** A call of HandleTxReqs has moved all that fit from the front of the queue behind the frames in flight. */
  predicate HasLoaded(t: Tx, u: Tx) {
    var n := Moves(t.queued, |t.flying|, Used(t.flying));
    u.queued == t.queued[n..] && u.flying == t.flying + t.queued[..n]
  }

  /** From looking at the interrupt status the thread goes on to loading what is queued then, if it was woken by a
      request or TXDNV shows; in the latter case the finished frames have been reclaimed before. Otherwise it loads
      nothing. */
  lemma ServingLoads(s: State, found: Found, others: seq<Step>, next: Found)
    requires s.at.Serving? && s.initialized && NoThread(others)
    ensures var sent := s.ev.intr && found.txdnv;
            var v := Run(Advance(s, found), others);
            var u := Advance(v, next);
            && v.at.Loading? && u.at.Reclaiming?
            && v.tx.flying == s.tx.flying[if sent then s.tx.finished else 0..]
            && (s.link || others == [] ==> s.tx.queued <= v.tx.queued)
            && (if s.ev.xmit || sent then HasLoaded(v.tx, u.tx) else u.tx == v.tx)
  {
    OthersLeave(Advance(s, found), others);
  }

  /** Without other steps in between: what is queued as the status is read. */
  lemma TxdnvLoads(s: State, found: Found, next: Found)
    requires s.at.Serving? && s.initialized && s.ev.intr && found.txdnv
    ensures var flying := s.tx.flying[s.tx.finished..];
            var n := Moves(s.tx.queued, |flying|, Used(flying));
            var u := Advance(Advance(s, found), next);
            u.tx.queued == s.tx.queued[n..] && u.tx.flying == flying + s.tx.queued[..n]
  {
  }

  /** The packet at the front of the queue is among those moved exactly if it is not empty and there is a descriptor
      and enough bytes for it. */
  lemma HeadLoadedIff(t: Tx, u: Tx)
    requires HasLoaded(t, u) && t.queued != []
    ensures var fits := 0 < t.queued[0] && |t.flying| < 64 && Used(t.flying) + Round4(t.queued[0]) <= 4096;
            && (fits <==> u.flying != t.flying)
            && (fits ==> t.flying + [t.queued[0]] <= u.flying)
  {
  }

  /** On the thread's way from being woken to looking at the interrupt status, with the driver in service all along. */
  predicate OnTheWay(s: State, u: State, k: nat) {
    && u.at == (if k == 1 then Stopping else if k == 2 then Starting else Serving)
    && u.ev == s.events && u.initialized && u.link == s.link && u.notice == s.notice && u.counter == s.counter
    && u.tx.flying == s.tx.flying && s.tx.finished <= u.tx.finished && (s.link ==> s.tx.queued <= u.tx.queued)
  }

  lemma WayGoesOn(s: State, u: State, k: nat, found: Found)
    requires 1 <= k <= 2 && OnTheWay(s, u, k) && !s.events.stop
    ensures OnTheWay(s, Advance(u, found), k + 1)
  {
    if k == 1 {
      assert Advance(u, found) == StopHandled(u);
    } else {
      assert Advance(u, found) == StartHandled(u);
    }
  }

  lemma {:induction false} ReachesServing(s: State, steps: seq<Step>)
    requires s.at.Waiting? && s.initialized && Any(s.events) && !s.events.stop
    requires steps != [] && steps[0].Thread? && Threads(steps) <= 3
    ensures Threads(steps) >= 1 && OnTheWay(s, Run(s, steps), Threads(steps))
    decreases |steps|
  {
    var init, last := steps[..|steps| - 1], steps[|steps| - 1];
    if init == [] {
      assert Run(s, init) == s && Threads(init) == 0;
    } else {
      ReachesServing(s, init);
      if last.Thread? {
        WayGoesOn(s, Run(s, init), Threads(init), last.found);
      } else {
        OtherLeaves(Run(s, init), last);
      }
    }
  }

  /** In every interleaving: a thread woken in service with a request, or with an interrupt that turns out to be TXDNV,
      and no STOP, calls HandleTxReqs in its fifth step, and that moves all that fit. With a link, what was queued as
      it woke is at the front of what it finds. */
  lemma WokenLoads(s: State, steps: seq<Step>, found: Found, others: seq<Step>, next: Found)
    requires s.at.Waiting? && s.initialized && !s.events.stop
    requires steps != [] && steps[0].Thread? && Threads(steps) == 3 && NoThread(others)
    requires s.events.xmit || (s.events.intr && found.txdnv)
    ensures var r := Run(s, steps);
            var v := Run(Advance(r, found), others);
            var u := Advance(v, next);
            && r.at.Serving? && v.at.Loading? && u.at.Reclaiming? && HasLoaded(v.tx, u.tx)
            && r.tx.flying == s.tx.flying && s.tx.finished <= r.tx.finished
            && v.tx.flying == s.tx.flying[if s.events.intr && found.txdnv then r.tx.finished else 0..]
            && (s.link ==> s.tx.queued <= v.tx.queued)
  {
    ReachesServing(s, steps);
    ServingLoads(Run(s, steps), found, others, next);
  }

  /** So a packet at the front of the queue is in flight then, if it is not empty and there is a descriptor and enough
      bytes for it beside the frames not reclaimed. */
  lemma WokenLoadsHead(s: State, steps: seq<Step>, found: Found, others: seq<Step>, next: Found)
    requires s.at.Waiting? && s.initialized && !s.events.stop && s.link
    requires steps != [] && steps[0].Thread? && Threads(steps) == 3 && NoThread(others)
    requires s.events.xmit || (s.events.intr && found.txdnv)
    requires s.tx.queued != [] && 0 < s.tx.queued[0]
    ensures var v := Run(Advance(Run(s, steps), found), others);
            var u := Advance(v, next);
            |v.tx.flying| < 64 && Used(v.tx.flying) + Round4(s.tx.queued[0]) <= 4096 <==>
            v.tx.flying + [s.tx.queued[0]] <= u.tx.flying
  {
    WokenLoads(s, steps, found, others, next);
    var v := Run(Advance(Run(s, steps), found), others);
    HeadLoadedIff(v.tx, Advance(v, next).tx);
  }

  // ---- Interrupts ----

  lemma InterruptHolds(s: State, step: Step)
    requires !step.Thread? && !s.masks && !s.txdnv && s.events.intr
    ensures var u := Next(s, step); !u.masks && !u.txdnv && u.events.intr
  {
    match step
    case Interrupt =>
    case Finish =>
    case GoIdle =>
    case Enqueue(_) =>
    case Xmit =>
    case Start =>
    case StopEvent =>
    case StopFlag =>
    case LinkTimer =>
  }

  /** Once an interrupt has come, no other one can until the thread goes on, and it stays pending for the thread. */
  lemma {:induction false} InterruptOnce(s: State, steps: seq<Step>)
    requires (s.masks || s.txdnv) && NoThread(steps)
    ensures var u := Run(Next(s, Interrupt), steps); !u.masks && !u.txdnv && u.events.intr
    decreases |steps|
  {
    if steps != [] {
      InterruptOnce(s, steps[..|steps| - 1]);
      InterruptHolds(Run(Next(s, Interrupt), steps[..|steps| - 1]), steps[|steps| - 1]);
    }
  }

  // ---- A STOP is obeyed ----

  predicate OutOfService(u: State) {
    !u.initialized && !u.link && u.notice.Down? && !u.masks
  }

  /** On the thread's way through a STOP: it is out of service from the second step on. */
  predicate OnTheWayOut(s: State, u: State, k: nat) {
    && u.at == (match k case 1 => Stopping case 2 => Starting case 3 => Serving case _ => Waiting)
    && (k <= 3 ==> u.ev == s.events)
    && (if k == 1 then u.initialized else OutOfService(u))
  }

  lemma UnservedWaits(u: State, found: Found)
    requires u.at.Serving? && OutOfService(u)
    ensures Advance(u, found).at.Waiting? && OutOfService(Advance(u, found))
  {
  }

  lemma WayOutGoesOn(s: State, u: State, k: nat, found: Found)
    requires 1 <= k <= 3 && OnTheWayOut(s, u, k) && s.events.stop && (k >= 2 ==> !s.events.start)
    ensures OnTheWayOut(s, Advance(u, found), k + 1)
  {
    if k == 1 {
      assert Advance(u, found) == StopHandled(u);
    } else if k == 2 {
      assert Advance(u, found) == StartHandled(u);
    } else {
      UnservedWaits(u, found);
    }
  }

  lemma OtherLeavesOut(s: State, u: State, k: nat, step: Step)
    requires 1 <= k <= 4 && OnTheWayOut(s, u, k) && !step.Thread?
    ensures OnTheWayOut(s, Next(u, step), k)
  {
    match step
    case Interrupt =>
    case Finish =>
    case GoIdle =>
    case Enqueue(_) =>
    case Xmit =>
    case Start =>
    case StopEvent =>
    case StopFlag =>
    case LinkTimer =>
  }

  /** In every interleaving: a thread woken with a STOP takes the driver out of service in its second step, announces
      the link as lost and disables the interrupts of reception; unless a START came along it then blocks again. */
  lemma {:induction false} StopObeyed(s: State, steps: seq<Step>)
    requires s.at.Waiting? && s.initialized && s.events.stop
    requires steps != [] && steps[0].Thread? && Threads(steps) <= if s.events.start then 2 else 4
    ensures var k := Threads(steps);
            var u := Run(s, steps);
            && 1 <= k && OnTheWayOut(s, u, k)
            && (k >= 2 ==> !u.initialized && !u.link && u.notice.Down? && !u.masks)
            && (k == 4 ==> u.at.Waiting?)
    decreases |steps|
  {
    var init, last := steps[..|steps| - 1], steps[|steps| - 1];
    if init == [] {
      assert Run(s, init) == s && Threads(init) == 0;
    } else {
      StopObeyed(s, init);
      if last.Thread? {
        WayOutGoesOn(s, Run(s, init), Threads(init), last.found);
      } else {
        OtherLeavesOut(s, Run(s, init), Threads(init), last);
      }
    }
  }

  /** A failed START ends the thread, for good. */
  lemma {:induction false} FailedStartEnds(s: State, found: Found, steps: seq<Step>)
    requires s.at.StartingPhy? && PlaceFits(s) && PhyMay(s, found.end, found.link) && found.end.Failed?
    ensures var u := Run(Advance(s, found), steps); u.at.Ended? && !u.initialized
    decreases |steps|
  {
    if steps != [] {
      FailedStartEnds(s, found, steps[..|steps| - 1]);
      var u := Run(Advance(s, found), steps[..|steps| - 1]);
      if !steps[|steps| - 1].Thread? {
        OtherLeaves(u, steps[|steps| - 1]);
      }
    }
  }

  // ---- The link is checked ----

  /** On the thread's way from reading the status to the link check. */
  predicate OnTheWayToCheck(s: State, received: bool, u: State, k: nat) {
    && u.at == (match k case 0 => Loading case 1 => Reclaiming case 2 => Arming case _ => CheckingLink)
    && u.reset == received && u.ev.linkCheck == s.ev.linkCheck && u.counter == s.counter
    && u.initialized && u.link == s.link && u.notice == s.notice
  }

  lemma {:induction false} ReachesCheck(s: State, found: Found, steps: seq<Step>)
    requires s.at.Serving? && s.initialized && Threads(steps) <= 3
    ensures OnTheWayToCheck(s, s.ev.intr && found.received, Run(Advance(s, found), steps), Threads(steps))
    decreases |steps|
  {
    if steps != [] {
      var init, last := steps[..|steps| - 1], steps[|steps| - 1];
      ReachesCheck(s, found, init);
      if !last.Thread? {
        OtherLeaves(Run(Advance(s, found), init), last);
      }
    }
  }

  /** In every interleaving: a round of the thread that has received frames sets the counter back; one without that was
      woken by the timer counts it down, and if that leaves nothing looks at the PHY; and exactly if that has no link
      then, the link is given up, announced as lost, and the PHY set up anew. */
  lemma RoundChecksLink(s: State, found: Found, steps: seq<Step>, last: Found)
    requires s.at.Serving? && s.initialized && Threads(steps) == 3
    ensures var received := s.ev.intr && found.received;
            var checks := s.ev.linkCheck && !received;
            var u := Advance(Run(Advance(s, found), steps), last);
            && u.counter == (if received then 3 else if checks then s.counter - 1 else s.counter)
            && (checks && s.counter <= 1 && !last.up <==> u.at.RelinkingPhy?)
            && (u.at.RelinkingPhy? ==> !u.link && u.notice.Down?)
            && (!u.at.RelinkingPhy? ==> u.at.Waiting? && u.link == s.link && u.notice == s.notice)
  {
    ReachesCheck(s, found, steps);
  }

  /** The timer's checks since frames were received last, or since the thread began. */
  function Quiet(started: bool, steps: seq<Step>): nat
    decreases |steps|
  {
    if steps == [] then 0 else
      var init, last := steps[..|steps| - 1], steps[|steps| - 1];
      var s := Run(InitState(started), init);
      if !last.Thread? || !s.at.CheckingLink? then Quiet(started, init)
      else if s.reset then 0
      else Quiet(started, init) + if s.ev.linkCheck then 1 else 0
  }

  lemma WakingCounts(s: State, found: Found)
    requires s.at.Waiting? || s.at.Stopping? || s.at.Starting? || s.at.StartingPhy?
    ensures Advance(s, found).counter == s.counter
  {
    match s.at
    case Waiting =>
    case Stopping =>
    case Starting =>
    case StartingPhy =>
  }

  lemma ServingCounts(s: State, found: Found)
    requires s.at.Serving? || s.at.Loading? || s.at.Reclaiming? || s.at.Arming?
    ensures Advance(s, found).counter == s.counter
  {
    match s.at
    case Serving =>
    case Loading =>
    case Reclaiming =>
    case Arming =>
  }

  function Counted(s: State): int {
    if !s.at.CheckingLink? then s.counter else if s.reset then 3
    else if s.ev.linkCheck then s.counter - 1 else s.counter
  }

  lemma LinkingCounts(s: State, found: Found)
    requires s.at.CheckingLink? || s.at.RelinkingPhy? || s.at.Ended?
    ensures Advance(s, found).counter == Counted(s)
  {
    match s.at
    case CheckingLink =>
    case RelinkingPhy =>
    case Ended =>
  }

  lemma AdvanceCounts(s: State, found: Found)
    ensures Advance(s, found).counter == Counted(s)
  {
    match s.at
    case Waiting | Stopping | Starting | StartingPhy => WakingCounts(s, found);
    case Serving | Loading | Reclaiming | Arming => ServingCounts(s, found);
    case CheckingLink | RelinkingPhy | Ended => LinkingCounts(s, found);
  }

  /** So in every run the PHY is looked at by the third quiet check and by every one after it, until frames are
      received. */
  lemma {:induction false} CounterIsQuiet(started: bool, steps: seq<Step>)
    ensures Run(InitState(started), steps).counter == 3 - Quiet(started, steps)
    decreases |steps|
  {
    if steps != [] {
      CounterIsQuiet(started, steps[..|steps| - 1]);
      var s := Run(InitState(started), steps[..|steps| - 1]);
      match steps[|steps| - 1]
      case Thread(found) => AdvanceCounts(s, found);
      case other => OtherLeaves(s, other);
    }
  }

  lemma LinkLostIff(started: bool, steps: seq<Step>, found: Found)
    requires Run(InitState(started), steps).at.CheckingLink?
    ensures var s := Run(InitState(started), steps);
            var u := Advance(s, found);
            && (u.at.RelinkingPhy? <==> !s.reset && s.ev.linkCheck && Quiet(started, steps) >= 2 && !found.up)
            && (u.at.RelinkingPhy? ==> !u.link && u.notice.Down?)
  {
    CounterIsQuiet(started, steps);
  }

  /** A link that InitPHY finds again is announced, and the thread blocks. */
  lemma RelinkAnnouncedIff(s: State, found: Found)
    requires s.at.RelinkingPhy? && Inv(s) && PhyMay(s, found.end, found.link)
    ensures var u := Advance(s, found);
            && u.at.Waiting? && u.initialized
            && (u.notice.Up? <==> u.link) && (u.link <==> found.link) && (found.end.Linked? ==> u.link)
  {
  }
}
