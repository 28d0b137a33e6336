/** Two runs of the event thread that go wrong, step by step. */
module EventRuns {
  import opened TxLengths
  import opened EventThread

  /** Nothing received, no TXDNV, and a PHY with a link. */
  const QUIET := Found(false, false, true, Linked, true)

  /** One more step of a run. */
  lemma Go(first: State, steps: seq<Step>, s: State, step: Step, t: State) returns (more: seq<Step>)
    requires s == Run(first, steps) && t == Next(s, step)
    ensures more == steps + [step] && t == Run(first, more)
  {
    more := steps + [step];
    assert more[..|more| - 1] == steps;
  }

  // ---- Packets left behind ----

  /** Blocked, in service and with a link, with a packet waiting that nothing will wake the thread for. */
  predicate Stranded(s: State) {
    s.at.Waiting? && s.initialized && s.link && s.tx.queued != [] && !Any(s.events) && !WakeComing(s)
  }

  /** The length of a full-size frame: the transmit memory has room for two. */
  const FULL: nat := 1514

  /** While so many packets wait. */
  function Waits(at: Place, n: nat): State {
    InitState(true).(at := at, tx := Transmission(seq(n, _ => FULL), [], 0, false, false))
  }

  /** While one packet waits and two are in flight, so many of them finished. */
  function Flies(at: Place, finished: nat): State
    requires finished <= 2
  {
    InitState(true).(at := at, tx := Transmission([FULL], [FULL, FULL], finished, true, true))
  }

  /** While so many packets wait and have been sent for. */
  function Asked(n: nat): State {
    Waits(Waiting, n).(events := NO_EVENTS.(xmit := true))
  }

  /** The TCP/IP thread queues a packet and asks for its transmission. */
  lemma OneAsked(steps: seq<Step>, n: nat, s: State) returns (more: seq<Step>)
    requires Run(InitState(true), steps) == s && (s == Asked(n) || (n == 0 && s == InitState(true)))
    ensures Run(InitState(true), more) == Asked(n + 1)
  {
    var queued := s.(tx := Waits(Waiting, n + 1).tx, asking := true);
    assert Waits(Waiting, n).tx.queued + [FULL] == Waits(Waiting, n + 1).tx.queued;
    more := Go(InitState(true), steps, s, Enqueue(FULL), queued);
    more := Go(InitState(true), more, queued, Xmit, Asked(n + 1));
  }

  /** It does so three times. */
  lemma ThreeAsked() returns (steps: seq<Step>)
    ensures Run(InitState(true), steps) == Asked(3)
  {
    steps := OneAsked([], 0, InitState(true));
    steps := OneAsked(steps, 1, Asked(1));
    steps := OneAsked(steps, 2, Asked(2));
  }

  lemma ThreadAwake() returns (steps: seq<Step>)
    ensures Run(InitState(true), steps) == Waits(Loading, 3).(ev := NO_EVENTS.(xmit := true))
  {
    var first, ev := InitState(true), NO_EVENTS.(xmit := true);
    steps := ThreeAsked();
    steps := Go(first, steps, Asked(3), Thread(QUIET), Waits(Stopping, 3).(ev := ev));
    steps := Go(first, steps, Waits(Stopping, 3).(ev := ev), Thread(QUIET), Waits(Starting, 3).(ev := ev));
    steps := Go(first, steps, Waits(Starting, 3).(ev := ev), Thread(QUIET), Waits(Serving, 3).(ev := ev));
    steps := Go(first, steps, Waits(Serving, 3).(ev := ev), Thread(QUIET), Waits(Loading, 3).(ev := ev));
  }

  /** Two of them fit. */
  lemma TwoFit()
    ensures Load(Waits(Loading, 3).tx) == Flies(Reclaiming, 0).tx.(sending := false)
  {
    var waiting := seq(3, _ => FULL);
    assert waiting[2..] == waiting[1..][1..] == [FULL] && waiting[..2] == [FULL, FULL];
    assert Moves(waiting[1..][1..], 2, 3032) == 0;
    assert Moves(waiting[1..], 1, 1516) == 1;
  }

  /** Once two of them have been loaded. */
  function Loaded(at: Place): State {
    Flies(at, 0).(ev := NO_EVENTS.(xmit := true), tx := Flies(at, 0).tx.(sending := false))
  }

  lemma TwoLoaded() returns (steps: seq<Step>)
    ensures Run(InitState(true), steps) == Loaded(Reclaiming)
  {
    steps := ThreadAwake();
    TwoFit();
    steps := Go(InitState(true), steps, Waits(Loading, 3).(ev := NO_EVENTS.(xmit := true)), Thread(QUIET),
                Loaded(Reclaiming));
  }

  /** The thread has the hardware send these and blocks, with TXDNV enabled. */
  lemma TwoSent() returns (steps: seq<Step>)
    ensures Run(InitState(true), steps) == Flies(Waiting, 0).(ev := NO_EVENTS.(xmit := true), txdnv := true)
  {
    var first, ev := InitState(true), NO_EVENTS.(xmit := true);
    steps := TwoLoaded();
    steps := Go(first, steps, Loaded(Reclaiming), Thread(QUIET), Loaded(Arming));
    steps := Go(first, steps, Loaded(Arming), Thread(QUIET), Flies(CheckingLink, 0).(ev := ev, txdnv := true));
    steps := Go(first, steps, Flies(CheckingLink, 0).(ev := ev, txdnv := true), Thread(QUIET),
                Flies(Waiting, 0).(ev := ev, txdnv := true));
  }

  /** A frame is received, and the thread wakes for that. */
  lemma FrameReceived() returns (steps: seq<Step>)
    ensures Run(InitState(true), steps) == Flies(Serving, 0).(ev := NO_EVENTS.(intr := true), masks := false)
  {
    var first, ev := InitState(true), NO_EVENTS.(xmit := true);
    var intr := NO_EVENTS.(intr := true);
    steps := TwoSent();
    steps := Go(first, steps, Flies(Waiting, 0).(ev := ev, txdnv := true), Interrupt,
                Flies(Waiting, 0).(ev := ev, events := intr, masks := false));
    steps := Go(first, steps, Flies(Waiting, 0).(ev := ev, events := intr, masks := false), Thread(QUIET),
                Flies(Stopping, 0).(ev := intr, masks := false));
    steps := Go(first, steps, Flies(Stopping, 0).(ev := intr, masks := false), Thread(QUIET),
                Flies(Starting, 0).(ev := intr, masks := false));
    steps := Go(first, steps, Flies(Starting, 0).(ev := intr, masks := false), Thread(QUIET),
                Flies(Serving, 0).(ev := intr, masks := false));
  }

  /** While it handles the frame, with nothing to load as far as it knows, both packets go out. */
  lemma BothFinished() returns (steps: seq<Step>)
    ensures Run(InitState(true), steps) ==
            Flies(Reclaiming, 2).(ev := NO_EVENTS.(intr := true), masks := false, reset := true)
  {
    var first, intr := InitState(true), NO_EVENTS.(intr := true);
    steps := FrameReceived();
    steps := Go(first, steps, Flies(Serving, 0).(ev := intr, masks := false), Thread(QUIET.(received := true)),
                Flies(Loading, 0).(ev := intr, masks := false, reset := true));
    steps := Go(first, steps, Flies(Loading, 0).(ev := intr, masks := false, reset := true), Thread(QUIET),
                Flies(Reclaiming, 0).(ev := intr, masks := false, reset := true));
    steps := Go(first, steps, Flies(Reclaiming, 0).(ev := intr, masks := false, reset := true), Finish,
                Flies(Reclaiming, 1).(ev := intr, masks := false, reset := true));
    steps := Go(first, steps, Flies(Reclaiming, 1).(ev := intr, masks := false, reset := true), Finish,
                Flies(Reclaiming, 2).(ev := intr, masks := false, reset := true));
  }

  /** It reclaims them, so nothing is in flight as it arms the interrupts, and the third packet stays behind. */
  lemma PacketStranded()
    ensures exists steps :: Stranded(Run(InitState(true), steps))
  {
    var first := InitState(true);
    var gone := first.(ev := NO_EVENTS.(intr := true), reset := true,
                       tx := Transmission([FULL], [], 0, true, true));
    var steps := BothFinished();
    steps := Go(first, steps, Flies(Reclaiming, 2).(ev := gone.ev, masks := false, reset := true), Thread(QUIET),
                gone.(at := Arming, masks := false));
    steps := Go(first, steps, gone.(at := Arming, masks := false), Thread(QUIET), gone.(at := CheckingLink));
    steps := Go(first, steps, gone.(at := CheckingLink), Thread(QUIET), gone);
    assert Stranded(Run(first, steps));
  }

  // ---- A START lost ----

  /** The thread has nothing to do, and the driver is not in service. */
  predicate OutOfService(s: State) {
    s.at.Waiting? && !s.initialized && !Any(s.events)
  }

  function TurnedOff(at: Place): State {
    InitState(false).(at := at, notice := Down, timer := true, masks := false, ev := NO_EVENTS.(stop := true),
                      halting := true)
  }

  lemma StopHandledEarly() returns (steps: seq<Step>)
    ensures Run(InitState(true), steps) == TurnedOff(Starting)
  {
    var first, stop := InitState(true), NO_EVENTS.(stop := true);
    steps := Go(first, [], first, StopEvent, first.(halting := true, events := stop));
    steps := Go(first, steps, first.(halting := true, events := stop), Thread(QUIET),
                first.(halting := true, at := Stopping, ev := stop));
    steps := Go(first, steps, first.(halting := true, at := Stopping, ev := stop), Thread(QUIET), TurnedOff(Starting));
  }

  /** The thread is done with a STOP before SMAPStop sets its flag. */
  lemma FlagStaysBehind() returns (steps: seq<Step>)
    ensures Run(InitState(true), steps) == TurnedOff(Waiting).(halting := false, stopFlag := true)
  {
    var first := InitState(true);
    steps := StopHandledEarly();
    steps := Go(first, steps, TurnedOff(Starting), Thread(QUIET), TurnedOff(Serving));
    steps := Go(first, steps, TurnedOff(Serving), Thread(QUIET), TurnedOff(Waiting));
    steps := Go(first, steps, TurnedOff(Waiting), StopFlag, TurnedOff(Waiting).(halting := false, stopFlag := true));
  }

  predicate NoStop(steps: seq<Step>) {
    StopEvent !in steps && StopFlag !in steps
  }

  /** The flag that stayed behind stops the next START: that is used up, and the driver stays out of service. */
  lemma StartIsLost()
    ensures exists before, after :: OutOfService(Run(InitState(true), before + [Start] + after)) && NoStop(after)
  {
    var first, start := InitState(true), NO_EVENTS.(start := true);
    var late := TurnedOff(Waiting).(halting := false, stopFlag := true);
    var halted := QUIET.(end := Halted, link := false);
    var before := FlagStaysBehind();
    var steps := Go(first, before, late, Start, late.(events := start));
    var after := [Thread(QUIET), Thread(QUIET), Thread(QUIET), Thread(halted)];
    steps := Go(first, steps, late.(events := start), Thread(QUIET), late.(at := Stopping, ev := start));
    steps := Go(first, steps, late.(at := Stopping, ev := start), Thread(QUIET), late.(at := Starting, ev := start));
    steps := Go(first, steps, late.(at := Starting, ev := start), Thread(QUIET),
                late.(at := StartingPhy, ev := start, masks := true));
    steps := Go(first, steps, late.(at := StartingPhy, ev := start, masks := true), Thread(halted),
                late.(ev := start, masks := true, stopFlag := false));
    assert steps == before + [Start] + after;
    assert OutOfService(Run(first, before + [Start] + after)) && NoStop(after);
  }
}
