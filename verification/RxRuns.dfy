/** Every interleaving of the hardware's and the driver's steps on the receive ring. */
module RxRuns {
  import opened Bytes
  import opened TxEngine
  import opened RxEngine

  /** A frame the driver has taken, and what became of it. */
  datatype Taken = Taken(frame: Arrival, fate: Fate)

  function Frames(log: seq<Taken>): seq<Arrival> {
    seq(|log|, i requires 0 <= i < |log| => log[i].frame)
  }

  /** What has been handed up. */
  function Handed(log: seq<Taken>): seq<seq<u8>> {
    if log == [] then [] else
      var last := log[|log| - 1];
      Handed(log[..|log| - 1]) + if last.fate == Delivered then [last.frame.image] else []
  }

  function CountOf(log: seq<Taken>, fate: Fate): nat {
    if log == [] then 0 else CountOf(log[..|log| - 1], fate) + if log[|log| - 1].fate == fate then 1 else 0
  }

  /** The set bits of all bad status words. */
  function BadBits(log: seq<Taken>): nat {
    if log == [] then 0 else
      var last := log[|log| - 1];
      BadBits(log[..|log| - 1]) + if last.fate == Dropped then BitCount(last.frame.status) else 0
  }

  /** The ring, the hardware's own descriptor index, and for bookkeeping every frame that ever arrived, those not taken
      yet, and those taken. */
  datatype World = World(ring: RxRing, hwIndex: Index, arrived: seq<Arrival>, pending: seq<Arrival>, log: seq<Taken>)

  datatype Step =
    | Store(fill: Fill)            // the hardware stores a frame in its next descriptor, if that is empty
    | Announce                     // and, then or later, counts it
    | TakeOne(haveBuffer: bool)    // one pass of HandleRxIntr, with or without a buffer to be had

  function InitWorld(): World {
    World(InitRx(), 0, [], [], [])
  }

  function Next(w: World, step: Step): World {
    match step
    case Store(f) => if Empty(w.ring.bds[w.hwIndex]) && Respects(w.ring, w.pending, f) then Stored(w, f) else w
    case Announce => if w.ring.frameCnt < |w.pending| then w.(ring := w.ring.(frameCnt := w.ring.frameCnt + 1)) else w
    case TakeOne(haveBuffer) => if CanTake(w.ring) then TookOne(w, haveBuffer) else w
  }

  function Stored(w: World, f: Fill): World {
    var u := Filled(w.ring, w.hwIndex, f);
    var frame := FrameAt(u, w.hwIndex);
    w.(ring := u, hwIndex := NextIndex(w.hwIndex), arrived := w.arrived + [frame], pending := w.pending + [frame])
  }

  function TookOne(w: World, haveBuffer: bool): World
    requires CanTake(w.ring)
  {
    var frame := FrameAt(w.ring, Slot(w.ring.bdIndex, 0));
    w.(ring := Take(w.ring, haveBuffer), pending := if w.pending == [] then [] else w.pending[1..],
       log := w.log + [Taken(frame, FateOf(frame.status, haveBuffer))])
  }

  function Run(steps: seq<Step>): World {
    if steps == [] then InitWorld() else Next(Run(steps[..|steps| - 1]), steps[|steps| - 1])
  }

  /** A call of HandleRxIntr: so many passes, with or without a buffer each. */
  function TakeEach(w: World, haveBuffer: seq<bool>): World {
    if haveBuffer == [] then w
    else Next(TakeEach(w, haveBuffer[..|haveBuffer| - 1]), TakeOne(haveBuffer[|haveBuffer| - 1]))
  }

  predicate Counts(st: RxStats, log: seq<Taken>) {
    && st.dropped == Wrap32(CountOf(log, Dropped))
    && st.allocFail == Wrap16(CountOf(log, NoBuffer))
    && st.errors == Wrap32(BadBits(log))
  }

  predicate Inv(w: World) {
    && Pending(w.ring, w.pending)
    && w.hwIndex == Slot(w.ring.bdIndex, |w.pending|)
    && w.arrived == Frames(w.log) + w.pending
    && Counts(w.ring.stats, w.log)
  }

  lemma DroppedCounted(st: RxStats, log: seq<Taken>, t: Taken)
    requires Counts(st, log) && t.fate == Dropped
    ensures Counts(CountBad(st, t.frame.status), log + [t])
  {
    CountsGrow(log, t);
    assert Wrap32(st.dropped + 1) == Wrap32(CountOf(log + [t], Dropped)) by {
      Wrap32Again(CountOf(log, Dropped), 1);
    }
    assert Wrap32(st.errors + BitCount(t.frame.status)) == Wrap32(BadBits(log + [t])) by {
      Wrap32Again(BadBits(log), BitCount(t.frame.status));
    }
  }

  lemma OneMoreCounted(st: RxStats, log: seq<Taken>, t: Taken)
    requires Counts(st, log)
    ensures Counts(CountFate(st, t.frame.status, t.fate), log + [t])
  {
    match t.fate
    case Dropped => DroppedCounted(st, log, t);
    case NoBuffer => NoBufferCounted(st, log, t);
    case Delivered => CountsGrow(log, t);
  }

  lemma NoBufferCounted(st: RxStats, log: seq<Taken>, t: Taken)
    requires Counts(st, log) && t.fate == NoBuffer
    ensures Counts(st.(allocFail := Wrap16(st.allocFail + 1)), log + [t])
  {
  }

  lemma CountsGrow(log: seq<Taken>, t: Taken)
    ensures forall fate :: CountOf(log + [t], fate) == CountOf(log, fate) + if t.fate == fate then 1 else 0
    ensures BadBits(log + [t]) == BadBits(log) + if t.fate == Dropped then BitCount(t.frame.status) else 0
    ensures Handed(log + [t]) == Handed(log) + if t.fate == Delivered then [t.frame.image] else []
  {
  }

  lemma NextKeeps(w: World, step: Step)
    requires Inv(w)
    ensures Inv(Next(w, step))
  {
    match step
    case Store(f) =>
      if Empty(w.ring.bds[w.hwIndex]) && Respects(w.ring, w.pending, f) {
        StoreKeeps(w, f);
      }
    case Announce =>
    case TakeOne(haveBuffer) =>
      if CanTake(w.ring) {
        TakeOneKeeps(w, haveBuffer);
      }
  }

  lemma StoreKeeps(w: World, f: Fill)
    requires Inv(w) && Empty(w.ring.bds[w.hwIndex]) && Respects(w.ring, w.pending, f)
    ensures Inv(Stored(w, f))
  {
    EmptyMeansFree(w.ring, w.pending);
    FillKeeps(w.ring, w.pending, f);
    SlotNext(w.ring.bdIndex, |w.pending|);
  }

  lemma TakeOneKeeps(w: World, haveBuffer: bool)
    requires Inv(w) && CanTake(w.ring)
    ensures Inv(TookOne(w, haveBuffer))
  {
    TakeKeeps(w.ring, w.pending, haveBuffer);
    SlotShift(w.ring.bdIndex, 1, |w.pending| - 1);
    var t := Taken(w.pending[0], FateOf(w.pending[0].status, haveBuffer));
    TakeHistory(w.log, w.pending, t);
    OneMoreCounted(w.ring.stats, w.log, t);
  }

  lemma TakeHistory(log: seq<Taken>, pending: seq<Arrival>, t: Taken)
    requires pending != [] && t.frame == pending[0]
    ensures Frames(log + [t]) + pending[1..] == Frames(log) + pending
  {
  }

  lemma {:induction false} Reachable(steps: seq<Step>)
    ensures Inv(Run(steps))
    decreases |steps|
  {
    if steps != [] {
      Reachable(steps[..|steps| - 1]);
      NextKeeps(Run(steps[..|steps| - 1]), steps[|steps| - 1]);
    } else {
      assert BD_RX_EMPTY & BD_RX_EMPTY != 0;
    }
  }

  /** What a call takes: the oldest frames, each with its fate. */
  function LogOf(pending: seq<Arrival>, haveBuffer: seq<bool>): (log: seq<Taken>)
    requires |haveBuffer| <= |pending|
    ensures |log| == |haveBuffer|
  {
    if haveBuffer == [] then [] else
      var n := |haveBuffer| - 1;
      LogOf(pending, haveBuffer[..n]) + [Taken(pending[n], FateOf(pending[n].status, haveBuffer[n]))]
  }

  /** What deserves to be handed up: the frames without any of the error bits 0x027F for which there is a buffer. */
  function Deserving(pending: seq<Arrival>, haveBuffer: seq<bool>): seq<seq<u8>>
    requires |haveBuffer| <= |pending|
  {
    if haveBuffer == [] then [] else
      var n := |haveBuffer| - 1;
      Deserving(pending, haveBuffer[..n]) +
      if haveBuffer[n] && pending[n].status & 0x027F == 0 then [pending[n].image] else []
  }

  /** Which fate each frame meets. */
  predicate Deserved(t: Taken, haveBuffer: bool) {
    && (t.fate == Dropped <==> t.frame.status & 0x027F != 0)
    && (t.fate == Delivered <==> haveBuffer && t.frame.status & 0x027F == 0)
    && (t.fate == NoBuffer <==> !haveBuffer && t.frame.status & 0x027F == 0)
  }

  lemma FateDeserved(frame: Arrival, haveBuffer: bool)
    ensures Deserved(Taken(frame, FateOf(frame.status, haveBuffer)), haveBuffer)
  {
  }

  /** These are those frames, each with the fate it deserves. */
  lemma {:induction false} LogOfFrames(pending: seq<Arrival>, haveBuffer: seq<bool>)
    requires |haveBuffer| <= |pending|
    ensures Frames(LogOf(pending, haveBuffer)) == pending[..|haveBuffer|]
    ensures forall k :: 0 <= k < |haveBuffer| ==> Deserved(LogOf(pending, haveBuffer)[k], haveBuffer[k])
    decreases |haveBuffer|
  {
    if haveBuffer != [] {
      var n := |haveBuffer| - 1;
      LogOfFrames(pending, haveBuffer[..n]);
      FateDeserved(pending[n], haveBuffer[n]);
    }
  }

  /** So exactly those deserving it are handed up. */
  lemma {:induction false} HandedDeserve(pending: seq<Arrival>, haveBuffer: seq<bool>)
    requires |haveBuffer| <= |pending|
    ensures Handed(LogOf(pending, haveBuffer)) == Deserving(pending, haveBuffer)
    decreases |haveBuffer|
  {
    if haveBuffer != [] {
      var n := |haveBuffer| - 1;
      HandedDeserve(pending, haveBuffer[..n]);
      FateDeserved(pending[n], haveBuffer[n]);
      HandedLast(LogOf(pending, haveBuffer[..n]), Taken(pending[n], FateOf(pending[n].status, haveBuffer[n])));
    }
  }

  lemma HandedLast(log: seq<Taken>, t: Taken)
    ensures Handed(log + [t]) == Handed(log) + if t.fate == Delivered then [t.frame.image] else []
  {
    assert (log + [t])[..|log|] == log;
  }

  /** The counters after these frames. */
  function CountAll(st: RxStats, log: seq<Taken>): RxStats {
    if log == [] then st else
      var last := log[|log| - 1];
      CountFate(CountAll(st, log[..|log| - 1]), last.frame.status, last.fate)
  }

  lemma NextTakes(w: World, haveBuffer: bool)
    requires Pending(w.ring, w.pending) && 0 < w.ring.frameCnt
    ensures w.pending != [] && CanTake(w.ring)
    ensures var u, t := Next(w, TakeOne(haveBuffer)), Taken(w.pending[0], FateOf(w.pending[0].status, haveBuffer));
            && Pending(u.ring, u.pending) && u.pending == w.pending[1..] && u.log == w.log + [t]
            && u.ring.frameCnt == w.ring.frameCnt - 1 && u.ring.stats == CountFate(w.ring.stats, t.frame.status, t.fate)
  {
    assert Empty(w.ring.bds[Slot(w.ring.bdIndex, 0)]) <==> |w.pending| <= 0;
    TakeKeeps(w.ring, w.pending, haveBuffer);
  }

  lemma NextHands(w: World, haveBuffer: bool)
    requires Pending(w.ring, w.pending) && CanTake(w.ring)
    ensures w.pending != []
    ensures var u, fate := Next(w, TakeOne(haveBuffer)), FateOf(w.pending[0].status, haveBuffer);
            && u.ring == Take(w.ring, haveBuffer) && u.pending == w.pending[1..]
            && Handed(u.log) == Handed(w.log) + if fate == Delivered then [w.pending[0].image] else []
  {
    NextTakes(w, haveBuffer);
    CountsGrow(w.log, Taken(w.pending[0], FateOf(w.pending[0].status, haveBuffer)));
  }

  /** The second state is the first after a call: the oldest frames have been taken, in order, and counted. */
  predicate Took(w: World, u: World, haveBuffer: seq<bool>) {
    && Pending(u.ring, u.pending) && |haveBuffer| <= |w.pending|
    && u.ring.frameCnt == w.ring.frameCnt - |haveBuffer|
    && u.pending == w.pending[|haveBuffer|..]
    && u.log == w.log + LogOf(w.pending, haveBuffer)
    && u.ring.stats == CountAll(w.ring.stats, LogOf(w.pending, haveBuffer))
  }

  lemma TookNothing(w: World)
    requires Pending(w.ring, w.pending)
    ensures Took(w, w, [])
  {
    assert w.pending[0..] == w.pending && w.log + [] == w.log;
  }

  lemma {:induction false} TakeEachTakes(w: World, haveBuffer: seq<bool>)
    requires Pending(w.ring, w.pending) && |haveBuffer| <= w.ring.frameCnt
    ensures Took(w, TakeEach(w, haveBuffer), haveBuffer)
    decreases |haveBuffer|
  {
    if haveBuffer == [] {
      TookNothing(w);
    } else {
      var init, last := haveBuffer[..|haveBuffer| - 1], haveBuffer[|haveBuffer| - 1];
      assert haveBuffer == init + [last];
      TakeEachTakes(w, init);
      TakeOneMore(w, TakeEach(w, init), init, last, haveBuffer);
    }
  }

  lemma TakeOneMore(w: World, u: World, haveBuffer: seq<bool>, next: bool, more: seq<bool>)
    requires Took(w, u, haveBuffer) && |haveBuffer| < w.ring.frameCnt && more == haveBuffer + [next]
    ensures Took(w, Next(u, TakeOne(next)), more)
  {
    NextTakes(u, next);
    LogGrows(w.pending, haveBuffer, next, w.ring.stats);
  }

  lemma LogGrows(pending: seq<Arrival>, haveBuffer: seq<bool>, next: bool, st: RxStats)
    requires |haveBuffer| < |pending|
    ensures var frame, log := pending[|haveBuffer|], LogOf(pending, haveBuffer);
            var t, more := Taken(frame, FateOf(frame.status, next)), LogOf(pending, haveBuffer + [next]);
            more == log + [t] && CountAll(st, more) == CountFate(CountAll(st, log), t.frame.status, t.fate)
  {
    assert (haveBuffer + [next])[..|haveBuffer|] == haveBuffer;
    var log := LogOf(pending, haveBuffer);
    assert LogOf(pending, haveBuffer + [next])[..|log|] == log;
  }

  lemma {:induction false} HandedJoin(a: seq<Taken>, b: seq<Taken>)
    ensures Handed(a + b) == Handed(a) + Handed(b)
    decreases |b|
  {
    if b == [] {
      assert a + b == a;
    } else {
      var init := b[..|b| - 1];
      HandedJoin(a, init);
      assert (a + b)[..|a + b| - 1] == a + init;
    }
  }

  /** A call takes exactly the frames announced, in the order they came; it drops exactly those with an error bit set,
      and hands up exactly those without for which there is a buffer. */
  lemma CallTakes(w: World, haveBuffer: seq<bool>)
    requires Pending(w.ring, w.pending) && |haveBuffer| == w.ring.frameCnt
    ensures var u, n, log := TakeEach(w, haveBuffer), w.ring.frameCnt, LogOf(w.pending, haveBuffer);
            && u.log == w.log + log && Frames(log) == w.pending[..n] && u.pending == w.pending[n..]
            && (forall k :: 0 <= k < n ==> Deserved(log[k], haveBuffer[k]))
            && Handed(u.log) == Handed(w.log) + Deserving(w.pending, haveBuffer)
            && u.ring.frameCnt == 0 && u.ring.stats == CountAll(w.ring.stats, log)
  {
    TakeEachTakes(w, haveBuffer);
    LogOfFrames(w.pending, haveBuffer);
    HandedDeserve(w.pending, haveBuffer);
    HandedJoin(w.log, LogOf(w.pending, haveBuffer));
  }

  function Takes(haveBuffer: seq<bool>): seq<Step> {
    seq(|haveBuffer|, i requires 0 <= i < |haveBuffer| => TakeOne(haveBuffer[i]))
  }

  /** So a call continues a run by another. */
  lemma {:induction false} TakeEachIsRun(steps: seq<Step>, haveBuffer: seq<bool>)
    ensures TakeEach(Run(steps), haveBuffer) == Run(steps + Takes(haveBuffer))
    decreases |haveBuffer|
  {
    if haveBuffer == [] {
      assert steps + Takes(haveBuffer) == steps;
    } else {
      var init, last := haveBuffer[..|haveBuffer| - 1], haveBuffer[|haveBuffer| - 1];
      TakeEachIsRun(steps, init);
      assert steps + Takes(haveBuffer) == (steps + Takes(init)) + [TakeOne(last)];
      RunLast(steps + Takes(init), TakeOne(last));
    }
  }

  lemma RunLast(steps: seq<Step>, step: Step)
    ensures Run(steps + [step]) == Next(Run(steps), step)
  {
    assert (steps + [step])[..|steps|] == steps;
  }

  lemma {:induction false} EveryFate(log: seq<Taken>)
    ensures |log| == CountOf(log, Delivered) + CountOf(log, Dropped) + CountOf(log, NoBuffer)
    ensures |Handed(log)| == CountOf(log, Delivered)
  {
    if log != [] {
      EveryFate(log[..|log| - 1]);
    }
  }

  /** In every reachable state the frames taken are the first that arrived, in order, and those pending the rest; every
      frame taken was handed up, dropped or lost for want of a buffer, and the counters say how many and how many bits
      were set in the status words of those dropped. */
  lemma ReceiveConserves(steps: seq<Step>)
    ensures var w := Run(steps);
            && w.arrived == Frames(w.log) + w.pending
            && |w.log| == |Handed(w.log)| + CountOf(w.log, Dropped) + CountOf(w.log, NoBuffer)
            && w.ring.stats.dropped == Wrap32(CountOf(w.log, Dropped))
            && w.ring.stats.allocFail == Wrap16(CountOf(w.log, NoBuffer))
            && w.ring.stats.errors == Wrap32(BadBits(w.log))
  {
    Reachable(steps);
    EveryFate(Run(steps).log);
  }

  // ---- The counters for the kinds of error ----

  predicate Has(status: bv16, mask: bv16) {
    status & mask != 0
  }

  /** How many of the frames taken have one of these bits set in their status. */
  function CountWith(log: seq<Taken>, mask: bv16): nat {
    if log == [] then 0 else
      CountWith(log[..|log| - 1], mask) + if Has(log[|log| - 1].frame.status, mask) then 1 else 0
  }

  predicate Classified(st: RxStats, log: seq<Taken>) {
    && st.dropped == Wrap32(CountWith(log, 0x027F))
    && st.overrun == Wrap16(CountWith(log, 0x0200))
    && st.badLength == Wrap16(CountWith(log, 0x0067))
    && st.badFCS == Wrap16(CountWith(log, 0x0008))
    && st.badAlignment == Wrap16(CountWith(log, 0x0010))
  }

  /** Every kind of error is one for which frames are dropped. */
  lemma KindsAreBad(status: bv16)
    requires !Has(status, 0x027F)
    ensures !Has(status, 0x0200) && !Has(status, 0x0067) && !Has(status, 0x0008) && !Has(status, 0x0010)
  {
  }

  lemma WithGrows(log: seq<Taken>, t: Taken, mask: bv16)
    ensures CountWith(log + [t], mask) == CountWith(log, mask) + if Has(t.frame.status, mask) then 1 else 0
  {
    var more := log + [t];
    assert more[..|more| - 1] == log;
  }

  lemma KindCounted(counter: nat, log: seq<Taken>, t: Taken, mask: bv16)
    requires counter == Wrap16(CountWith(log, mask))
    ensures (if Has(t.frame.status, mask) then Wrap16(counter + 1) else counter) == Wrap16(CountWith(log + [t], mask))
  {
    WithGrows(log, t, mask);
    Wrap16Again(CountWith(log, mask), 1);
  }

  lemma GoodClassified(st: RxStats, log: seq<Taken>, t: Taken)
    requires Classified(st, log) && !Has(t.frame.status, 0x027F)
    ensures Classified(st, log + [t])
  {
    KindsAreBad(t.frame.status);
    WithGrows(log, t, 0x027F);
    KindCounted(st.overrun, log, t, 0x0200);
    KindCounted(st.badLength, log, t, 0x0067);
    KindCounted(st.badFCS, log, t, 0x0008);
    KindCounted(st.badAlignment, log, t, 0x0010);
  }

  lemma SizesClassified(st: RxStats, log: seq<Taken>, t: Taken)
    requires Classified(st, log)
    ensures CountBad(st, t.frame.status).overrun == Wrap16(CountWith(log + [t], 0x0200))
    ensures CountBad(st, t.frame.status).badLength == Wrap16(CountWith(log + [t], 0x0067))
  {
    KindCounted(st.overrun, log, t, 0x0200);
    KindCounted(st.badLength, log, t, 0x0067);
  }

  lemma ContentsClassified(st: RxStats, log: seq<Taken>, t: Taken)
    requires Classified(st, log)
    ensures CountBad(st, t.frame.status).badFCS == Wrap16(CountWith(log + [t], 0x0008))
    ensures CountBad(st, t.frame.status).badAlignment == Wrap16(CountWith(log + [t], 0x0010))
  {
    KindCounted(st.badFCS, log, t, 0x0008);
    KindCounted(st.badAlignment, log, t, 0x0010);
  }

  lemma BadClassified(st: RxStats, log: seq<Taken>, t: Taken)
    requires Classified(st, log) && Has(t.frame.status, 0x027F)
    ensures Classified(CountBad(st, t.frame.status), log + [t])
  {
    SizesClassified(st, log, t);
    ContentsClassified(st, log, t);
    WithGrows(log, t, 0x027F);
    Wrap32Again(CountWith(log, 0x027F), 1);
  }

  lemma OneMoreClassified(st: RxStats, log: seq<Taken>, t: Taken, haveBuffer: bool)
    requires Classified(st, log) && t.fate == FateOf(t.frame.status, haveBuffer)
    ensures Classified(CountFate(st, t.frame.status, t.fate), log + [t])
  {
    if Has(t.frame.status, 0x027F) {
      BadClassified(st, log, t);
    } else {
      GoodClassified(st, log, t);
      GoodClassified(st.(allocFail := Wrap16(st.allocFail + 1)), log, t);
    }
  }

  /** In every run each counter is the number of frames taken, as far as it can count, whose status has the bits for
      it: overruns, bad lengths, bad checksums, bad alignments, and all of them. */
  lemma {:induction false} AlwaysClassified(steps: seq<Step>)
    ensures Classified(Run(steps).ring.stats, Run(steps).log)
    decreases |steps|
  {
    if steps != [] {
      var w, step := Run(steps[..|steps| - 1]), steps[|steps| - 1];
      AlwaysClassified(steps[..|steps| - 1]);
      if step.TakeOne? && CanTake(w.ring) {
        var frame := FrameAt(w.ring, Slot(w.ring.bdIndex, 0));
        OneMoreClassified(w.ring.stats, w.log, Taken(frame, FateOf(frame.status, step.haveBuffer)), step.haveBuffer);
      }
    }
  }
}
