/** When the packet queue drains. */
module TxProgress {
  import opened TxEngine
  import opened TxRuns

  function Times(step: Step, n: nat): seq<Step> {
    if n == 0 then [] else [step] + Times(step, n - 1)
  }

  function Passes(n: nat): seq<Step> {
    if n == 0 then [] else [LoadHead, TakeOff] + Passes(n - 1)
  }

  lemma {:induction false} RunJoin(w: World, a: seq<Step>, b: seq<Step>)
    ensures RunFrom(w, a + b) == RunFrom(RunFrom(w, a), b)
    decreases |b|
  {
    if b == [] {
      assert a + b == a;
    } else {
      RunJoin(w, a, b[..|b| - 1]);
      assert (a + b)[..|a + b| - 1] == a + b[..|b| - 1];
    }
  }

  lemma RunOne(w: World, step: Step, rest: seq<Step>)
    ensures RunFrom(w, [step] + rest) == RunFrom(Next(w, step), rest)
  {
    RunJoin(w, [step], rest);
    assert [step][..0] == [];
  }

  /** The effect of a full pass. */
  function Pass(w: World): World {
    Next(Next(w, LoadHead), TakeOff)
  }

  function RepeatPass(w: World, n: nat): World
    decreases n
  {
    if n == 0 then w else RepeatPass(Pass(w), n - 1)
  }

  function Repeat(w: World, step: Step, n: nat): World
    decreases n
  {
    if n == 0 then w else Repeat(Next(w, step), step, n - 1)
  }

  lemma {:induction false} RepeatIsRun(w: World, step: Step, n: nat)
    ensures RunFrom(w, Times(step, n)) == Repeat(w, step, n)
    decreases n
  {
    if n != 0 {
      RunOne(w, step, Times(step, n - 1));
      RepeatIsRun(Next(w, step), step, n - 1);
    }
  }

  lemma {:induction false} RepeatPassIsRun(w: World, n: nat)
    ensures RunFrom(w, Passes(n)) == RepeatPass(w, n)
    decreases n
  {
    if n != 0 {
      RunPass(w, Passes(n - 1));
      RepeatPassIsRun(Pass(w), n - 1);
    }
  }

  lemma RunPass(w: World, rest: seq<Step>)
    ensures RunFrom(w, [LoadHead, TakeOff] + rest) == RunFrom(Pass(w), rest)
  {
    assert [LoadHead, TakeOff] + rest == [LoadHead] + ([TakeOff] + rest);
    RunOne(w, LoadHead, [TakeOff] + rest);
    RunOne(Next(w, LoadHead), TakeOff, rest);
  }

  lemma OnePass(w: World)
    requires !w.loaded
    ensures Inv(w) ==> Inv(Pass(w))
    ensures !Pass(w).loaded
    ensures if HeadFits(w) then Pass(w).queue == w.queue[1..] && Pass(w).ring == Load(w.ring, w.queue[0])
                             && Pass(w).inFlight == w.inFlight + [w.queue[0]] && Pass(w).done == w.done
            else Pass(w) == w
  {
    if Inv(w) {
      NextKeeps(w, LoadHead);
      NextKeeps(Next(w, LoadHead), TakeOff);
    }
  }

  lemma {:induction false} RepeatPassLast(w: World, n: nat)
    requires 0 < n
    ensures RepeatPass(w, n) == Pass(RepeatPass(w, n - 1))
    decreases n
  {
    if n > 1 {
      RepeatPassLast(Pass(w), n - 1);
    }
  }

  /** A whole call of HandleTxReqs, which loads the packets that fit one after the other, is a run of that many passes:
      what holds in every run holds after it. */
  lemma {:induction false} CallIsPasses(w: World, n: nat)
    requires Inv(w) && !w.loaded && Fits(w.ring, w.queue, n)
    ensures var v := RepeatPass(w, n);
            Inv(v) && !v.loaded && v.queue == w.queue[n..] && Loaded(w.ring, v.ring, w.queue, n)
    decreases n
  {
    if n != 0 {
      ImageMonotone(w.queue, n - 1, n);
      CallIsPasses(w, n - 1);
      var u := RepeatPass(w, n - 1);
      OneMoreLoaded(w.ring, u.ring, w.queue, n - 1);
      assert u.queue[0] == w.queue[n - 1];
      OnePass(u);
      RepeatPassLast(w, n);
    }
  }

  /** A whole call of HandleTxIntr is a run of passes, as many as there are descriptors in flight or more. */
  lemma {:induction false} CallIsReclaims(w: World, n: nat)
    requires !w.loaded && (w.ring.numInTx <= n || !CanReclaim(w.ring))
    ensures var v := Repeat(w, ReclaimOne, n);
            v.ring == ReclaimAll(w.ring) && v.queue == w.queue && !v.loaded
    decreases n
  {
    if n != 0 {
      CallIsReclaims(Next(w, ReclaimOne), n - 1);
    }
  }

  // ---- When the queue drains ----

  /** A packet that can never be sent stays in the queue, and everything behind it too, whatever the threads and the
      hardware do. */
  lemma {:induction false} UnsendableStays(w: World, steps: seq<Step>, f: Frame)
    requires f in Waiting(w) && !Sendable(f)
    ensures f in Waiting(RunFrom(w, steps))
    decreases |steps|
  {
    if steps != [] {
      var init := steps[..|steps| - 1];
      UnsendableStays(w, init, f);
      UnsendableStaysOneStep(RunFrom(w, init), steps[|steps| - 1], f);
    }
  }

  /** Only a packet that can be sent is ever loaded. */
  lemma HeadIsSendable(w: World)
    requires HeadFits(w)
    ensures Sendable(w.queue[0])
  {
  }

  lemma UnsendableStaysOneStep(w: World, step: Step, f: Frame)
    requires f in Waiting(w) && !Sendable(f)
    ensures f in Waiting(Next(w, step))
  {
    match step
    case Enqueue(g) =>
      if w.loaded && w.queue != [] {
        var k :| 1 <= k < |w.queue| && w.queue[k] == f;
        assert (w.queue + [g])[1..][k - 1] == f;
      }
    case LoadHead =>
      if HeadFits(w) {
        HeadIsSendable(w);
        assert w.queue == [w.queue[0]] + w.queue[1..];
      }
    case TakeOff =>
    case ReclaimOne =>
    case Send(_) =>
  }

  /** The hardware finishes what is ready, the thread reclaims it and loads what it can, up to so many each. */
  function Round(each: nat): seq<Step> {
    [TakeOff] + (Times(Send(0), each) + (Times(ReclaimOne, each) + Passes(each)))
  }

  /** The same steps again and again. */
  function Again(steps: seq<Step>, n: nat): seq<Step> {
    if n == 0 then [] else steps + Again(steps, n - 1)
  }

  function RepeatRun(w: World, steps: seq<Step>, n: nat): World
    decreases n
  {
    if n == 0 then w else RepeatRun(RunFrom(w, steps), steps, n - 1)
  }

  lemma {:induction false} AgainIsRun(w: World, steps: seq<Step>, n: nat)
    ensures RunFrom(w, Again(steps, n)) == RepeatRun(w, steps, n)
    decreases n
  {
    if n != 0 {
      RunJoin(w, steps, Again(steps, n - 1));
      AgainIsRun(RunFrom(w, steps), steps, n - 1);
    }
  }

  lemma SendOne(w: World)
    requires Inv(w)
    ensures var v := Next(w, Send(0));
            && Inv(v) && v.inFlight == w.inFlight && v.queue == w.queue && v.loaded == w.loaded
            && v.done == if w.done < |w.inFlight| then w.done + 1 else w.done
  {
    NextKeeps(w, Send(0));
    ReadyIsUnfinished(w.ring, w.done);
  }

  lemma {:induction false} AllSent(w: World, n: nat)
    requires Inv(w) && |w.inFlight| <= w.done + n
    ensures var v := Repeat(w, Send(0), n);
            Inv(v) && v.done == |v.inFlight| && v.queue == w.queue && v.loaded == w.loaded
    decreases n
  {
    if n != 0 {
      SendOne(w);
      AllSent(Next(w, Send(0)), n - 1);
    }
  }

  lemma ReclaimNext(w: World)
    requires Inv(w) && !w.loaded && w.done == |w.inFlight|
    ensures var v := Next(w, ReclaimOne);
            && Inv(v) && v.queue == w.queue && !v.loaded && v.done == |v.inFlight|
            && v.inFlight == if w.inFlight == [] then [] else w.inFlight[1..]
  {
    NextKeeps(w, ReclaimOne);
    ReclaimableIsFinished(w.ring, w.done);
  }

  lemma {:induction false} AllReclaimed(w: World, n: nat)
    requires Inv(w) && !w.loaded && w.done == |w.inFlight| <= n
    ensures var v := Repeat(w, ReclaimOne, n);
            Inv(v) && v.inFlight == [] && v.queue == w.queue && !v.loaded
    decreases n
  {
    if n != 0 {
      ReclaimNext(w);
      AllReclaimed(Next(w, ReclaimOne), n - 1);
    }
  }

  /** The second queue is what is left of the first after something has been taken from its front. */
  predicate Suffix(whole: seq<Frame>, left: seq<Frame>) {
    |left| <= |whole| && left == whole[|whole| - |left|..]
  }

  lemma {:induction false} PassesShrink(w: World, n: nat)
    requires Inv(w) && !w.loaded
    ensures var v := RepeatPass(w, n);
            && Inv(v) && Suffix(w.queue, v.queue) && !v.loaded
            && (0 < n && HeadFits(w) ==> |v.queue| < |w.queue|)
            && (w.queue == [] ==> v.inFlight == w.inFlight)
    decreases n
  {
    if n != 0 {
      OnePass(w);
      PassesShrink(Pass(w), n - 1);
    }
  }

  lemma Settled(w: World)
    requires Inv(w)
    ensures Inv(Next(w, TakeOff))
    ensures var v := Next(w, TakeOff);
            !v.loaded && v.queue == Waiting(w) && |v.inFlight| <= BD_MAX
  {
  }

  lemma HeadLoads(w: World)
    requires Inv(w) && w.inFlight == [] && w.queue != [] && Sendable(w.queue[0])
    ensures w.loaded || HeadFits(w)
  {
  }

  predicate AllSendable(q: seq<Frame>) {
    forall i :: 0 <= i < |q| ==> Sendable(q[i])
  }

  /** What a round amounts to. */
  function AfterRound(w: World, each: nat): World {
    RepeatPass(Repeat(Repeat(Next(w, TakeOff), Send(0), each), ReclaimOne, each), each)
  }

  lemma RoundIsRun(w: World, each: nat)
    ensures RunFrom(w, Round(each)) == AfterRound(w, each)
  {
    var a, b, c := Times(Send(0), each), Times(ReclaimOne, each), Passes(each);
    RunOne(w, TakeOff, a + (b + c));
    var w1 := Next(w, TakeOff);
    RunJoin(w1, a, b + c);
    RepeatIsRun(w1, Send(0), each);
    var w2 := Repeat(w1, Send(0), each);
    RunJoin(w2, b, c);
    RepeatIsRun(w2, ReclaimOne, each);
    RepeatPassIsRun(Repeat(w2, ReclaimOne, each), each);
  }

  /** One round leaves a suffix of what was waiting, shorter if its head was sendable. */
  lemma RoundShrinks(w: World, each: nat)
    requires Inv(w) && BD_MAX <= each
    ensures var v := AfterRound(w, each);
            && Inv(v) && Suffix(Waiting(w), Waiting(v))
            && (Waiting(w) == [] ==> v.inFlight == [])
            && (Waiting(w) != [] && Sendable(Waiting(w)[0]) ==> |Waiting(v)| < |Waiting(w)|)
  {
    Settled(w);
    var w1 := Next(w, TakeOff);
    AllSent(w1, each);
    var w2 := Repeat(w1, Send(0), each);
    AllReclaimed(w2, each);
    var w3 := Repeat(w2, ReclaimOne, each);
    PassesShrink(w3, each);
    if w3.queue != [] && Sendable(w3.queue[0]) {
      HeadLoads(w3);
    }
  }

  lemma SuffixSendable(q: seq<Frame>, r: seq<Frame>)
    requires AllSendable(q) && Suffix(q, r)
    ensures AllSendable(r)
  {
  }

  lemma {:induction false} RoundsDrain(w: World, each: nat, n: nat)
    requires Inv(w) && BD_MAX <= each && |Waiting(w)| < n && AllSendable(Waiting(w))
    ensures var v := RepeatRun(w, Round(each), n); Waiting(v) == [] && v.inFlight == []
    decreases n
  {
    RoundIsRun(w, each);
    RoundShrinks(w, each);
    var v := RunFrom(w, Round(each));
    SuffixSendable(Waiting(w), Waiting(v));
    if n != 1 {
      RoundsDrain(v, each, n - 1);
    } else {
      assert RepeatRun(v, Round(each), 0) == v;
    }
  }

  /** From any reachable state, one round for every waiting packet and one more leave nothing waiting and nothing in
      flight if and only if no waiting packet is empty or larger than the transmit memory. */
  lemma DrainsIff(w: World, each: nat)
    requires Inv(w) && BD_MAX <= each
    ensures var v := RunFrom(w, Again(Round(each), |Waiting(w)| + 1));
            Waiting(v) == [] && v.inFlight == [] <==> AllSendable(Waiting(w))
  {
    var n := |Waiting(w)| + 1;
    if i :| 0 <= i < |Waiting(w)| && !Sendable(Waiting(w)[i]) {
      UnsendableStays(w, Again(Round(each), n), Waiting(w)[i]);
    } else {
      RoundsDrain(w, each, n);
      AgainIsRun(w, Round(each), n);
    }
  }
}
