/** The packets the window of the smap-linux driver's transmit ring covers: those sent and not reclaimed. */
module LinuxTxSafety {
  import opened Bytes
  import opened TxFifo
  import opened TxEngine
  import opened Ring = LinuxTxRing

  /** The descriptors in use describe these packets, and the memory holds them. */
  predicate Safe(s: Tx, fl: seq<Frame>) {
    && |fl| == Active(s)
    && Holds(s.mem, s.ptrEnd, Image(fl))
    && forall k :: 0 <= k < |fl| ==> Located(s, fl, k)
  }

  predicate Located(s: Tx, fl: seq<Frame>, k: nat)
    requires k < |fl| <= MAX_ACTIVE
  {
    var bd := s.bds[Nth(s, k)];
    && |Image(fl[..k])| <= |Image(fl)| <= TX_BUFSIZE
    && bd.length == |fl[k].payload|
    && bd.pointer == TX_BASE + Advance(Back(s.ptrEnd, |Image(fl)|), |Image(fl[..k])|)
  }

  /** What the hardware reads through a descriptor. */
  function Reads(s: Tx, j: Index): seq<u8> {
    if s.bds[j].length <= TX_BUFSIZE then RingRead(s.mem, PlaceOf(s.bds[j]), s.bds[j].length) else []
  }

  /** What a packet sends is in the memory as long as the packet is in flight. */
  lemma SafeIsIntact(s: Tx, fl: seq<Frame>, k: nat)
    requires Safe(s, fl) && k < |fl|
    ensures Reads(s, Nth(s, k)) == fl[k].payload
  {
    assert Located(s, fl, k);
    var before, f, after := fl[..k], fl[k], fl[k + 1..];
    var p, slack := f.payload, Padded(f)[|f.payload|..];
    assert Image(fl) == Image(before) + p + (slack + Image(after)) by {
      assert fl == before + [f] + after;
      ImageJoin(before + [f], after);
      ImageJoin(before, [f]);
      ImageOne(f);
      assert Padded(f) == p + slack;
      Assoc(Image(before), p, slack);
      Assoc(Image(before) + p, slack, Image(after));
    }
    HeldPart(s.mem, s.ptrEnd, Image(before), p, slack + Image(after));
  }

  function SendFrame(s: Tx, f: Frame): Tx
    requires |f.payload| <= SMAP_TXMAXSIZE
  {
    Send(s, Padded(f), |f.payload|)
  }

    lemma SendSafe(s: Tx, fl: seq<Frame>, f: Frame)
    requires Safe(s, fl) && Active(s) < MAX_ACTIVE && |f.payload| <= SMAP_TXMAXSIZE
    requires |Image(fl)| + |Padded(f)| <= TX_BUFSIZE
    ensures Safe(SendFrame(s, f), fl + [f])
  {
    assert Image(fl + [f]) == Image(fl) + Padded(f) by {
      ImageJoin(fl, [f]);
      ImageOne(f);
    }
    WriteExtends(s.mem, s.ptrEnd, Image(fl), Padded(f));
    forall k | 0 <= k <= |fl|
      ensures Located(SendFrame(s, f), fl + [f], k)
    {
      SendLocated(s, fl, f, k);
    }
  }

  lemma SendLocated(s: Tx, fl: seq<Frame>, f: Frame, k: nat)
    requires Safe(s, fl) && Active(s) < MAX_ACTIVE && |f.payload| <= SMAP_TXMAXSIZE && k <= |fl|
    requires |Image(fl)| + |Padded(f)| <= TX_BUFSIZE && Image(fl + [f]) == Image(fl) + Padded(f)
    ensures Located(SendFrame(s, f), fl + [f], k)
  {
    BackOver(s.ptrEnd, |Image(fl)|, |Padded(f)|);
    assert (fl + [f])[..k] == fl[..k] && (k < |fl| ==> (fl + [f])[k] == fl[k]);
    if k < |fl| {
      assert Located(s, fl, k);
      assert Nth(s, k) != s.last;
    } else {
      assert Nth(s, k) == s.last;
      assert fl[..k] == fl;
    }
  }

  lemma BackOver(p: Place, m: nat, n: nat)
    requires m + n <= TX_BUFSIZE
    ensures Back(Advance(p, n), m + n) == Back(p, m) && Advance(Back(p, m), m) == p
  {
  }

  /** A send leaves everything in flight intact, the new packet included, exactly when it keeps to the space really free
      and finds a free descriptor. */
  lemma SendSafeIff(s: Tx, fl: seq<Frame>, f: Frame)
    requires Safe(s, fl) && |f.payload| <= SMAP_TXMAXSIZE
    ensures Safe(SendFrame(s, f), fl + [f]) <==>
            Active(s) < MAX_ACTIVE && |Image(fl)| + |Padded(f)| <= TX_BUFSIZE
  {
    if Active(s) < MAX_ACTIVE {
      if |Image(fl)| + |Padded(f)| <= TX_BUFSIZE {
        SendSafe(s, fl, f);
      } else {
        ImageJoin(fl, [f]);
        ImageOne(f);
      }
    }
  }

  /** While the window does not wrap and the ring is not full, the driver's test for room is enough for the memory: it
      is the free descriptor alone that counts. */
  lemma UnwrappedSendSafeIff(s: Tx, fl: seq<Frame>, f: Frame)
    requires Coupled(s) && Safe(s, fl) && InUse(s) < TX_BUFSIZE && s.ptrStart <= s.ptrEnd
    requires |f.payload| <= SMAP_TXMAXSIZE && HasRoom(s, |f.payload|)
    ensures Safe(SendFrame(s, f), fl + [f]) <==> Active(s) < MAX_ACTIVE
  {
    FreeSizeIff(s);
    UseIsImage(s, fl);
    SendSafeIff(s, fl, f);
  }

  function Sizes(fl: seq<Frame>): (n: seq<nat>)
    ensures |n| == |fl|
  {
    seq(|fl|, k requires 0 <= k < |fl| => |Padded(fl[k])|)
  }

  lemma {:induction false} SumOfSizes(fl: seq<Frame>)
    ensures Sum(Sizes(fl)) == |Image(fl)|
  {
    if fl != [] {
      SumOfSizes(fl[1..]);
      assert Sizes(fl)[1..] == Sizes(fl[1..]);
    }
  }

  /** The space the driver counts as used is what the packets in flight take up. */
  lemma UseIsImage(s: Tx, fl: seq<Frame>)
    requires Safe(s, fl)
    ensures InUse(s) == |Image(fl)|
  {
    assert Lengths(s) == Sizes(fl) by {
      forall k | 0 <= k < |fl|
        ensures Lengths(s)[k] == Sizes(fl)[k]
      {
        assert Located(s, fl, k);
      }
    }
    SumOfSizes(fl);
  }

  lemma ReclaimSafe(s: Tx, fl: seq<Frame>)
    requires Safe(s, fl) && s.first != s.last
    ensures Active(ReclaimOne(s)) == Active(s) - 1
    ensures Safe(ReclaimOne(s), fl[1..])
  {
    var f, rest, u := fl[0], fl[1..], ReclaimOne(s);
    assert fl == [f] + rest;
    ImageJoin([f], rest);
    ImageOne(f);
    assert Image(fl) == [] + Padded(f) + Image(rest);
    HeldPart(s.mem, s.ptrEnd, [], Padded(f), Image(rest));
    forall k | 0 <= k < |rest|
      ensures Located(u, rest, k)
    {
      ReclaimLocated(s, fl, k);
    }
  }

  lemma ReclaimLocated(s: Tx, fl: seq<Frame>, k: nat)
    requires Safe(s, fl) && s.first != s.last && k + 1 < |fl|
    ensures Located(ReclaimOne(s), fl[1..], k)
  {
    var f, rest := fl[0], fl[1..];
    assert Located(s, fl, k + 1);
    assert Nth(ReclaimOne(s), k) == Nth(s, k + 1) != s.first;
    assert fl == [f] + rest && fl[..k + 1] == [f] + rest[..k];
    ImageJoin([f], rest);
    ImageJoin([f], rest[..k]);
    ImageOne(f);
  }

  lemma {:induction false} ReclaimAllSafe(s: Tx, fl: seq<Frame>)
    requires Safe(s, fl)
    ensures var n := Active(s) - Active(Ring.ReclaimAll(s)); 0 <= n <= |fl| && Safe(Ring.ReclaimAll(s), fl[n..])
    decreases Active(s)
  {
    if Ring.CanReclaim(s) {
      ReclaimSafe(s, fl);
      ReclaimAllSafe(ReclaimOne(s), fl[1..]);
      var n := Active(s) - Active(Ring.ReclaimAll(s));
      assert fl[1..][n - 1..] == fl[n..];
    } else {
      assert fl[0..] == fl;
    }
  }

  lemma TxIntSafe(s: Tx, fl: seq<Frame>)
    requires Safe(s, fl)
    ensures var n := Active(s) - Active(Ring.ReclaimAll(s)); 0 <= n <= |fl| && Safe(TxInt(s), fl[n..])
  {
    ReclaimAllSafe(s, fl);
    var n := Active(s) - Active(Ring.ReclaimAll(s));
    forall k | 0 <= k < |fl[n..]|
      ensures Located(TxInt(s), fl[n..], k)
    {
      assert Located(Ring.ReclaimAll(s), fl[n..], k);
    }
  }

  lemma FinishSafe(s: Tx, fl: seq<Frame>, j: Index, status: bv16)
    requires Safe(s, fl)
    ensures Safe(Finish(s, j, status), fl)
  {
    forall k | 0 <= k < |fl|
      ensures Located(Finish(s, j, status), fl, k)
    {
      assert Located(s, fl, k);
    }
  }

  /** The packet an image was made for. */
  function FrameOf(image: seq<u8>, len: nat): (f: Frame)
    requires |image| == Round4(len)
    ensures |f.payload| == len && Padded(f) == image
  {
    var behind := image[len..] + [0, 0, 0];
    var f := Frame(image[..len], (behind[0], behind[1], behind[2]));
    assert Padded(f) == image;
    f
  }

  /** The packets in flight after a step. */
  function FlyingAfter(s: Tx, fl: seq<Frame>, step: Step): seq<Frame> {
    match step
    case Sends(image, len) => if Permitted(s, image, len) then fl + [FrameOf(image, len)] else fl
    case Reclaims =>
      var n := Active(s) - Active(Ring.ReclaimAll(s));
      if 0 <= n <= |fl| then fl[n..] else []
    case Finishes(_, _) => fl
  }

  /** The packets sent and not reclaimed. */
  function Flying(steps: seq<Step>): seq<Frame> {
    if steps == [] then [] else
      var init := steps[..|steps| - 1];
      FlyingAfter(Run(init), Flying(init), steps[|steps| - 1])
  }

  /** All along a run the ring holds what is in flight. */
  predicate AlwaysSafe(steps: seq<Step>) {
    Safe(Run(steps), Flying(steps)) && (steps == [] || AlwaysSafe(steps[..|steps| - 1]))
  }

  /** A permitted send finds a free descriptor and keeps to the space not in use. */
  predicate StepKept(s: Tx, step: Step) {
    step.Sends? && Permitted(s, step.image, step.len) ==>
      Active(s) < MAX_ACTIVE && InUse(s) + |step.image| <= TX_BUFSIZE
  }

  predicate AllKept(steps: seq<Step>) {
    steps == [] || (AllKept(steps[..|steps| - 1]) && StepKept(Run(steps[..|steps| - 1]), steps[|steps| - 1]))
  }

  lemma StepSafeIff(s: Tx, fl: seq<Frame>, step: Step)
    requires Safe(s, fl)
    ensures Safe(Next(s, step), FlyingAfter(s, fl, step)) <==> StepKept(s, step)
  {
    match step
    case Sends(image, len) =>
      if Permitted(s, image, len) {
        UseIsImage(s, fl);
        SendSafeIff(s, fl, FrameOf(image, len));
      }
    case Reclaims => TxIntSafe(s, fl);
    case Finishes(j, status) => FinishSafe(s, fl, j, status);
  }

  lemma NothingIsSafe()
    ensures Safe(InitTx(), [])
  {
  }

  /** All along a run the ring holds, byte for byte, exactly the packets sent and not reclaimed, if and only if every
      permitted send finds a free descriptor and keeps to the space really free; the driver checks neither. */
  lemma {:induction false} AlwaysSafeIff(steps: seq<Step>)
    ensures AlwaysSafe(steps) <==> AllKept(steps)
    decreases |steps|
  {
    if steps == [] {
      NothingIsSafe();
    } else {
      var init := steps[..|steps| - 1];
      AlwaysSafeIff(init);
      if AlwaysSafe(init) {
        StepSafeIff(Run(init), Flying(init), steps[|steps| - 1]);
      }
    }
  }

  /** The places of the driver's window, and those a send of n bytes writes. */
  predicate Taken(s: Tx, p: Place) {
    TX_BUFSIZE - Back(p, s.ptrEnd) <= InUse(s)
  }

  predicate Written(s: Tx, n: nat, p: Place) {
    Back(p, s.ptrEnd) < n
  }

  /** A send writes into the window exactly when it is longer than the space that leaves. */
  lemma OverwritesIff(s: Tx, n: nat)
    requires 0 < InUse(s) <= TX_BUFSIZE && 0 < n <= TX_BUFSIZE
    ensures (exists p: Place :: Taken(s, p) && Written(s, n, p)) <==> InUse(s) + n > TX_BUFSIZE
  {
    if InUse(s) + n > TX_BUFSIZE {
      var p := Advance(s.ptrEnd, n - 1);
      assert Taken(s, p) && Written(s, n, p);
    }
  }
}
