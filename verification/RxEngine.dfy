/** The receive path of the smap driver: the hardware fills descriptors and announces frames; the driver thread takes
    them in order. */
module RxEngine {
  import opened Bytes
  import opened TxEngine

  const RX_BASE := 0x4000
  const RX_BUFSIZE := 0x4000
  const BD_RX_EMPTY: bv16 := 0x8000
  const BD_RX_OVERRUN: bv16 := 0x0200
  const BD_RX_ALIGNERR: bv16 := 0x0010
  const BD_RX_BADFCS: bv16 := 0x0008
  const BD_RX_BADLENGTH: bv16 := 0x0067  // INRANGE | OUTRANGE | FRMTOOLONG | SHORTEVNT | RUNTFRM
  const BD_RX_BAD: bv16 := 0x027F        // those, and OVERRUN, BADFCS and ALIGNERR

  type RxMemory = m: seq<u8> | |m| == RX_BUFSIZE witness seq(RX_BUFSIZE, _ => 0)
  type RxPlace = p: int | 0 <= p < RX_BUFSIZE

  function RxAdvance(p: RxPlace, n: nat): RxPlace
    requires n <= RX_BUFSIZE
  {
    if p + n < RX_BUFSIZE then p + n else p + n - RX_BUFSIZE
  }

  /** What the FIFO's data port yields from a place on. */
  function RxRead(mem: RxMemory, at: RxPlace, n: nat): (r: seq<u8>)
    requires n <= RX_BUFSIZE
    ensures |r| == n
    ensures forall i {:trigger r[i]} :: 0 <= i < n ==> r[i] == mem[RxAdvance(at, i)]
  {
    seq(n, i requires 0 <= i < n => mem[RxAdvance(at, i)])
  }

  lemma RxReadParts(mem: RxMemory, at: RxPlace, n: nat, k: nat)
    requires n + k <= RX_BUFSIZE
    ensures RxRead(mem, at, n + k) == RxRead(mem, at, n) + RxRead(mem, RxAdvance(at, n), k)
  {
  }

  function RxPlaceOf(pointer: u16): RxPlace {
    if RX_BASE <= pointer < RX_BASE + RX_BUFSIZE then pointer - RX_BASE else 0
  }

  predicate Empty(bd: BD) { bd.ctrlStat & BD_RX_EMPTY != 0 }

  predicate Bad(status: bv16) { status & BD_RX_BAD != 0 }

  datatype RxStats = RxStats(dropped: nat, errors: nat, overrun: nat, badLength: nat, badFCS: nat, badAlignment: nat,
                             allocFail: nat)

  /** The counters after a frame with a bad status. */
  function CountBad(st: RxStats, status: bv16): RxStats {
    RxStats(Wrap32(st.dropped + 1), Wrap32(st.errors + BitCount(status)),
            if status & BD_RX_OVERRUN != 0 then Wrap16(st.overrun + 1) else st.overrun,
            if status & BD_RX_BADLENGTH != 0 then Wrap16(st.badLength + 1) else st.badLength,
            if status & BD_RX_BADFCS != 0 then Wrap16(st.badFCS + 1) else st.badFCS,
            if status & BD_RX_ALIGNERR != 0 then Wrap16(st.badAlignment + 1) else st.badAlignment,
            st.allocFail)
  }

  /** A frame as the hardware left it: its bytes, in whole words, and its status. */
  datatype Arrival = Arrival(image: seq<u8>, status: bv16)

  /** What became of a frame the driver took: handed up, dropped for its status, or lost for want of a buffer. */
  datatype Fate = Delivered | Dropped | NoBuffer

  function FateOf(status: bv16, haveBuffer: bool): Fate {
    if Bad(status) then Dropped else if haveBuffer then Delivered else NoBuffer
  }

  /** The counters after a frame. */
  function CountFate(st: RxStats, status: bv16, fate: Fate): RxStats {
    match fate
    case Dropped => CountBad(st, status)
    case NoBuffer => st.(allocFail := Wrap16(st.allocFail + 1))
    case Delivered => st
  }

  /** The receive ring: FIFO and descriptor memory, the frame counter, and the driver's fields. */
  datatype RxRing = RxRing(mem: RxMemory, bds: Descriptors, frameCnt: nat, bdIndex: u8, stats: RxStats)

  function InitRx(): RxRing {
    RxRing(seq(RX_BUFSIZE, _ => 0), seq(BD_MAX, _ => BD(BD_RX_EMPTY, 0, 0)), 0, 0, RxStats(0, 0, 0, 0, 0, 0, 0))
  }

  /** The frame a descriptor describes. */
  function FrameAt(r: RxRing, j: Index): Arrival {
    var bd := r.bds[j];
    var n := Round4(bd.length);
    Arrival(if n <= RX_BUFSIZE then RxRead(r.mem, RxPlaceOf(bd.pointer), n) else [], bd.ctrlStat)
  }

  predicate CanTake(r: RxRing) {
    r.frameCnt > 0 && !Empty(r.bds[Slot(r.bdIndex, 0)])
  }

  /** One pass of HandleRxIntr: the frame is dealt with, its descriptor goes back empty. */
  function Take(r: RxRing, haveBuffer: bool): RxRing
    requires CanTake(r)
  {
    var j := Slot(r.bdIndex, 0);
    var status := r.bds[j].ctrlStat;
    r.(stats := CountFate(r.stats, status, FateOf(status, haveBuffer)),
       frameCnt := r.frameCnt - 1,
       bds := r.bds[j := r.bds[j].(ctrlStat := BD_RX_EMPTY)],
       bdIndex := Plus8(r.bdIndex, 1))
  }

  /** The descriptors from the index on hold these frames, in order, and all others are empty. */
  predicate Pending(r: RxRing, fl: seq<Arrival>) {
    && |fl| <= BD_MAX && r.frameCnt <= |fl|
    && (forall k :: 0 <= k < |fl| ==> FrameAt(r, Slot(r.bdIndex, k)) == fl[k])
    && (forall k :: 0 <= k < |fl| ==> Round4(r.bds[Slot(r.bdIndex, k)].length) <= RX_BUFSIZE)
    && (forall k :: 0 <= k < BD_MAX ==> (Empty(r.bds[Slot(r.bdIndex, k)]) <==> |fl| <= k))
  }

  /** Taking a frame leaves exactly the others pending. */
  lemma TakeKeeps(r: RxRing, fl: seq<Arrival>, haveBuffer: bool)
    requires Pending(r, fl) && CanTake(r)
    ensures fl != [] && fl[0] == FrameAt(r, Slot(r.bdIndex, 0)) && Pending(Take(r, haveBuffer), fl[1..])
  {
    var u := Take(r, haveBuffer);
    assert BD_RX_EMPTY & BD_RX_EMPTY != 0;
    assert Empty(r.bds[Slot(r.bdIndex, 0)]) <==> |fl| <= 0;
    forall k | 0 <= k < BD_MAX
      ensures Empty(u.bds[Slot(u.bdIndex, k)]) <==> |fl| - 1 <= k
      ensures k < |fl| - 1 ==> FrameAt(u, Slot(u.bdIndex, k)) == fl[k + 1]
      ensures k < |fl| - 1 ==> Round4(u.bds[Slot(u.bdIndex, k)].length) <= RX_BUFSIZE
    {
      SlotShift(r.bdIndex, 1, k);
      if k == BD_MAX - 1 {
        SlotWraps(r.bdIndex);
      } else {
        SlotsDiffer(r.bdIndex, 0, k + 1);
      }
    }
  }

  // ---- The hardware ----

  /** The hardware stores a frame somewhere in its memory, leaving alone the frames not taken yet, and describes it in
      its next descriptor. */
  datatype Fill = Fill(mem: RxMemory, length: u16, pointer: u16, status: bv16)

  function Filled(r: RxRing, j: Index, f: Fill): RxRing {
    r.(mem := f.mem, bds := r.bds[j := BD(f.status & 0x7FFF, f.length, f.pointer)])
  }

  predicate Respects(r: RxRing, fl: seq<Arrival>, f: Fill) {
    && Round4(f.length) <= RX_BUFSIZE
    && forall k :: 0 <= k < |fl| ==> FrameAt(r.(mem := f.mem), Slot(r.bdIndex, k)) == fl[k]
  }

  /** If the descriptor behind the pending ones is empty, not all are in use. */
  lemma EmptyMeansFree(r: RxRing, fl: seq<Arrival>)
    requires Pending(r, fl) && Empty(r.bds[Slot(r.bdIndex, |fl|)])
    ensures |fl| < BD_MAX
  {
    SlotWraps(r.bdIndex);
    assert Empty(r.bds[Slot(r.bdIndex, 0)]) <==> |fl| <= 0;
  }

  lemma FillKeeps(r: RxRing, fl: seq<Arrival>, f: Fill)
    requires Pending(r, fl) && |fl| < BD_MAX && Respects(r, fl, f)
    ensures var j := Slot(r.bdIndex, |fl|); Pending(Filled(r, j, f), fl + [FrameAt(Filled(r, j, f), j)])
  {
    var j := Slot(r.bdIndex, |fl|);
    var u, gl := Filled(r, j, f), fl + [FrameAt(Filled(r, j, f), j)];
    assert (f.status & 0x7FFF) & BD_RX_EMPTY == 0;
    forall k | 0 <= k < BD_MAX
      ensures Empty(u.bds[Slot(u.bdIndex, k)]) <==> |gl| <= k
      ensures k < |gl| ==> FrameAt(u, Slot(u.bdIndex, k)) == gl[k]
      ensures k < |gl| ==> Round4(u.bds[Slot(u.bdIndex, k)].length) <= RX_BUFSIZE
    {
      if k != |fl| {
        SlotsDiffer(r.bdIndex, k, |fl|);
      }
    }
  }
}
