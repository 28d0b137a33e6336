/** The receive side of xfer.c in its own form. */
module RxDriver {
  import opened Bytes
  import opened TxEngine
  import opened RxEngine
  import opened RxRuns

  const DMA_BLOCK := 64

  class Driver {
    const rxBD: array<BD>
    const mem: array<u8>
    var rdPtr: RxPlace             // the hardware's read pointer
    var frameCnt: nat
    var rxBDIndex: u8
    var stats: RxStats
    var handedUp: seq<seq<u8>>     // the packets given to the TCP/IP stack
    ghost var ring: RxRing         // the receive ring these fields and memories make up
    ghost var pending: seq<Arrival>

    ghost predicate Valid()
      reads this, rxBD, mem
    {
      && rxBD.Length == BD_MAX && mem.Length == RX_BUFSIZE
      && ring == RxRing(mem[..], rxBD[..], frameCnt, rxBDIndex, stats)
      && Pending(ring, pending)
    }

    /** This is a state of the runs: its ring, the frames pending, and of those taken the ones handed up. */
    ghost predicate Is(w: World)
      reads this
    {
      ring == w.ring && pending == w.pending && handedUp == Handed(w.log)
    }

    constructor ()
      ensures Valid() && ring == InitRx() && pending == [] && handedUp == []
      ensures fresh(rxBD) && fresh(mem)
    {
      rxBD := new BD[BD_MAX](_ => BD(BD_RX_EMPTY, 0, 0));
      mem := new u8[RX_BUFSIZE](_ => 0);
      rdPtr, frameCnt, rxBDIndex, stats, handedUp := 0, 0, 0, RxStats(0, 0, 0, 0, 0, 0, 0), [];
      ring, pending := InitRx(), [];
      assert BD_RX_EMPTY & BD_RX_EMPTY != 0;
    }

    /** The hardware's side of a transfer out of the FIFO. */
    method Pop(n: nat) returns (bytes: seq<u8>)
      requires mem.Length == RX_BUFSIZE && n <= RX_BUFSIZE
      modifies `rdPtr
      ensures bytes == RxRead(mem[..], old(rdPtr), n) && rdPtr == RxAdvance(old(rdPtr), n)
    {
      bytes := RxRead(mem[..], rdPtr, n);
      rdPtr := RxAdvance(rdPtr, n);
    }

    /** Whole 64-byte blocks, if there are any and the DMA channel takes them. */
    method PopBlocks(length: nat) returns (i: nat, buffer: seq<u8>)
      requires mem.Length == RX_BUFSIZE && Round4(length) <= RX_BUFSIZE
      modifies `rdPtr
      ensures i % 4 == 0 && i <= Round4(length)
      ensures buffer == RxRead(mem[..], old(rdPtr), i) && rdPtr == RxAdvance(old(rdPtr), i)
    {
      var accepted: bool := *;
      i := if length >= DMA_BLOCK && accepted then length / DMA_BLOCK * DMA_BLOCK else 0;
      buffer := Pop(i);
    }

    /** Reads one more word. */
    method PopWord(buffer: seq<u8>, ghost at: RxPlace, ghost i: nat) returns (more: seq<u8>)
      requires mem.Length == RX_BUFSIZE && i + 4 <= RX_BUFSIZE
      requires buffer == RxRead(mem[..], at, i) && rdPtr == RxAdvance(at, i)
      modifies `rdPtr
      ensures more == RxRead(mem[..], at, i + 4) && rdPtr == RxAdvance(at, i + 4)
    {
      RxReadParts(mem[..], at, i, 4);
      var word := Pop(4);
      more := buffer + word;
    }

    /** Copies a frame out of the FIFO: whole 64-byte blocks by DMA if the channel takes them, the rest or everything
        word by word. However the DMA turned out, the buffer holds the frame in whole words. */
    method CopyFromFIFO(length: nat, pointer: u16) returns (buffer: seq<u8>)
      requires mem.Length == RX_BUFSIZE && Round4(length) <= RX_BUFSIZE
      modifies `rdPtr
      ensures buffer == RxRead(mem[..], RxPlaceOf(pointer), Round4(length))
    {
      ghost var m, at := mem[..], RxPlaceOf(pointer);
      rdPtr := RxPlaceOf(pointer);
      var i;
      i, buffer := PopBlocks(length);
      while i < length
        invariant i % 4 == 0 && i <= Round4(length)
        invariant buffer == RxRead(m, at, i) && rdPtr == RxAdvance(at, i)
      {
        WordSteps(i, length);
        buffer := PopWord(buffer, at, i);
        i := i + 4;
      }
      WordSteps(i, length);
    }

    method CountBadFrame(status: bv16)
      modifies `stats
      ensures stats == CountBad(old(stats), status)
    {
      var st := stats;
      var bits := CountBits(status);
      st := st.(errors := Wrap32(st.errors + bits));
      st := st.(dropped := Wrap32(st.dropped + 1));
      if status & BD_RX_OVERRUN != 0 {
        st := st.(overrun := Wrap16(st.overrun + 1));
      }
      if status & BD_RX_BADLENGTH != 0 {
        st := st.(badLength := Wrap16(st.badLength + 1));
      }
      if status & BD_RX_BADFCS != 0 {
        st := st.(badFCS := Wrap16(st.badFCS + 1));
      }
      if status & BD_RX_ALIGNERR != 0 {
        st := st.(badAlignment := Wrap16(st.badAlignment + 1));
      }
      stats := st;
    }

    /** Deals with one frame, without touching its descriptor. */
    method Dispose(bd: BD, haveBuffer: bool) returns (fate: Fate)
      requires mem.Length == RX_BUFSIZE && Round4(bd.length) <= RX_BUFSIZE
      modifies `rdPtr, `stats, `handedUp
      ensures fate == FateOf(bd.ctrlStat, haveBuffer)
      ensures stats == CountFate(old(stats), bd.ctrlStat, fate)
      ensures handedUp == old(handedUp) +
        if fate == Delivered then [RxRead(mem[..], RxPlaceOf(bd.pointer), Round4(bd.length))] else []
    {
      if Bad(bd.ctrlStat) {
        CountBadFrame(bd.ctrlStat);
        rdPtr := RxAdvance(RxPlaceOf(bd.pointer), Round4(bd.length));
        fate := Dropped;
      } else if haveBuffer {
        var buffer := CopyFromFIFO(bd.length, bd.pointer);
        handedUp := handedUp + [buffer];
        fate := Delivered;
      } else {
        stats := stats.(allocFail := Wrap16(stats.allocFail + 1));
        rdPtr := RxAdvance(RxPlaceOf(bd.pointer), Round4(bd.length));
        fate := NoBuffer;
      }
    }

    /** Takes the frame in the next descriptor and gives the descriptor back: a step of the runs. */
    method TakeOne(haveBuffer: bool, ghost w: World) returns (fate: Fate)
      requires Valid() && CanTake(ring) && Is(w)
      modifies `rdPtr, `stats, `handedUp, `frameCnt, `rxBDIndex, `ring, `pending, rxBD
      ensures Valid() && ring == Take(old(ring), haveBuffer) && Is(Next(w, Step.TakeOne(haveBuffer)))
      ensures old(pending) != [] && pending == old(pending)[1..]
      ensures fate == FateOf(old(pending)[0].status, haveBuffer)
      ensures handedUp == old(handedUp) +
        if haveBuffer && old(pending)[0].status & 0x027F == 0 then [old(pending)[0].image] else []
      ensures fate == Delivered <==> haveBuffer && old(pending)[0].status & 0x027F == 0
    {
      TakeKeeps(ring, pending, haveBuffer);
      NextHands(w, haveBuffer);
      var j: Index := rxBDIndex % BD_MAX;
      fate := Dispose(rxBD[j], haveBuffer);
      frameCnt := frameCnt - 1;
      rxBD[j] := rxBD[j].(ctrlStat := BD_RX_EMPTY);
      rxBDIndex := Plus8(rxBDIndex, 1);
      ring := Take(ring, haveBuffer);
      pending := pending[1..];
    }

    /** One pass: a frame that is announced is always there. */
    method OnePass(haveBuffer: bool, ghost w: World) returns (found: bool, fate: Fate)
      requires Valid() && Is(w) && 0 < frameCnt
      modifies `rdPtr, `stats, `handedUp, `frameCnt, `rxBDIndex, `ring, `pending, rxBD
      ensures found && Valid() && Is(Next(w, Step.TakeOne(haveBuffer))) && frameCnt == old(frameCnt) - 1
      ensures |handedUp| == |old(handedUp)| + if fate == Delivered then 1 else 0
    {
      NextTakes(w, haveBuffer);
      if Empty(rxBD[rxBDIndex % BD_MAX]) {
        return false, NoBuffer;
      }
      fate := TakeOne(haveBuffer, w);
      found := true;
    }

    /** Takes exactly the frames the hardware has announced, with or without a buffer each: a run of single passes. It
        hands up exactly those it has buffers for that show no error. */
    method HandleRxIntr(ghost w: World) returns (numPacketsReceived: nat, ghost buffers: seq<bool>)
      requires Valid() && Is(w)
      modifies `rdPtr, `stats, `handedUp, `frameCnt, `rxBDIndex, `ring, `pending, rxBD
      ensures Valid() && Is(TakeEach(w, buffers)) && frameCnt == 0 && |buffers| == old(frameCnt)
      ensures old(frameCnt) <= |old(pending)| && handedUp == old(handedUp) + Deserving(old(pending), buffers)
      ensures |handedUp| == |old(handedUp)| + numPacketsReceived
    {
      numPacketsReceived, buffers := 0, [];
      while frameCnt > 0
        invariant Valid() && Is(TakeEach(w, buffers)) && |buffers| + frameCnt == old(frameCnt)
        invariant |handedUp| == |old(handedUp)| + numPacketsReceived
        decreases frameCnt
      {
        var haveBuffer: bool := *;
        var found, fate := OnePass(haveBuffer, TakeEach(w, buffers));
        if !found {
          break;
        }
        if fate == Delivered {
          numPacketsReceived := numPacketsReceived + 1;
        }
        buffers := buffers + [haveBuffer];
        assert buffers[..|buffers| - 1] + [haveBuffer] == buffers;
      }
      CallTakes(w, buffers);
    }
  }
}
