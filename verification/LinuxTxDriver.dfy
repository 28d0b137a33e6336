/** The transmit side of smap-linux/smap.c in its own form. */
module LinuxTxDriver {
  import opened Bytes
  import opened TxFifo
  import opened TxEngine
  import opened PbufChain
  import Ring = LinuxTxRing
  import WakeUp

  const TXBUF_SIZE := 1520

  /** What SMap_Send says of a packet of len bytes: no connection without a link; an error for a packet too long, and
      for one that fits when the MAC is not ready; no room, by the driver's own count; or sent. */
  predicate Says(status: WakeUp.Status, s: Ring.Tx, len: nat, linkValid: bool, emacReady: bool) {
    var short, room := len <= Ring.SMAP_TXMAXSIZE, Ring.HasRoom(s, len);
    && (status == WakeUp.Con <==> !linkValid)
    && (status == WakeUp.Tx <==> linkValid && short && !room)
    && (status == WakeUp.Err <==> linkValid && (short ==> room && !emacReady))
    && (status == WakeUp.Ok <==> linkValid && short && room && emacReady)
  }

  class Driver {
    var u16PTRStart: Place
    var u16PTREnd: Place
    var u8IndexStart: Index
    var u8IndexEnd: Index
    const pBD: array<BD>
    const fifo: Fifo
    const au32TXBuf: array<u8>

    ghost predicate Valid()
      reads this, fifo
    {
      pBD.Length == BD_MAX && fifo.Valid() && au32TXBuf.Length == TXBUF_SIZE && au32TXBuf != fifo.mem
    }

    /** The ring these fields and memories make up. */
    ghost function State(): Ring.Tx
      requires Valid()
      reads this, pBD, fifo, fifo.mem
    {
      Ring.Tx(fifo.mem[..], u16PTRStart, u16PTREnd, u8IndexStart, u8IndexEnd, pBD[..])
    }

    constructor ()
      ensures Valid() && State() == Ring.InitTx()
      ensures fresh(pBD) && fresh(fifo) && fresh(fifo.mem) && fresh(au32TXBuf)
    {
      u16PTRStart, u16PTREnd, u8IndexStart, u8IndexEnd := 0, 0, 0, 0;
      pBD := new BD[BD_MAX](_ => BD(0, 0, 0));
      fifo := new Fifo();
      au32TXBuf := new u8[TXBUF_SIZE](_ => 0);
    }

    method ComputeFreeSize() returns (free: nat)
      requires Valid()
      ensures free == Ring.ComputeFreeSize(State())
    {
      free := if u16PTRStart > u16PTREnd then TX_BUFSIZE + u16PTREnd - u16PTRStart
              else TX_BUFSIZE - (u16PTREnd - u16PTRStart);
    }

    /** Gives back the first descriptor. */
    method ClearFirst()
      requires Valid() && u8IndexStart != u8IndexEnd
      modifies `u16PTRStart, `u8IndexStart, pBD
      ensures Valid() && State() == Ring.ReclaimOne(old(State()))
    {
      u16PTRStart := Ring.AddMod(u16PTRStart, Round4(pBD[u8IndexStart].length));
      pBD[u8IndexStart] := BD(0, 0, 0);
      u8IndexStart := NextIndex(u8IndexStart);
    }

    /** Gives back the descriptors of the packets sent, up to the first that is not, and says whether none of those
        looked at shows an error. */
    method HandleTXInt() returns (noError: bool)
      requires Valid()
      modifies `u16PTRStart, `u8IndexStart, pBD
      ensures Valid() && State() == Ring.TxInt(old(State()))
      ensures noError == Ring.NoError(old(State()))
    {
      noError := true;
      ghost var first := State();
      while u8IndexStart != u8IndexEnd
        invariant Valid()
        invariant Ring.ReclaimAll(State()) == Ring.ReclaimAll(first)
        invariant (noError && Ring.NoError(State())) == Ring.NoError(first)
        decreases Ring.Active(State())
      {
        var status := pBD[u8IndexStart].ctrlStat;
        if status & Ring.BD_TX_ERRMASK != 0 {
          noError := false;
        }
        if Ready(pBD[u8IndexStart]) {
          return;
        }
        ClearFirst();
      }
      u16PTRStart := u16PTREnd;
    }

    /** memcpy into the intermediate buffer. */
    method Deposit(from: seq<u8>, at: nat)
      requires Valid() && at + |from| <= TXBUF_SIZE
      modifies au32TXBuf
      ensures au32TXBuf[..at + |from|] == old(au32TXBuf[..at]) + from
    {
      for k := 0 to |from|
        invariant au32TXBuf[..at + k] == old(au32TXBuf[..at]) + from[..k]
      {
        au32TXBuf[at + k] := from[k];
      }
    }

    /** Gathers a packet in the intermediate buffer. */
    method CopyToTXBuffer(p: Link, ghost links: seq<Link>, ghost packet: seq<u8>)
      requires Valid() && Chain(links) && Carries(links, packet) && links[0] == p && p.totLen <= Ring.SMAP_TXMAXSIZE
      modifies au32TXBuf
      ensures au32TXBuf[..p.totLen] == packet
    {
      var q: Link?, dest: nat := p, 0;
      ghost var k := 0;
      while q != null
        invariant k <= |links| && q == if k < |links| then links[k] else null
        invariant 0 <= dest == Before(links, k) <= p.totLen
        invariant au32TXBuf[..dest] == packet[..dest]
        decreases |links| - k
      {
        BeforeGrows(links, k);
        assert q.payload == Part(links, packet, k);
        Deposit(q.payload, dest);
        dest := dest + q.len;
        q, k := q.next, k + 1;
      }
    }

    /** Writes whole words to the transmit memory, starting at the end of the window. */
    method CopyToFIFO(src: seq<u8>, len: nat)
      requires Valid() && len == Round4(len) <= |src| && len <= TX_BUFSIZE
      modifies fifo`wrPtr, fifo.mem
      ensures Valid() && fifo.mem[..] == RingWrite(old(fifo.mem[..]), u16PTREnd, src[..len])
    {
      ghost var before := fifo.mem[..];
      fifo.wrPtr := u16PTREnd;
      var i := 0;
      while i < len
        invariant i % 4 == 0 && i <= len
        invariant Valid() && fifo.wrPtr == Advance(u16PTREnd, i)
        invariant fifo.mem[..] == RingWrite(before, u16PTREnd, src[..i])
      {
        WordSteps(i, len);
        WriteWrite(before, u16PTREnd, src[..i], src[i..i + 4]);
        assert src[..i] + src[i..i + 4] == src[..i + 4];
        fifo.Push(src[i..i + 4]);
        i := i + 4;
      }
    }

    /** The words that go to the transmit memory: the packet's own, if it lies in one aligned buffer, else those of
        the intermediate buffer. Either way they begin with the packet. */
    method Words(p: Link, ghost links: seq<Link>, ghost packet: seq<u8>, aligned: bool, beyond: seq<u8>)
      returns (image: seq<u8>)
      requires Valid() && Chain(links) && Carries(links, packet) && links[0] == p
      requires p.totLen <= Ring.SMAP_TXMAXSIZE && |beyond| == 3
      modifies au32TXBuf
      ensures |image| == Round4(p.totLen) && image[..p.totLen] == packet
    {
      if p.totLen == p.len && aligned {
        InFirst(links, packet);
        image := (p.payload + beyond)[..Round4(p.totLen)];
      } else {
        CopyToTXBuffer(p, links, packet);
        image := au32TXBuf[..Round4(p.totLen)];
      }
    }

    /** Copies a packet out, describes it to the hardware and moves both windows' ends. */
    method Submit(image: seq<u8>, len: u16)
      requires Valid() && |image| == Round4(len) <= TX_BUFSIZE
      modifies `u16PTREnd, `u8IndexEnd, pBD, fifo`wrPtr, fifo.mem
      ensures Valid() && State() == Ring.Send(old(State()), image, len)
    {
      CopyToFIFO(image, |image|);
      assert image[..|image|] == image;
      pBD[u8IndexEnd] := BD(BD_TX_SEND, len, u16PTREnd + TX_BASE);
      u16PTREnd := Advance(u16PTREnd, |image|);
      u8IndexEnd := NextIndex(u8IndexEnd);
    }

    /** Sends a packet, given whether there is a link, whether the MAC becomes ready, whether the packet is aligned, and
        what follows it in memory. What the hardware finds at the end of the window begins with the packet, whichever
        way it got there. The driver checks the space it computes, but not that there is a descriptor. */
    method Send(p: Link, ghost links: seq<Link>, ghost packet: seq<u8>, linkValid: bool, emacReady: bool,
                aligned: bool, beyond: seq<u8>)
      returns (status: WakeUp.Status, image: seq<u8>)
      requires Valid() && Chain(links) && Carries(links, packet) && links[0] == p
      requires |beyond| == 3
      modifies `u16PTREnd, `u8IndexEnd, pBD, fifo`wrPtr, fifo.mem, au32TXBuf
      ensures Valid()
      ensures Says(status, old(State()), p.totLen, linkValid, emacReady)
      ensures status != WakeUp.Ok ==> State() == old(State())
      ensures status == WakeUp.Ok ==> |image| == Round4(p.totLen) <= TX_BUFSIZE && image[..p.totLen] == packet
      ensures status == WakeUp.Ok ==> State() == Ring.Send(old(State()), image, p.totLen)
    {
      image := [];
      if !linkValid {
        return WakeUp.Con, image;
      }
      if p.totLen > Ring.SMAP_TXMAXSIZE {
        return WakeUp.Err, image;
      }
      var txLen, free := Round4(p.totLen), 0;
      free := ComputeFreeSize();
      if txLen > free {
        return WakeUp.Tx, image;
      }
      if !emacReady {
        return WakeUp.Err, image;
      }
      image := Words(p, links, packet, aligned, beyond);
      Submit(image, p.totLen);
      status := WakeUp.Ok;
    }
  }
}
