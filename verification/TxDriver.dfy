/** The transmit side of xfer.c and smap.c in its own form: fields, descriptor memory and FIFO, updated in place. */
module TxDriver {
  import opened Bytes
  import opened TxFifo
  import opened TxEngine
  import opened Pbuf
  import opened PacketQueue
  import opened LowLevelOutput

  function FrameOf(p: PBuf): Frame {
    Frame(p.payload, p.beyond)
  }

  /** The frames of queued packets. */
  function FramesOf(packets: seq<PBuf>): (q: seq<Frame>)
    ensures |q| == |packets|
  {
    seq(|packets|, i requires 0 <= i < |packets| => FrameOf(packets[i]))
  }

  lemma FramesDrop(packets: seq<PBuf>, k: nat)
    requires k <= |packets|
    ensures FramesOf(packets[k..]) == FramesOf(packets)[k..]
  {
  }

  /** What packetToSend is when a call stops before these packets, given what it was before that pass: the first of
      them, unless there is none or it is empty. */
  function InHand(left: seq<PBuf>, before: PBuf?): PBuf? {
    if left != [] && left[0].payload != [] then left[0] else before
  }

  /** So a request without a link that follows a call, for the packet just queued, empties the queue exactly when a
      packet was in hand and none is empty: with nothing in hand the new packet stays. */
  lemma ClearsAfterCall(left: seq<PBuf>, before: PBuf?, tx: PBuf)
    ensures AfterXmit(Enqueued(left, tx), false, InHand(left, before) != null) == [] <==>
            InHand(left, before) != null && forall p :: p in Enqueued(left, tx) ==> p.payload != []
    ensures InHand(left, before) != null <==> (left != [] && left[0].payload != []) || before != null
  {
    FromEmptyIsEmpty(Enqueued(left, tx));
  }

  class Driver {
    var txBufferSpaceAvailable: nat
    var numPacketsInTx: u8
    var txBDIndex: u8
    var txDNVBDIndex: u8
    var stats: TxStats
    const net: Interface               // the packet queue and packetToSend
    const txBD: array<BD>
    const fifo: Fifo
    ghost var ring: Ring               // the transmit ring these fields and memories make up

    ghost predicate Valid()
      reads this, txBD, fifo, fifo.mem
    {
      && txBD.Length == BD_MAX && fifo.Valid()
      && ring == Ring(fifo.mem[..], fifo.wrPtr, txBD[..], txBDIndex, txDNVBDIndex, numPacketsInTx,
                      txBufferSpaceAvailable, stats)
    }

    /** The state the bring-up sequence leaves. */
    constructor ()
      ensures Valid() && ring == InitRing()
      ensures net.queue.Valid() && net.queue.packets == [] && fresh(net) && fresh(net.queue)
      ensures fresh(txBD) && fresh(fifo) && fresh(fifo.mem)
    {
      txBufferSpaceAvailable, numPacketsInTx, txBDIndex, txDNVBDIndex := TX_BUFSIZE, 0, 0, 0;
      stats := TxStats(0, 0, 0, 0, 0, 0);
      net := new Interface();
      txBD := new BD[BD_MAX](_ => BD(0, 0, 0));
      fifo := new Fifo();
      ring := InitRing();
    }

    /** Copies a packet out, describes it to the hardware and accounts for it. */
    method LoadPacket(f: Frame)
      requires Valid() && CanLoad(ring, f) && ring.space <= TX_BUFSIZE
      modifies this`txBDIndex, this`numPacketsInTx, this`txBufferSpaceAvailable, this`ring
      modifies txBD, fifo`wrPtr, fifo.mem
      ensures Valid() && ring == Load(old(ring), f)
    {
      var sizeRounded := Round4(|f.payload|);
      var pointer := fifo.wrPtr + TX_BASE;
      fifo.CopyToFIFO(Buffer(f), |f.payload|);
      txBD[txBDIndex % BD_MAX] := BD(BD_TX_SEND, |f.payload|, pointer);
      txBDIndex := Plus8(txBDIndex, 1);
      numPacketsInTx := Plus8(numPacketsInTx, 1);
      txBufferSpaceAvailable := txBufferSpaceAvailable - sizeRounded;
      ring := Load(ring, f);
    }

    /** Moves the head of the queue into the transmit ring; it is unlinked and loses the queue's reference. */
    method LoadHead(data: PBuf)
      requires Valid() && CanLoad(ring, FrameOf(data)) && ring.space <= TX_BUFSIZE
      requires net.queue.Valid() && net.queue.packets != [] && data == net.queue.packets[0]
      modifies this`txBDIndex, this`numPacketsInTx, this`txBufferSpaceAvailable, this`ring
      modifies txBD, fifo`wrPtr, fifo.mem, net`packetToSend
      modifies net.queue, net.queue.packets`next, net.queue.packets`ref
      ensures Valid() && ring == Load(old(ring), FrameOf(data))
      ensures net.queue.Valid() && net.queue.packets == old(net.queue.packets)[1..]
      ensures net.packetToSend == null && data.next == null && data.ref == old(data.ref) - 1
    {
      LoadPacket(FrameOf(data));
      net.packetToSend := null;
      net.queue.SMapTxPacketDeQ();
    }

    /** One pass: moves the head of the queue, unless there is none, or it is empty or does not fit. */
    method OnePass(ghost first: Ring, ghost waiting: seq<Frame>, ghost n: nat) returns (moved: bool)
      requires Valid() && Loaded(first, ring, waiting, n)
      requires net.queue.Valid() && n <= |waiting| && FramesOf(net.queue.packets) == waiting[n..]
      modifies this`txBDIndex, this`numPacketsInTx, this`txBufferSpaceAvailable, this`ring
      modifies txBD, fifo`wrPtr, fifo.mem, net`packetToSend
      modifies net.queue, net.queue.packets`next, net.queue.packets`ref
      ensures Valid() && net.queue.Valid()
      ensures moved ==> Loaded(first, ring, waiting, n + 1)
      ensures moved ==> old(net.queue.packets) != [] && net.queue.packets == old(net.queue.packets)[1..]
      ensures !moved ==> ring == old(ring) && net.queue.packets == old(net.queue.packets)
      ensures !moved ==> !Fits(first, waiting, n + 1)
      ensures net.packetToSend == if moved then null else InHand(net.queue.packets, old(net.packetToSend))
    {
      var data, length := net.queue.SMapTxPacketNext();
      if length < 1 {
        NoneFurther(first, waiting, n);
        return false;
      }
      net.packetToSend := data;
      OneMoreLoaded(first, ring, waiting, n);
      if numPacketsInTx >= BD_MAX || txBufferSpaceAvailable < Round4(length) {
        return false;
      }
      LoadHead(data);
      moved := true;
    }

    /** Moves packets into the transmit ring: exactly the longest prefix of the queue for which there are descriptors
        and bytes, stopping at an empty packet. One that does not fit stays in hand. */
    method HandleTxReqs() returns (result: nat)
      requires Valid() && net.queue.Valid() && ring.space <= TX_BUFSIZE && ring.numInTx <= BD_MAX
      modifies this`txBDIndex, this`numPacketsInTx, this`txBufferSpaceAvailable, this`ring
      modifies txBD, fifo`wrPtr, fifo.mem, net`packetToSend
      modifies net.queue, net.queue.packets`next, net.queue.packets`ref
      ensures Valid() && net.queue.Valid()
      ensures result <= |old(net.queue.packets)| && net.queue.packets == old(net.queue.packets)[result..]
      ensures Loaded(old(ring), ring, FramesOf(old(net.queue.packets)), result)
      ensures !Fits(old(ring), FramesOf(old(net.queue.packets)), result + 1)
      ensures net.packetToSend == InHand(net.queue.packets, if result > 0 then null else old(net.packetToSend))
    {
      result := 0;
      ghost var first, packets, held := ring, net.queue.packets, net.packetToSend;
      ghost var waiting := FramesOf(packets);
      var more := true;
      while more
        invariant Valid() && net.queue.Valid() && result <= |packets| && net.queue.packets == packets[result..]
        invariant Loaded(first, ring, waiting, result)
        invariant !more ==> !Fits(first, waiting, result + 1)
        invariant var before := if result > 0 then null else held;
                  net.packetToSend == if more then before else InHand(net.queue.packets, before)
        decreases |net.queue.packets|, more
      {
        FramesDrop(packets, result);
        more := OnePass(first, waiting, result);
        if more {
          result := result + 1;
        }
      }
    }

    /** Counts the status of the oldest descriptor and gives its bytes and its place back. */
    method ReclaimBD()
      requires Valid() && CanReclaim(ring)
      modifies this`txDNVBDIndex, this`numPacketsInTx, this`txBufferSpaceAvailable, this`stats, this`ring
      ensures Valid() && ring == Reclaim(old(ring))
    {
      var bd := txBD[txDNVBDIndex % BD_MAX];
      CountTxStatus(bd.ctrlStat);
      txBufferSpaceAvailable := txBufferSpaceAvailable + Round4(bd.length);
      txDNVBDIndex := Plus8(txDNVBDIndex, 1);
      numPacketsInTx := numPacketsInTx - 1;
      ring := Reclaim(ring);
    }

    /** Reclaims every frame the hardware has finished. */
    method HandleTxIntr() returns (result: nat)
      requires Valid()
      modifies this`txDNVBDIndex, this`numPacketsInTx, this`txBufferSpaceAvailable, this`stats, this`ring
      ensures Valid() && ring == ReclaimAll(old(ring))
      ensures result == old(ring).numInTx - ring.numInTx
    {
      result := 0;
      while numPacketsInTx > 0
        invariant Valid() && ReclaimAll(ring) == ReclaimAll(old(ring))
        invariant result == old(ring).numInTx - ring.numInTx
      {
        if Ready(txBD[txDNVBDIndex % BD_MAX]) {
          break;
        }
        ReclaimBD();
        result := result + 1;
      }
    }

    method CountTxStatus(ctrlStat: bv16)
      modifies this`stats
      ensures stats == CountStatus(old(stats), ctrlStat)
    {
      if ctrlStat & BD_TX_DROPPED != 0 {
        var st := stats;
        var bits := CountBits(ctrlStat);
        st := st.(errors := Wrap32(st.errors + bits));
        st := st.(dropped := Wrap32(st.dropped + 1));
        if ctrlStat & BD_TX_LOSSCR != 0 {
          st := st.(losscr := Wrap16(st.losscr + 1));
        }
        if ctrlStat & BD_TX_EDEFER != 0 {
          st := st.(edefer := Wrap16(st.edefer + 1));
        }
        if ctrlStat & BD_TX_COLLISION != 0 {
          st := st.(collision := Wrap16(st.collision + 1));
        }
        if ctrlStat & BD_TX_UNDERRUN != 0 {
          st := st.(underrun := Wrap16(st.underrun + 1));
        }
        stats := st;
      }
    }
  }
}
