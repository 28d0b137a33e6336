/** The transmit entry points the TCP/IP thread calls. */
module LowLevelOutput {
  import opened Pbuf
  import opened PacketQueue

  const ERR_OK := 0
  const ERR_MEM := -1

  /** What a transmit request leaves of the queue: all of it while there is a link, or when the driver thread is not
      holding a packet it could not send; otherwise nothing up to the first empty packet. */
  function AfterXmit(packets: seq<PBuf>, link: bool, held: bool): seq<PBuf> {
    if link || !held then packets else FromEmpty(packets)
  }

  ghost function Refs(packets: seq<PBuf>): map<PBuf, nat>
    reads packets
  {
    map p | p in packets :: p.ref
  }

  /** These packets, none of them empty, are off the queue and have lost one reference each; the others stay. */
  ghost predicate Gone(gone: seq<PBuf>, left: seq<PBuf>, refs: map<PBuf, nat>)
    reads gone, left
  {
    && (forall p :: p in gone ==> p !in left && p in refs && p.ref + 1 == refs[p] && p.payload != [])
    && (forall p :: p in left ==> p in refs && p.ref == refs[p])
  }

  class Interface {
    const queue: Queue
    var packetToSend: PBuf?   // the packet HandleTxReqs is working on
    var linkStatus: bool
    var xmitEvent: bool       // the XMIT bit of the driver thread's event flag

    constructor ()
      ensures queue.Valid() && queue.packets == [] && fresh(queue)
    {
      queue := new Queue();
      packetToSend, linkStatus, xmitEvent := null, false, false;
    }

    /** Frees waiting packets, but only if the driver thread had one in hand, and only up to the first empty packet.
        So it empties the queue exactly when the queue was empty, or a packet was in hand and none is empty. Each
        packet taken off loses one reference. */
    method ClearPacketQueue()
      requires queue.Valid()
      modifies this`packetToSend, queue, queue.packets`next, queue.packets`ref
      ensures queue.Valid() && packetToSend == null
      ensures queue.packets == AfterXmit(old(queue.packets), false, old(packetToSend) != null)
      ensures queue.packets == [] <==>
              (old(queue.packets) == [] ||
               (old(packetToSend) != null && forall p :: p in old(queue.packets) ==> p.payload != []))
      ensures forall p :: p in old(queue.packets) ==> p.ref == old(p.ref) - if p in queue.packets then 0 else 1
    {
      ghost var all, refs := queue.packets, Refs(queue.packets);
      FromEmptyIsEmpty(all);
      var pkt := packetToSend;
      packetToSend := null;
      if pkt != null {
        ghost var gone := DropPackets(refs, set p | p in all);
        FromEmptyBehind(gone, queue.packets);
        assert forall p :: p in all ==> p in gone || p in queue.packets;
      }
    }

    /** Takes packets off until none is left or the next is empty. */
    method DropPackets(ghost refs: map<PBuf, nat>, ghost repr: set<PBuf>) returns (ghost gone: seq<PBuf>)
      requires queue.Valid() && Gone([], queue.packets, refs) && forall p :: p in queue.packets ==> p in repr
      modifies queue, repr`next, repr`ref
      ensures queue.Valid() && Gone(gone, queue.packets, refs) && gone + queue.packets == old(queue.packets)
      ensures queue.packets == [] || queue.packets[0].payload == []
    {
      gone := [];
      var more := true;
      while more
        invariant queue.Valid() && Gone(gone, queue.packets, refs) && gone + queue.packets == old(queue.packets)
        invariant forall p :: p in queue.packets ==> p in repr
        invariant more || queue.packets == [] || queue.packets[0].payload == []
        decreases |queue.packets|, more
      {
        more, gone := DropOne(gone, refs, repr);
      }
    }

    /** Takes the oldest packet off, unless there is none or it is empty. */
    method DropOne(ghost gone: seq<PBuf>, ghost refs: map<PBuf, nat>, ghost repr: set<PBuf>)
      returns (dropped: bool, ghost all: seq<PBuf>)
      requires queue.Valid() && Gone(gone, queue.packets, refs) && forall p :: p in queue.packets ==> p in repr
      modifies queue, repr`next, repr`ref
      ensures queue.Valid() && Gone(all, queue.packets, refs) && all + queue.packets == gone + old(queue.packets)
      ensures forall p :: p in queue.packets ==> p in repr
      ensures if dropped then |queue.packets| < |old(queue.packets)|
              else queue.packets == old(queue.packets) && (queue.packets == [] || queue.packets[0].payload == [])
    {
      all := gone;
      var payload, len := queue.SMapTxPacketNext();
      dropped := len > 0;
      if dropped {
        FirstOnce(queue.packets);
        all := gone + [queue.packets[0]];
        queue.SMapTxPacketDeQ();
      }
    }

    /** Wakes the driver thread, or without a link clears the queue. */
    method SMAPXmit()
      requires queue.Valid()
      modifies this`packetToSend, this`xmitEvent, queue, queue.packets`next, queue.packets`ref
      ensures queue.Valid()
      ensures queue.packets == AfterXmit(old(queue.packets), linkStatus, old(packetToSend) != null)
      ensures linkStatus ==> queue.packets == old(queue.packets) && packetToSend == old(packetToSend)
      ensures linkStatus ==> forall p :: p in queue.packets ==> p.ref == old(p.ref)
      ensures !linkStatus ==> packetToSend == null
      ensures xmitEvent == (old(xmitEvent) || linkStatus)
      ensures forall p :: p in old(queue.packets) ==> p.ref == old(p.ref) - if p in queue.packets then 0 else 1
    {
      if linkStatus {
        xmitEvent := true;
      } else {
        ClearPacketQueue();
      }
    }

    /** The stack's pbuf_coalesce for a chain of several buffers: one new buffer with all of the bytes, the chain's
        reference dropped; or the chain itself when there is no memory. */
    method Coalesce(p: PBuf) returns (q: PBuf)
      requires 0 < p.ref
      modifies p`ref
      ensures q == p ==> p.ref == old(p.ref)
      ensures q != p ==> fresh(q) && q.payload == p.payload + p.rest && q.rest == [] && q.ref == 1
      ensures q != p ==> p.ref == old(p.ref) - 1
    {
      var haveMemory: bool := *;
      if haveMemory {
        q := new PBuf(p.payload + p.rest, p.beyond, []);
        p.ref := p.ref - 1;
      } else {
        q := p;
      }
    }

    /** Puts a packet on the queue and asks for transmission. Packets dropped for want of a link lose one reference
        each, and no other count changes; those cut off by enqueueing a packet twice keep theirs. */
    method Submit(tx: PBuf)
      requires queue.Valid() && 0 < tx.ref
      modifies this`packetToSend, this`xmitEvent, queue, tx`next, queue.packets`next, tx`ref, queue.packets`ref
      ensures queue.Valid()
      ensures queue.packets == AfterXmit(Enqueued(old(queue.packets), tx), linkStatus, old(packetToSend) != null)
      ensures linkStatus ==> queue.packets == Enqueued(old(queue.packets), tx)
      ensures xmitEvent == (old(xmitEvent) || linkStatus)
      ensures forall p :: p in old(queue.packets) + [tx] ==>
                p.ref == old(p.ref) - Dropped(p, Enqueued(old(queue.packets), tx), queue.packets)
    {
      queue.EnQTxPacket(tx);
      SMAPXmit();
    }

    /** Queues the bytes of a packet, in one buffer, and asks for transmission. When there is no memory to join a
        chain, the packet is not queued and keeps the reference taken for it. */
    method SMapLowLevelOutput(p: PBuf) returns (result: int, tx: PBuf)
      requires queue.Valid() && 0 < p.ref
      modifies this`packetToSend, this`xmitEvent, queue, p`next, p`ref, queue.packets`next, queue.packets`ref
      ensures queue.Valid() && (result == ERR_OK || (result == ERR_MEM && p.rest != []))
      ensures result == ERR_MEM ==> queue.packets == old(queue.packets) && p.ref == old(p.ref) + 1
      ensures result == ERR_MEM ==> xmitEvent == old(xmitEvent)
      ensures result == ERR_OK ==> tx.payload == p.payload + p.rest && if p.rest == [] then tx == p else fresh(tx)
      ensures result == ERR_OK ==> (queue.packets
        == AfterXmit(Enqueued(old(queue.packets), tx), linkStatus, old(packetToSend) != null))
      ensures result == ERR_OK && linkStatus ==> queue.packets == Enqueued(old(queue.packets), tx)
      ensures result == ERR_OK ==> xmitEvent == (old(xmitEvent) || linkStatus)
      ensures result == ERR_OK ==>
                && (p.rest != [] ==> tx.ref == 1 - Dropped(tx, Enqueued(old(queue.packets), tx), queue.packets))
                && p.ref == old(p.ref) + (if p.rest == [] then 1 else 0)
                            - Dropped(p, Enqueued(old(queue.packets), tx), queue.packets)
      ensures forall o :: o in old(queue.packets) && o != p ==> (o.ref == old(o.ref)
        - if result == ERR_OK then Dropped(o, Enqueued(old(queue.packets), tx), queue.packets) else 0)
    {
      p.ref := p.ref + 1;
      tx := p;
      if p.rest != [] {
        tx := Coalesce(p);
        if tx == p {
          return ERR_MEM, tx;
        }
      }
      Submit(tx);
      result := ERR_OK;
    }
  }

  /** 1 for a packet that was queued and is not any more. */
  function Dropped(p: PBuf, before: seq<PBuf>, after: seq<PBuf>): nat {
    if p in before && p !in after then 1 else 0
  }

  lemma {:induction false} FromEmptyBehind(gone: seq<PBuf>, left: seq<PBuf>)
    requires left == [] || left[0].payload == []
    requires forall p :: p in gone ==> p.payload != []
    ensures FromEmpty(gone + left) == left
  {
    if gone == [] {
      assert gone + left == left;
    } else {
      FromEmptyBehind(gone[1..], left);
      assert (gone + left)[1..] == gone[1..] + left;
    }
  }
}
