/** The intrusive FIFO of packets waiting for the transmit ring: linked from the oldest (TxTail) to the newest
    (TxHead). */
module PacketQueue {
  import opened Pbuf

  /** The queue up to and including the packet. */
  function UpTo(packets: seq<PBuf>, p: PBuf): (r: seq<PBuf>)
    requires p in packets
    ensures r <= packets && r != [] && r[|r| - 1] == p && p !in r[..|r| - 1]
  {
    if packets[0] == p then [p] else [packets[0]] + UpTo(packets[1..], p)
  }

  /** What the queue becomes when a packet is put on it. */
  function Enqueued(packets: seq<PBuf>, tx: PBuf): seq<PBuf> {
    if tx in packets then UpTo(packets, tx) else packets + [tx]
  }

  /** Putting a packet on the queue appends it exactly when it is not on it already. */
  lemma EnqueuedAppendsIff(packets: seq<PBuf>, tx: PBuf)
    ensures Enqueued(packets, tx) == packets + [tx] <==> tx !in packets
  {
  }

  /** One that is on it already cuts the queue off behind its place. */
  lemma {:induction false} QueuedAlreadyCutsOff(packets: seq<PBuf>, tx: PBuf, k: nat)
    requires k < |packets| && packets[k] == tx && tx !in packets[..k]
    ensures Enqueued(packets, tx) == packets[..k + 1]
    decreases k
  {
    if k != 0 {
      QueuedAlreadyCutsOff(packets[1..], tx, k - 1);
    }
  }

  /** The queue without the non-empty packets at its front. */
  function FromEmpty(packets: seq<PBuf>): seq<PBuf>
  {
    if packets == [] || packets[0].payload == [] then packets else FromEmpty(packets[1..])
  }

  /** It begins with the first empty packet. */
  lemma {:induction false} FromEmptyAt(packets: seq<PBuf>, k: nat)
    requires k <= |packets| && (k < |packets| ==> packets[k].payload == [])
    requires forall i :: 0 <= i < k ==> packets[i].payload != []
    ensures FromEmpty(packets) == packets[k..]
    decreases k
  {
    if k != 0 {
      FromEmptyAt(packets[1..], k - 1);
    }
  }

  lemma FromEmptyIsEmpty(packets: seq<PBuf>)
    ensures FromEmpty(packets) == [] <==> forall p :: p in packets ==> p.payload != []
  {
  }

  function Behind(packets: seq<PBuf>, i: nat): PBuf? {
    if i + 1 < |packets| then packets[i + 1] else null
  }

  /** Following `next` visits these packets, and ends. */
  ghost predicate Chain(packets: seq<PBuf>)
    reads packets
  {
    forall i {:trigger packets[i].next} :: 0 <= i < |packets| ==> packets[i].next == Behind(packets, i)
  }

  /** So it visits none of them twice. */
  lemma {:induction false} Apart(packets: seq<PBuf>, i: nat, j: nat)
    requires Chain(packets) && i < j < |packets|
    ensures packets[i] != packets[j]
    decreases |packets| - j
  {
    assert packets[i].next == packets[i + 1] && packets[j].next == Behind(packets, j);
    if j + 1 < |packets| {
      Apart(packets, i + 1, j + 1);
    }
  }

  lemma FirstOnce(packets: seq<PBuf>)
    requires Chain(packets) && packets != []
    ensures packets[0] !in packets[1..]
  {
    forall j | 1 <= j < |packets|
      ensures packets[j] != packets[0]
    {
      Apart(packets, 0, j);
    }
  }

  lemma LastOnce(packets: seq<PBuf>)
    requires Chain(packets) && packets != []
    ensures packets[|packets| - 1] !in packets[..|packets| - 1]
  {
    forall i | 0 <= i < |packets| - 1
      ensures packets[i] != packets[|packets| - 1]
    {
      Apart(packets, i, |packets| - 1);
    }
  }

  class Queue {
    var txHead: PBuf?
    var txTail: PBuf?
    ghost var packets: seq<PBuf>   // oldest first

    /** Walking `next` from TxTail visits the packets, each once, and ends at TxHead. */
    ghost predicate Valid()
      reads this, packets
    {
      && txTail == (if packets == [] then null else packets[0])
      && txHead == (if packets == [] then null else packets[|packets| - 1])
      && (forall p :: p in packets ==> 0 < p.ref)
      && Chain(packets)
    }

    constructor ()
      ensures Valid() && packets == []
    {
      txHead, txTail, packets := null, null, [];
    }

    /** Appends a packet. One that is already queued is not appended again: the queue is cut off behind it, and
        whatever was queued after it is lost. */
    method EnQTxPacket(tx: PBuf)
      requires Valid() && 0 < tx.ref
      modifies this, tx`next, packets`next
      ensures Valid()
      ensures packets == Enqueued(old(packets), tx)
    {
      ghost var before := packets;
      if txHead != null {
        LastOnce(packets);
        txHead.next := tx;
      }
      txHead := tx;
      tx.next := null;
      if txTail == null {
        txTail := txHead;
      }
      packets := Enqueued(packets, tx);
      forall i | 0 <= i < |packets|
        ensures packets[i].next == Behind(packets, i)
      {
        if i + 1 < |packets| {
          assert packets[i] != tx && (i + 1 < |before| ==> packets[i] in before[..|before| - 1]);
        }
      }
    }

    /** The oldest packet and its length; 0 when there is none. */
    method SMapTxPacketNext() returns (payload: PBuf?, len: nat)
      requires Valid()
      ensures packets == [] ==> payload == null && len == 0
      ensures packets != [] ==> payload == packets[0] && len == |packets[0].payload|
    {
      if txTail != null {
        payload, len := txTail, |txTail.payload|;
      } else {
        payload, len := null, 0;
      }
    }

    /** Takes the oldest packet off, unlinks it and drops the queue's reference to it. */
    method SMapTxPacketDeQ()
      requires Valid()
      modifies this, packets`next, packets`ref
      ensures Valid()
      ensures packets == if old(packets) == [] then [] else old(packets)[1..]
      ensures old(packets) != [] ==> old(packets)[0].next == null && old(packets)[0].ref == old(packets[0].ref) - 1
      ensures forall p :: p in packets ==> p.ref == old(p.ref)
    {
      var toFree: PBuf? := null;
      if txTail != null {
        toFree := txTail;
        FirstOnce(packets);
        assert |packets| == 1 || (packets[|packets| - 1] in packets[1..] && packets[0].next == packets[1]);
        if txTail == txHead {
          txTail := null;
          txHead := null;
        } else {
          txTail := txTail.next;
        }
        packets := packets[1..];
      }
      if toFree != null {
        toFree.next := null;
        toFree.ref := toFree.ref - 1;
      }
    }
  }
}
