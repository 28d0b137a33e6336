/** The event thread's steps reckon with lengths; on packets they are what the transmit driver and the interface do. */
module EventPackets {
  import opened Pbuf
  import PacketQueue
  import opened TxEngine
  import opened TxLengths
  import opened TxDriver
  import opened LowLevelOutput
  import EventThread

  /** Packets of these lengths wait, and one is in hand or not. */
  predicate Waits(t: EventThread.Tx, packets: seq<PBuf>, packetToSend: PBuf?) {
    t.queued == Lengths(FramesOf(packets)) && (t.held <==> packetToSend != null)
  }

  lemma LoadMoves(t: EventThread.Tx, r: Ring, fl: seq<Frame>, packets: seq<PBuf>, n: nat)
    requires t.queued == Lengths(FramesOf(packets)) && t.flying == Lengths(fl) && Accounts(r, fl) && n <= |packets|
    requires Fits(r, FramesOf(packets), n) && !Fits(r, FramesOf(packets), n + 1)
    ensures n == Moves(t.queued, |t.flying|, Used(t.flying))
    ensures t.queued[n..] == Lengths(FramesOf(packets[n..]))
    ensures t.flying + t.queued[..n] == Lengths(fl + FramesOf(packets)[..n])
  {
    CallMoves(r, fl, FramesOf(packets), n);
    FramesDrop(packets, n);
  }

  /** Loading is a call of HandleTxReqs that moves the longest prefix that fits, packetToSend included. */
  lemma LoadIsCall(t: EventThread.Tx, r: Ring, fl: seq<Frame>, packets: seq<PBuf>, before: PBuf?, n: nat)
    requires Waits(t, packets, before) && t.flying == Lengths(fl) && Accounts(r, fl) && n <= |packets|
    requires Fits(r, FramesOf(packets), n) && !Fits(r, FramesOf(packets), n + 1)
    ensures var u := EventThread.Load(t);
            && Waits(u, packets[n..], InHand(packets[n..], if n > 0 then null else before))
            && u.flying == Lengths(fl + FramesOf(packets)[..n])
  {
    LoadMoves(t, r, fl, packets, n);
  }

  lemma {:induction false} SameFromEmpty(packets: seq<PBuf>)
    ensures EventThread.FromEmpty(Lengths(FramesOf(packets))) == Lengths(FramesOf(PacketQueue.FromEmpty(packets)))
  {
    if packets != [] {
      SameFromEmpty(packets[1..]);
      assert Lengths(FramesOf(packets))[1..] == Lengths(FramesOf(packets[1..]));
    }
  }

  /** And a request without a link leaves of the queue what SMAPXmit leaves, with no packet in hand. */
  lemma ClearIsXmit(t: EventThread.Tx, packets: seq<PBuf>, packetToSend: PBuf?)
    requires Waits(t, packets, packetToSend)
    ensures Waits(EventThread.Clear(t), AfterXmit(packets, false, packetToSend != null), null)
  {
    SameFromEmpty(packets);
  }
}
