# Verified models of the ps2eth drivers

Dafny models of the hard parts of the PlayStation 2 Ethernet drivers, with proofs:

- **`smap`, transmit** (`Tx*.dfy`, `PacketQueue.dfy`, `LowLevelOutput.dfy`): packets go from an intrusive list through a
  greedy copy loop into a 4 KB circular memory described by 64 descriptors; the hardware sends, a second loop reclaims.
  `TxRuns` is the state machine of all interleavings of the driver thread, the TCP/IP thread and the hardware.
- **`smap`, receive** (`Rx*.dfy`): the hardware fills descriptors and announces frames, a loop takes them.
- **`smap`, control** (`Event*.dfy`, `TxLengths.dfy`, `PhyInit.dfy`): the event thread with its interrupt callback, entry
  points and the transmitting hardware, what it does about each event, and the control flow of the PHY set-up.
- **ARP** (`Arp*.dfy`): the ten-entry cache with ageing and eviction, requests and in-place replies, routing of outgoing
  packets, and a network of hosts that all run this code.
- **`smap-linux`** (`WakeUp.dfy`, `RequestQueue.dfy`, `LinuxTx*.dfy`): the eight-packet request queue with reference
  counts, its two-semaphore wake-up protocol for any number of senders, and the second transmit ring beneath it.
- **`ps2klsi`** (`PbufChain.dfy`, `KlsiFraming.dfy`, `Checksum.dfy`, `UdpLog.dfy`): scatter/gather framing over USB and a
  ones'-complement checksum formed on little-endian loads.

Code that works in place is modelled by classes whose methods are proved against functions of the old state
(`TxDriver.Driver`, `RxDriver.Driver`, `PacketQueue.Queue`, `ArpModule.Etharp`, `ArpFrames.EtharpHdr`,
`RequestQueue.Requests`, `LinuxTxDriver.Driver`, `KlsiFraming.EthernetIf`, `UdpLog.Logger`, `PhyInit.Phy`); what the
drivers promise is then proved of those functions, over every input and every run. The hardware is a step of its own
in each state machine: it clears READY and leaves a status on the oldest unfinished descriptor and never changes length
or pointer; on receive it fills the next empty descriptor and raises the frame counter, at once or later. Whether a DMA
channel accepts a transfer, an allocation succeeds, the MAC is ready or the PHY has a link is left open everywhere.

Verify with `dafny verify dfyconfig.toml`, or with all files on the command line.

## What the code does, where it differs from its comments

Each of these is proved, with the exact condition or a concrete state:

- `EnQTxPacket` with a packet that is already queued cuts the queue off behind it (`PacketQueue.EnqueuedAppendsIff`).
- `ClearPacketQueue` empties the queue only if the driver thread had a packet in hand, and not past an empty packet.
- `SMapLowLevelOutput` keeps the reference it took when the chain cannot be joined.
- An empty packet at the head stops `HandleTxReqs` for good, so its "dropped" branch is never reached; the queue drains
  exactly when no packet is empty or larger than the transmit memory (`TxProgress.DrainsIff`).
- The event thread can leave packets in the queue with nothing to wake it. It stops loading because the ring is full; if
  the frames in flight are finished while it handles something else, it reclaims them all and enables TXDNV only for
  packets in flight, so not for those queued (`EventRuns.PacketStranded`). A request while there is no link can do the
  same. `EventThread.WatchedIff` says exactly which runs never do.
- `SMAPStop` sets its event before its flag; a thread that handles STOP in between leaves the flag set, and the next
  START is lost (`EventRuns.StartIsLost`).
- `InitPHY` waits for the PHY reset in a loop but gives up at the first look (`PhyInit.Phy.InitPHY`), and a link that
  shows only at the last look of a poll counts as none (`PhyInit.Phy.PollLink`).
- `etharp_query` is documented to send nothing while a request is pending; it sends again (`ArpTable.Asks`).
  `update_arp_entry` is documented to insert only on a flag; with `ETHARP_ALWAYS_INSERT` it always may. Packets for an
  unresolved address are dropped, not queued.
- The broadcast test looks at the host part alone, so an address of another network with a host part of ones stays on
  the local link, and with a netmask of all ones every packet is broadcast (`ArpFrames.GatewayIff`).
- `ComputeFreeSize` returns the space in use when the window wraps, and everything when the ring is exactly full
  (`LinuxTxRing.FreeSizeIff`). A send it permits can destroy packets still to be sent, with a MAC that reports itself
  ready before they are: inside the driver's window (`LinuxTxIntact.WrappedSendOverwrites`), and outside of it
  (`LinuxTxIntact.EmptyWindowOverwrites`). `LinuxTxIntact.IntactIff` says exactly which runs lose none, and
  `LinuxTxSafety.AlwaysSafeIff` which keep the driver's own accounts true.
- `SMap_Send` does not look for a free descriptor: with 63 active one more makes the window look empty
  (`LinuxTxRing.AlwaysCoupledIff`, `LinuxTxRing.WindowsPart`).
- `HandleTXInt` reports an error unless every packet in the window has been sent, because the control bits set for
  sending are error bits when read back (`LinuxTxRing.RunNoErrorIff`).
- `QueueHandler` is documented to signal a sender when the queue becomes non-full; it signals regardless
  (`WakeUp.SignalMeansRoomIff`).
- `udp_log` sends a UDP checksum of 0, which RFC 768 reserves for "no checksum" (`UdpLog.ChecksumMissingIff`).

## Model

| member | source | states |
|---|---|---|
| `TxFifo.RingWrite` | smap/xfer.c:67-69 | writing at the FIFO pointer changes exactly the bytes from there on, going round at 4096 |
| `TxFifo.WriteRead` | smap/xfer.c:60-70 | what was written is read back from where it was written |
| `TxFifo.WriteKeepsBefore` | smap/xfer.c:60-70 | a write leaves the bytes that end at the pointer intact, even when the two fill the ring exactly |
| `TxFifo.WriteExtends` | smap/xfer.c:60-70 | writing at the pointer adds to the bytes held and loses none |
| `TxFifo.Fifo.Push` | smap/xfer.c:67-69 | the hardware pointer advances by the bytes written, modulo the size |
| `TxFifo.Fifo.SmapDmaTransfer` | smap/xfer.c:27-42 | all whole 64-byte blocks are moved, or nothing |
| `TxFifo.Fifo.CopyToFIFO` | smap/xfer.c:60-70 | for every length and DMA outcome the ring is as if the length rounded up to words had been written at once, and no more |
| `TxEngine.FitsIsPrefixClosed` | smap/xfer.c:142-177 | if n packets fit and n+1 do not, then exactly the prefixes up to n fit |
| `TxEngine.GoesOnIff` | smap/xfer.c:142-177 | after n packets a call of HandleTxReqs takes one more exactly when there is one, it is not empty, no 65th frame would be in flight, and all of them in whole words take at most 4096 bytes |
| `TxEngine.LoadKeeps` | smap/xfer.c:146-167 | loading keeps the space, index and count equations, the bytes in the memory and the description of every frame in flight |
| `TxEngine.LoadFlags` | smap/xfer.c:160-165 | loading makes exactly one more descriptor ready, u8 wrap-around included |
| `TxEngine.ReclaimKeeps` | smap/smap.c:352-372 | reclaiming the oldest finished descriptor keeps all that for the others |
| `TxEngine.ReclaimFlags` | smap/smap.c:352-372 | and leaves the ready flags of exactly the unfinished frames |
| `TxEngine.SendsPayload` | smap/xfer.c:150-161 | the bytes at the pointer and length of the k-th descriptor in flight are the k-th frame's payload |
| `TxEngine.CompleteKeeps` | smap/smap.c:353-354 | the hardware's step keeps the frames in flight |
| `TxEngine.LoadAllKeeps` | smap/xfer.c:132-178 | a whole call of HandleTxReqs adds the moved packets behind the frames in flight |
| `TxEngine.ReclaimAllKeeps` | smap/smap.c:346-375 | a whole call of HandleTxIntr takes exactly the finished frames and counts each status once |
| `TxCounters.CallCounts` | smap/smap.c:352-365 | a call of HandleTxIntr adds to each counter what the finished frames show, modulo its width: frames dropped (status bits 0x00F2), bits set in their statuses, and of those frames the ones with loss of carrier (0x80), excessive deferral (0x40), any kind of collision (0x3C), underrun (0x02) |
| `TxDriver.Driver.LoadPacket` | smap/xfer.c:150-167 | the in-place update of memory, descriptor, indices and counters is the load step |
| `TxDriver.Driver.LoadHead` | smap/xfer.c:150-176 | the packet loaded is taken off the list, unlinked and loses one reference |
| `TxDriver.Driver.HandleTxReqs` | smap/xfer.c:132-178 | moves exactly the longest prefix of the list for which there are descriptors and bytes; packetToSend is afterwards the packet that did not fit, or null if some were moved and the list is empty or goes on with an empty packet |
| `TxDriver.ClearsAfterCall` | smap/smap.c:602-615 | a request without a link that follows a call, for a packet just queued, empties the list exactly when a packet was in hand and none in the list is empty |
| `TxDriver.Driver.HandleTxIntr` | smap/smap.c:346-375 | reclaims every finished descriptor and no other, and returns how many |
| `TxDriver.Driver.ReclaimBD` | smap/smap.c:352-372 | the in-place update is the reclaim step |
| `TxDriver.Driver.CountTxStatus` | smap/smap.c:355-364 | the counters grow as the status bits say, the error counter by the number of set bits |
| `TxRuns.NextKeeps` | smap/xfer.c:132-178 | every step of driver, TCP/IP thread and hardware keeps the invariant of the transmit engine |
| `TxRuns.Reachable` | smap/xfer.c:132-178 | it holds in every interleaving, with the driver thread between copying a packet and taking it off the queue |
| `TxRuns.EndToEnd` | smap/smap.c:346-375 | in every run the packets ever queued are, in order, those sent byte for byte, those the unfinished descriptors point at, and those waiting: no loss, duplication or reordering |
| `TxRuns.AlwaysAsSent` | smap/xfer.c:164-164 | in every run a descriptor still to be sent has the control bits READY, GENFCS and GENPAD, and no others |
| `TxRuns.Conservation` | smap/xfer.c:163-167 | in every run free space plus rounded lengths in flight is the buffer size, and the u8 indices differ by the count modulo 256, at most 64 |
| `TxRuns.FramesDisjoint` | smap/xfer.c:150-167 | in every run the regions in flight are pairwise disjoint |
| `TxRuns.NextCopyDisjoint` | smap/xfer.c:60-70 | and disjoint from whatever the next copy may write |
| `TxProgress.CallIsPasses` | smap/xfer.c:142-177 | a call of HandleTxReqs is a run of single passes, so the run theorems hold after it |
| `TxProgress.CallIsReclaims` | smap/smap.c:352-372 | a call of HandleTxIntr is a run of single passes |
| `TxProgress.UnsendableStays` | smap/xfer.c:143-145 | a packet that is empty or too large stays queued in every run, from whatever state |
| `TxProgress.RoundShrinks` | smap/xfer.c:142-177 | a round of sending, reclaiming and loading shortens the queue if its head can be sent |
| `TxProgress.DrainsIff` | smap/smap.c:352-372 | finitely many rounds leave nothing queued or in flight if and only if every packet is sendable |
| `PacketQueue.EnqueuedAppendsIff` | smap/main.c:172-179 | enqueueing appends exactly when the packet is not queued already |
| `PacketQueue.QueuedAlreadyCutsOff` | smap/main.c:172-179 | a packet that is the k-th in the queue cuts off everything behind it and is not added again |
| `PacketQueue.FromEmptyIsEmpty` | smap/smap.c:611-614 | clearing removes everything exactly when no packet is empty |
| `PacketQueue.FromEmptyAt` | smap/smap.c:611-614 | what clearing leaves begins with the first empty packet |
| `PacketQueue.Queue.EnQTxPacket` | smap/main.c:166-182 | the list stays an acyclic chain from tail to head and becomes the old one with the packet appended, or cut off behind it |
| `PacketQueue.Queue.SMapTxPacketNext` | smap/main.c:184-196 | yields the oldest packet and its length, 0 for none |
| `PacketQueue.Queue.SMapTxPacketDeQ` | smap/main.c:198-225 | takes off the oldest packet, unlinks it and drops one reference, touching no other packet's count |
| `LowLevelOutput.Interface.ClearPacketQueue` | smap/smap.c:602-615 | the queue is emptied exactly when it was empty, or a packet was in hand and none is empty; each packet taken off loses one reference, the others none |
| `LowLevelOutput.Interface.SMAPXmit` | smap/smap.c:617-632 | with a link the thread is woken, and queue, packet in hand and every reference count stay as they were; without one no packet is in hand any more and the queue is cleared, with that effect on the references |
| `LowLevelOutput.Interface.SMapLowLevelOutput` | smap/main.c:52-83 | what is queued is one buffer with all bytes of the chain, behind all that was queued if there is a link; on every path the reference counts of the chain, of the buffer queued and of every packet queued before |
| `RxEngine.TakeKeeps` | smap/xfer.c:86-127 | taking a frame yields the oldest and leaves exactly the others pending, its descriptor empty |
| `RxEngine.FillKeeps` | smap/xfer.c:86-89 | a frame the hardware stores becomes the last pending one |
| `RxRuns.Reachable` | smap/xfer.c:72-130 | in every interleaving the pending descriptors are exactly the frames arrived and not taken |
| `RxRuns.EveryFate` | smap/xfer.c:93-121 | taken = handed up + dropped + lost for want of a buffer |
| `RxRuns.ReceiveConserves` | smap/xfer.c:72-130 | in every run frames are taken in hardware order, each meets exactly one fate, and the counters are those numbers and the set bits of the bad status words |
| `RxRuns.CallTakes` | smap/xfer.c:72-130 | a whole call takes exactly the announced frames in order; each is handed up exactly if none of the status bits 0x027F is set and a buffer is to be had, lost if only the buffer is missing, dropped otherwise; what it hands up is those frames in order |
| `RxRuns.AlwaysClassified` | smap/xfer.c:93-104 | in every run the counters of dropped frames, overruns (0x0200), bad lengths (0x0067), bad checksums (0x0008) and bad alignments (0x0010) are the numbers of frames taken whose status has those bits, modulo their width |
| `RxRuns.TakeEachIsRun` | smap/xfer.c:86-127 | a whole call continues a run by single passes, so the run theorems hold after it |
| `RxDriver.Driver.CopyFromFIFO` | smap/xfer.c:44-58 | for every length and DMA outcome the buffer holds the frame in whole words |
| `RxDriver.Driver.CountBadFrame` | smap/xfer.c:93-104 | the counters for a bad frame |
| `RxDriver.Driver.TakeOne` | smap/xfer.c:87-126 | one pass in place is the take step of the runs; the frame is handed up unchanged exactly if there is a buffer and no status bit of 0x027F is set |
| `RxDriver.Driver.HandleRxIntr` | smap/xfer.c:72-130 | the loop is a run of single passes, one for each frame announced; handed up are, in order, those with no status bit of 0x027F for which there is a buffer, and it returns how many |
| `Bytes.CountBits` | smap/smap.c:356-357 | the loop over a status word counts its set bits |
| `TxLengths.CallMoves` | smap/xfer.c:142-177 | how many packets a call of HandleTxReqs moves, told from lengths alone |
| `EventThread.NextKeeps` | smap/smap.c:391-498 | every step of thread, callback, TCP/IP thread and hardware keeps the arming of TXDNV and the agreement of notification and driver state |
| `EventThread.WaitingIsSafe` | smap/smap.c:391-498 | in every interleaving a blocked, initialised thread with frames in flight has TXDNV enabled or an interrupt pending, and the hardware at work on what is not finished; it has the other interrupts enabled or pending in any case, and the timer runs; the last notification was Up exactly when the driver is initialised and linked |
| `EventThread.ArmWatchesIff` | smap/smap.c:472-484 | after arming the thread will be woken for what is still queued if and only if nothing is queued, or something is in flight, or a wake-up was coming anyway |
| `EventThread.XmitWatchesIff` | smap/smap.c:617-632 | the same for a request without a link: nothing queued, or packetToSend set and no empty packet, or a wake-up coming for another reason |
| `EventThread.StepWatchesIff` | smap/smap.c:391-498 | no other step of anyone can leave packets without a wake-up |
| `EventThread.WatchedIff` | smap/smap.c:391-498 | in every interleaving a wake-up is coming all along for what is queued, if and only if each arming and each request without a link meets those conditions |
| `EventThread.GuardedIsWoken` | smap/smap.c:402-402 | so in such a run a blocked thread in service with packets queued will be woken; what it does then is `EventEffects.WokenLoads` |
| `EventThread.LoadLeavesBeside` | smap/xfer.c:142-177 | a packet that can be sent is left behind by HandleTxReqs only beside frames in flight |
| `EventEffects.ServingLoads` | smap/smap.c:445-475 | from reading the interrupt status the thread goes on to loading all that fits of what is queued then, if it was woken by a request or TXDNV shows, with the finished frames reclaimed first in the latter case; otherwise it loads nothing |
| `EventEffects.TxdnvLoads` | smap/smap.c:464-475 | so after TXDNV, undisturbed, it moves as many of the packets queued as fit beside the frames not finished |
| `EventEffects.HeadLoadedIff` | smap/xfer.c:142-177 | the first packet queued is then in flight if and only if it is not empty, fewer than 64 frames were, and its bytes fit beside theirs in 4096 |
| `EventEffects.WokenLoads` | smap/smap.c:401-475 | in every interleaving a thread woken in service by a request, or by an interrupt that turns out to be TXDNV, with no STOP, loads all that fits in its fifth step; with a link, what was queued as it woke is at the front of what it finds |
| `EventEffects.WokenLoadsHead` | smap/smap.c:401-475 | so the packet at the front is in flight then if and only if there is a descriptor and enough bytes for it beside the frames not reclaimed |
| `EventEffects.InterruptOnce` | smap/smap.c:500-514 | after an interrupt no other one is enabled until the thread goes on, and it stays pending |
| `EventEffects.StopObeyed` | smap/smap.c:408-418 | in every interleaving a thread woken in service with a STOP takes the driver out of service in its second step, announces the link as lost and disables the interrupts of reception; unless a START came along it then blocks again |
| `EventEffects.FailedStartEnds` | smap/smap.c:423-423 | a START whose InitPHY fails ends the thread for good, out of service |
| `EventEffects.RoundChecksLink` | smap/smap.c:486-496 | in every interleaving a round that received frames sets the counter back to 3 and one woken by the timer without any counts it down; exactly if that leaves nothing and the PHY has no link then, the link is given up, announced as lost, and the PHY set up anew |
| `EventEffects.LinkLostIff` | smap/smap.c:377-389 | in every run a check gives the link up if and only if it is at least the third of the timer since frames were received last, or since the thread began, and the PHY has none |
| `EventEffects.RelinkAnnouncedIff` | smap/smap.c:383-387 | the set-up that follows a lost link announces one exactly when it ends with one |
| `EventPackets.LoadIsCall` | smap/xfer.c:132-178 | the event thread's loading of lengths is, on packets, a call of HandleTxReqs, packetToSend included |
| `EventPackets.ClearIsXmit` | smap/smap.c:602-615 | and its clearing is what SMAPXmit does without a link |
| `EventRuns.PacketStranded` | smap/smap.c:472-484 | a run from the initial start, with frames finished only after TX_GNP_0 was written, that leaves a full-size packet queued with nothing to wake the thread |
| `EventThread.StartObeyedIff` | smap/smap.c:419-440 | a START is obeyed exactly when the stop flag is clear as it is taken and no SMAPStop sets it until the PHY is set up; then the driver is in service with a link that is announced and the timer running, otherwise the thread blocks |
| `EventRuns.StartIsLost` | smap/smap.c:591-600 | a run in which the flag of an earlier stop swallows a START |
| `PhyInit.Phy.WaitLink` | smap/smap.c:169-181 | ends with the first link that shows, or for a stop request; otherwise the link status is the old one up to five looks in vain, and cleared from then on |
| `PhyInit.Phy.PollLink` | smap/smap.c:218-224 | finds a link if and only if one shows within the limit, the last look excepted, and stops at the first |
| `PhyInit.Phy.TryNegotiation` | smap/smap.c:209-232 | a try succeeds if and only if negotiation is complete without a remote fault and a link shows at one of the next 20 looks, and ends with the first |
| `PhyInit.Phy.TrySpeed` | smap/smap.c:238-264 | a try at a fixed speed succeeds if and only if a link shows at one of the next 30 looks |
| `PhyInit.Phy.Negotiate` | smap/smap.c:208-266 | ends only with a link or a stop request, whatever the PHY answers; a negotiation complete at the first look is found with the first link after it, a PHY with a link that never completes one right after the third try; it is reported as still running only when the looks given are over |
| `PhyInit.Phy.Identify` | smap/smap.c:268-286 | the link is waited for again if and only if the PHY is a DP83846A set up by negotiation that shows a receive error or 17 false carriers |
| `PhyInit.Phy.InitPHY` | smap/smap.c:140-338 | every path that ends without a stop request has the link status set, except that a PHY in reset at the first look is given up, and only that; without negotiation it ends six looks after the first that shows a link; it is reported as still running only when the looks given are over |
| `ArpTable.VictimIs` | common/lwip/etharp.c:207-241 | a waiting entry is never given up; a confirmed one only when nothing is empty and none is older; nothing only when all wait |
| `ArpTable.UpdateRefines` | common/lwip/etharp.c:257-364 | learning a pair is binding it with age 0 in a map of at most ten addresses, 0.0.0.0 excepted |
| `ArpTable.QueryRefines` | common/lwip/etharp.c:670-704 | querying binds an unbound address as waiting with age 0 in that map |
| `ArpTable.TickRefines` | common/lwip/etharp.c:167-198 | a tick ages every binding by one and removes exactly those at their limit |
| `ArpTable.LookupRefines` | common/lwip/etharp.c:595-603 | the cache answers exactly the confirmed bindings |
| `ArpTable.CacheSize` | common/lwip/etharp.c:212-218 | the map is full exactly when no entry is empty |
| `ArpHistory.AlwaysGood` | common/lwip/etharp.c:168-198 | after every history no address has two live entries, confirmed ones are under 120 ticks old and waiting ones under 2 |
| `ArpHistory.KnownIsLastLearnt` | common/lwip/etharp.c:288-315 | after every history a confirmed entry is the pair learnt last for its address, its age exactly the ticks since, under 120 |
| `ArpHistory.AnswersIff` | common/lwip/etharp.c:257-364 | as long as no more than ten addresses occur, the cache answers if and only if the address was learnt under 120 ticks ago, and with the last pair |
| `ArpHistory.FewAddresses` | common/lwip/etharp.c:207-241 | with no more than ten addresses the table is a cache without bound: nothing is evicted |
| `ArpHistory.PendingLasts` | common/lwip/etharp.c:185-196 | an unanswered entry lasts until exactly the second tick, whatever else fills the table and however often it is queried |
| `ArpHistory.LearntIff` | common/lwip/etharp.c:324-353 | a pair learnt is answered if and only if its address was live or some entry was not waiting |
| `ArpFrames.LengthsOnWire` | common/lwip/etharp.c:117-121 | setting the two lengths leaves 06 04 in memory whatever the field held |
| `ArpFrames.ReplyOnWire` | common/lwip/etharp.c:451-472 | the reply is, byte for byte, the RFC 826 reply with sender and target exchanged |
| `ArpFrames.RequestOnWire` | common/lwip/etharp.c:723-743 | the request is the broadcast RFC 826 request |
| `ArpFrames.EtharpHdr.ExchangeAddresses` | common/lwip/etharp.c:457-462 | the byte loop moves each address before it overwrites it |
| `ArpFrames.EtharpHdr.Reply` | common/lwip/etharp.c:451-470 | the request is rewritten in place into the reply |
| `ArpFrames.EtharpHdr.Request` | common/lwip/etharp.c:723-743 | a buffer is filled into the request whatever it held |
| `ArpFrames.GroupMacLow23Bits` | common/lwip/etharp.c:565-574 | two groups share an Ethernet address exactly when their low 23 bits agree (RFC 1112 section 6.4) |
| `ArpFrames.GatewayIff` | common/lwip/etharp.c:580-594 | a packet for another network goes to the gateway exactly when its address is no group and has a host part not all ones |
| `ArpFrames.HostPartOfOnesBroadcasts` | common/include/ipv4/lwip/ip_addr.h:67-70 | any address with a host part of ones is broadcast on the local link |
| `ArpFrames.ForeignBroadcastStaysHere` | common/lwip/etharp.c:558-563 | 8.8.8.255 is broadcast locally by a host of 192.168.0.0/24 with a gateway |
| `ArpFrames.AllOnesMaskBroadcasts` | common/include/ipv4/lwip/ip_addr.h:67-70 | with a netmask of ones every address is broadcast |
| `ArpEffects.LocalGoesToItself` | common/lwip/etharp.c:577-617 | a packet for a host of the local network goes to the hardware address the cache has for that address, and if it has none, a query for that address |
| `ArpEffects.ForeignGoesToGateway` | common/lwip/etharp.c:580-594 | one for a host elsewhere does so with the gateway, and is dropped if there is none |
| `ArpEffects.GroupGoesToGroup` | common/lwip/etharp.c:565-574 | one for a group goes to 01:00:5E and the low 23 bits of its address in network order |
| `ArpEffects.RestGoesToAll` | common/lwip/etharp.c:558-563 | everything else goes to everyone |
| `ArpEffects.LocalReachesHost` | common/lwip/etharp.c:533-635 | in every honest run of a network what a host addresses to a host of its own network carries that host's real hardware address |
| `ArpEffects.ForeignReachesGateway` | common/lwip/etharp.c:533-635 | and what it addresses to a host elsewhere that of its gateway |
| `ArpEffects.AsksIff` | common/lwip/etharp.c:685-744 | a query asks exactly when its address is waiting afterwards |
| `ArpEffects.AnsweredIff` | common/lwip/etharp.c:434-475 | a packet is answered if and only if it is a request for this host's own address, which must be set; the answer is the RFC 826 reply to the asker |
| `ArpEffects.SenderLearntIff` | common/lwip/etharp.c:433-488 | the sender of a request, and of a reply for this host, is learnt exactly when the cache takes it |
| `ArpEffects.TargetLearntIff` | common/lwip/etharp.c:476-495 | from a reply for another host the receiver is learnt too |
| `ArpEffects.OthersIgnored` | common/lwip/etharp.c:440-445 | a host without an address learns nothing from requests, and nobody anything from other packets |
| `ArpEffects.IpSenderLearntIff` | common/lwip/etharp.c:381-399 | the sender of an Internet packet from the local network is learnt exactly when the cache takes it |
| `ArpEffects.ForeignSenderIgnored` | common/lwip/etharp.c:388-392 | one from elsewhere is not |
| `ArpModule.Etharp.EtharpTmr` | common/lwip/etharp.c:167-198 | the timer loop is the tick of the table |
| `ArpModule.Etharp.FindArpEntry` | common/lwip/etharp.c:207-241 | the two scans find the first empty entry, or else the last of the oldest confirmed ones |
| `ArpModule.Etharp.UpdateArpEntry` | common/lwip/etharp.c:257-364 | the scan and insertion are the update of the table |
| `ArpModule.Etharp.EtharpQuery` | common/lwip/etharp.c:662-754 | the table after a query, and that a request for the address goes out exactly when it waits and there is memory |
| `ArpModule.Etharp.EtharpArpInput` | common/lwip/etharp.c:416-507 | short packets do nothing; otherwise the table learns what the packet says and a request for this host becomes the reply |
| `ArpModule.Etharp.EtharpIpInput` | common/lwip/etharp.c:381-399 | only senders on the local network are learnt |
| `ArpModule.Etharp.EtharpOutput` | common/lwip/etharp.c:533-635 | the packet is addressed to everyone, the group or the next hop's cached address, or dropped; an unknown hop is queried |
| `ArpNetwork.StepTrue` | common/lwip/etharp.c:416-507 | every step of every host keeps all confirmed entries and all frames truthful |
| `ArpNetwork.NetworkTrue` | common/lwip/etharp.c:257-364 | in every run of any number of hosts, with frames lost, repeated or reordered and truthful frames injected, every confirmed entry is true and every frame on the wire truthful |
| `ArpNetwork.UnicastReachesNextHop` | common/lwip/etharp.c:533-635 | so every packet to one host is addressed to the real hardware address of its next hop |
| `ArpResolution.RunIsHistory` | common/lwip/etharp.c:416-507 | in every run of the network each host's cache is what its own history of ticks, learnt pairs and queries makes of it, so the results about histories hold there |
| `ArpResolution.ResolutionIff` | common/lwip/etharp.c:416-507 | a host sends for another's address and the request and the answer are delivered, with anything happening in between: the next packet carries the other host's address if and only if, as the answer arrived, the hop was in the cache or some entry was not waiting |
| `ArpResolution.Resolution` | common/lwip/etharp.c:433-488 | in particular if the host has not heard of that address otherwise and the answer arrives before the second tick of the entry |
| `ArpResolution.AnswerResolvesIff` | common/lwip/etharp.c:324-353 | an answer makes the next packet carry its address if and only if the hop is still in the cache or some entry is not waiting |
| `ArpResolution.AskedIsWaiting` | common/lwip/etharp.c:685-704 | an address a request goes out for is waiting, with age 0 if it was not bound before |
| `WakeUp.NextKeeps` | smap-linux/main.c:77-206 | every step of senders, interrupt handler and timer keeps the invariant of queue and semaphores |
| `WakeUp.Reachable` | smap-linux/main.c:306-375 | in every interleaving of any number of senders: accepted = disposed of ++ queued; iSendReq set only while the queue is full; at most one sender past iSendMutex; a blocked one is announced or signalled; the timeout has not been reached |
| `WakeUp.NoneLost` | smap-linux/main.c:306-375 | in every interleaving, of the times Send was called with a packet, each has ended with it accepted, or with an error or no connection, or the packet is in a thread's hands; iSendMutex is free exactly while nobody holds it |
| `WakeUp.WokenWithinThreeTicks` | smap-linux/main.c:242-267 | a sender still blocked after three timer ticks has been signalled, whatever else happens; it uses the signal up, gives iSendMutex back and tries the packet again that it was blocked with |
| `WakeUp.WaitsIff` | smap-linux/main.c:321-372 | a sender that found the queue full and gets iSendMutex waits, announced, exactly if it is full then too; otherwise it gives the mutex back and tries again |
| `WakeUp.TimerHandlesIff` | smap-linux/main.c:242-267 | in every run a tick calls the handler exactly if it is the third since the queue was empty last, an interrupt came, or a tick called it; any other changes nothing but the count |
| `WakeUp.SignalMeansRoomIff` | smap-linux/main.c:187-206 | the handler's signal means room exactly when it got a packet sent |
| `RequestQueue.Requests.StoreLast` | smap-linux/main.c:62-74 | the packet goes last in the ring and holds one more reference |
| `RequestQueue.Requests.AddToQueue` | smap-linux/main.c:77-138 | only an empty queue means trying at once; the result in every case; the fields become those of the protocol's step, and the thread has to wait exactly when told Tx |
| `RequestQueue.Requests.SendRequests` | smap-linux/main.c:141-184 | the queue is tried from the front up to the first lack of room; references beyond those of the ring never change |
| `RequestQueue.Requests.QueueHandler` | smap-linux/main.c:187-206 | that, and a waiting sender is signalled once: the protocol's handler step |
| `RequestQueue.Requests.Timer` | smap-linux/main.c:242-267 | the handler runs exactly at the third tick without one while packets wait: the protocol's timer step |
| `RequestQueue.SignalMeansRoomIff` | smap-linux/main.c:141-206 | the sender signalled finds room exactly when there is no link, or the head of the queue is over 1514 bytes, or the transmit ring has room for it as the driver counts |
| `LinuxTxRing.SendCoupledIff` | smap-linux/smap.c:1827-1836 | a send moves both windows alike if and only if fewer than 63 descriptors are active or it uses the memory up exactly |
| `LinuxTxRing.ReclaimCoupled` | smap-linux/smap.c:528-537 | so does giving back a descriptor |
| `LinuxTxRing.AlwaysCoupledIff` | smap-linux/smap.c:499-545 | all along a run the end pointer is the start pointer plus the rounded active lengths, modulo 4096, if and only if every send fits in that sense |
| `LinuxTxRing.WindowsPart` | smap-linux/smap.c:1784-1836 | it fails: 64 packets of 60 bytes are accepted, and then none counts as active |
| `LinuxTxRing.ResetChangesNothing` | smap-linux/smap.c:540-543 | while both windows go together the final assignment of the start pointer changes nothing |
| `LinuxTxRing.FreeSizeIff` | smap-linux/smap.c:486-496 | the computed free size is the true one if and only if the ring is not full and the window does not wrap or is exactly half full; wrapped, it is the space in use |
| `LinuxTxRing.RoomIff` | smap-linux/smap.c:1778-1791 | a packet has room exactly if it fits beside those in use, to the last byte, while the window does not wrap and is not full; if it is no longer than what is in use, while it wraps; always, when it is full |
| `LinuxTxRing.ReclaimsFinished` | smap-linux/smap.c:504-537 | an interrupt gives back the finished descriptors at the front of the window, clears them, and stops at the first that waits to be sent |
| `LinuxTxSafety.SafeIsIntact` | smap-linux/smap.c:1811-1831 | a safe ring holds every packet in flight byte for byte |
| `LinuxTxSafety.SendSafeIff` | smap-linux/smap.c:1778-1836 | a send keeps the ring safe if and only if fewer than 63 descriptors are active and it keeps to the space really free |
| `LinuxTxSafety.UnwrappedSendSafeIff` | smap-linux/smap.c:1784-1791 | while the window does not wrap and is not full, a send that passes the driver's own test does so if and only if fewer than 63 descriptors are active |
| `LinuxTxSafety.AlwaysSafeIff` | smap-linux/smap.c:499-545 | all along a run the ring holds, byte for byte, exactly the packets sent and not reclaimed, if and only if every permitted send meets those two conditions |
| `LinuxTxSafety.OverwritesIff` | smap-linux/smap.c:1703-1710 | a send writes into the memory window, the part the driver counts as used, exactly when it exceeds the rest |
| `LinuxTxIntact.SparesIff` | smap-linux/smap.c:1696-1711 | in any state a send, whatever it writes, leaves every packet ready to be sent as it was, if and only if it reaches the bytes of none of them |
| `LinuxTxIntact.IntactIff` | smap-linux/smap.c:1745-1841 | in a run no packet is lost before it has been sent, whatever the packets hold, if and only if every permitted send takes a descriptor that is not ready and reaches no packet that is |
| `LinuxTxIntact.KeptIsIntact` | smap-linux/smap.c:1745-1841 | so none is lost in a run that keeps to the space really free and fewer than 63 active descriptors: every ready descriptor reads the packet last sent through it |
| `LinuxTxIntact.EmptyWindowOverwrites` | smap-linux/smap.c:1784-1836 | after 64 packets of 60 bytes and an interrupt the window is empty and all are ready: a permitted send of 1500 bytes destroys the second |
| `LinuxTxIntact.WrappedSendOverwrites` | smap-linux/smap.c:1784-1836 | four full-size packets, the MAC ready each time: the fourth is permitted and destroys the second before it is sent |
| `LinuxTxRing.NoErrorIff` | smap-linux/smap.c:513-526 | no error is reported if and only if every packet in the window has been sent, and without error |
| `LinuxTxRing.RunNoErrorIff` | smap-linux/smap.c:499-545 | in every run |
| `LinuxTxDriver.Driver.ComputeFreeSize` | smap-linux/smap.c:486-496 | the field computation is the model's |
| `LinuxTxDriver.Driver.HandleTXInt` | smap-linux/smap.c:499-545 | reclaims up to the first waiting descriptor, final assignment included, and the error it reports, in every state |
| `LinuxTxDriver.Driver.CopyToTXBuffer` | smap-linux/smap.c:1682-1693 | the intermediate buffer begins with the bytes of the chain |
| `LinuxTxDriver.Driver.CopyToFIFO` | smap-linux/smap.c:1696-1711 | the words land at the end of the window |
| `LinuxTxDriver.Driver.Words` | smap-linux/smap.c:1804-1823 | by either path what is written begins with the packet |
| `LinuxTxDriver.Driver.Send` | smap-linux/smap.c:1745-1841 | each of the four statuses in exactly its case, no change unless sent, and then the send step with the packet's bytes |
| `PbufChain.CarriesIsJoined` | common/include/lwip/pbuf.h:70-74 | a chain with the tot_len invariant that carries a packet holds exactly its bytes, buffer after buffer |
| `KlsiFraming.DecodeEncode` | ps2klsi/ps2eth.c:139-163 | decoding an encoded packet gives it back whatever follows in the buffer |
| `KlsiFraming.EncodeDecode` | ps2klsi/ps2eth.c:184-208 | a buffer is the encoding of what it decodes to |
| `KlsiFraming.EncodedBytes` | ps2klsi/ps2eth.c:139-163 | the first byte is the length modulo 256, the second the length divided by 256, and the packet follows |
| `KlsiFraming.EthernetIf.LowLevelOutput` | ps2klsi/ps2eth.c:132-166 | what crosses the pipe is the encoding of the chain's bytes, for every chain of up to 1498 bytes |
| `KlsiFraming.LowLevelInput` | ps2klsi/ps2eth.c:176-209 | the allocated chain, of whatever shape, carries the decoded packet; without memory nothing is touched |
| `KlsiFraming.Carry` | ps2klsi/ps2eth.c:132-209 | sent by one adapter and received by another a packet arrives, whatever shapes the two chains have |
| `Checksum.FoldLoop` | ps2klsi/driver.c:165-168 | the fold loop ends and yields the ones' complement sum |
| `Checksum.Chksum` | ps2klsi/driver.c:95-110 | the loop sums the little-endian words, an odd last byte included, without overflowing 32 bits |
| `Checksum.FoldSwaps` | ps2klsi/driver.c:95-110 | the folded little-endian sum is the byte-swapped folded big-endian sum (RFC 1071 section 2(B)) |
| `Checksum.StoredIsChecksum` | ps2klsi/driver.c:164-169 | the complement the driver stores is in memory the checksum of RFC 1071 in network order |
| `Checksum.ReceiverAccepts` | ps2klsi/driver.c:164-189 | with the checksum in its field the sum over all bytes is 0xFFFF |
| `UdpLog.ReceiverSums` | ps2klsi/driver.c:163-189 | the receiver's sums over the Internet header and over pseudo-header and UDP are 0xFFFF for every text |
| `UdpLog.DatagramOctets` | ps2klsi/driver.c:130-176 | the octets of the datagram: the USB length is that of all behind it, the total length that of all behind the link header, the UDP length that of all from the UDP header on; both hardware and Internet addresses, types, time to live, ports and the text in their places |
| `UdpLog.ChecksumMissingIff` | ps2klsi/driver.c:178-189 | the datagram goes out with checksum 0 exactly when text and headers add up to a multiple of 0xFFFF |
| `UdpLog.HeaderSums` | ps2klsi/driver.c:171-184 | what pseudo-header and UDP header add up to for a text of n bytes |
| `UdpLog.ChecksumMissing` | ps2klsi/driver.c:189-189 | the text DqEr goes out without a checksum |
| `UdpLog.Logger.PutIp` | ps2klsi/driver.c:130-169 | the Internet header with the checksum of RFC 1071 in place |
| `UdpLog.Logger.PutUdp` | ps2klsi/driver.c:171-189 | the UDP header and text with the checksum over pseudo-header, header and text in place |
| `UdpLog.Logger.PseudoWords` | ps2klsi/driver.c:179-184 | the six words added are the little-endian sum of the pseudo-header |
| `UdpLog.Logger.Log` | ps2klsi/driver.c:119-194 | what crosses the pipe is the whole datagram, or nothing while logging is off |

## Left out

- Register addresses, delays, the EEPROM and MAC address reads, bring-up, link-mode calculation in `InitPHY`, USB probe and attach, firmware, argument parsing: nothing to prove beyond constants.
- `hwaddr_len` is taken to be 6, and the Ethernet address passed to `etharp_arp_input` to be the interface's own.
- The `ARP_QUEUEING` and DHCP branches of etharp.c, which the makefiles do not compile in.
- Deallocation: a packet buffer is a reference count that `pbuf_free` decrements; lwIP's allocator is not part of this model.
- EventThread.WaitingIsSafe: the initial start is one step before the run, since it happens before the thread has anything to do; a failed `InitPHY` for START ends the thread as in the code.
- EventThread.Load: whole calls of `HandleTxReqs`, `HandleTxIntr` and `ClearPacketQueue` are single steps of the event thread's machine; it keeps the lengths of packets, `EventPackets` relates them to those calls, and `TxRuns` keeps the bytes.
- PhyInit.Phy.InitPHY: the waits are followed for any finite number of looks at the PHY; one that would go on is reported as still running. What is written to the PHY is not modelled.
- TxRuns.Reachable: `ClearPacketQueue` is not one of its steps; it is modelled by itself in `LowLevelOutput`, because run in the middle of `HandleTxReqs` it takes packets off the queue behind that loop's back.
- TxRuns.EndToEnd: is about packets that are not queued already; for one that is, `PacketQueue.EnqueuedAppendsIff` says what the list loses.
- TxDriver.Driver.HandleTxReqs: interrupts and other threads do not interleave inside this method; `TxRuns` interleaves its passes, and within a pass the copying and the removal from the queue.
- RequestQueue.Requests.SendRequests: what SMap_Send answers is left open here; `LinuxTxDriver.Driver.Send` models it separately, and `RequestQueue.SignalMeansRoomIff` composes the two for the head of the queue.
- LinuxTxIntact.WrappedSendOverwrites: when the MAC clears its busy bit is left open; with a MAC that is busy until every descriptor has been sent, no packet is ready when one is sent and nothing is lost.
- LinuxTxDriver.Driver.Send: 16-bit registers and the MAC's ready poll are reduced to their outcome.
- `HandleRXInt` of smap-linux: the same kind of loop as `HandleRxIntr`, without counters.
- RxEngine.FillKeeps: where the hardware puts frames in its 16 KB memory is left open, as long as it does not overwrite frames not yet taken.
- UdpLog.Logger.Log: texts longer than 979 bytes, which overrun the buffer, are excluded; the code has no check.
- KlsiFraming.LowLevelInput: the buffer must hold what its first two bytes announce; the code ignores the length the USB transfer reports.
- KlsiFraming.EthernetIf.LowLevelOutput: packets over 1498 bytes, which overrun the output buffer, are excluded; the code has no check. The padding to 64 bytes computed at ps2klsi/ps2eth.c:153 is overwritten before use and not modelled.
