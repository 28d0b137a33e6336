/** A packet in several buffers, as the code that walks the chain sees it. */
module PbufChain {
  import opened Bytes

  class Link {
    const next: Link?
    const len: u16           // how many bytes the payload pointer designates
    const totLen: u16        // those, and those of the buffers that follow
    var payload: seq<u8>

    constructor (payload: seq<u8>, next: Link?)
      requires |payload| + (if next == null then 0 else next.totLen) < U16_RANGE
      ensures this.next == next && this.payload == payload && len == |payload|
      ensures totLen == len + if next == null then 0 else next.totLen
    {
      this.payload, this.next, this.len := payload, next, |payload|;
      this.totLen := |payload| + if next == null then 0 else next.totLen;
    }
  }

  /** Following `next` from the first of these buffers visits them all, each once, and tot_len says what is left. */
  predicate Chain(links: seq<Link>) {
    && (forall i :: 0 <= i < |links| ==> Linked(links, i))
    && (forall i, j :: 0 <= i < j < |links| ==> links[i] != links[j])
  }

  predicate Linked(links: seq<Link>, i: nat)
    requires i < |links|
  {
    && links[i].next == (if i + 1 < |links| then links[i + 1] else null)
    && links[i].totLen == links[i].len + (if i + 1 < |links| then links[i + 1].totLen else 0)
  }

  /** How many bytes of the packet come before the k-th buffer. */
  function Before(links: seq<Link>, k: nat): int
    requires links != [] && k <= |links|
  {
    links[0].totLen - if k < |links| then links[k].totLen else 0
  }

  lemma {:induction false} BeforeGrows(links: seq<Link>, k: nat)
    requires links != [] && Chain(links) && k < |links|
    ensures 0 <= Before(links, k) && Before(links, k + 1) == Before(links, k) + links[k].len <= links[0].totLen
    ensures Linked(links, k)
  {
    assert Linked(links, k);
    if k != 0 {
      BeforeGrows(links, k - 1);
    }
  }

  /** What the k-th buffer has of a packet. */
  function Part(links: seq<Link>, packet: seq<u8>, k: nat): seq<u8>
    requires k < |links|
  {
    var at := Before(links, k);
    if 0 <= at && at + links[k].len <= |packet| then packet[at..at + links[k].len] else []
  }

  /** The first n buffers hold their parts of the packet. */
  ghost predicate CarriesUpTo(links: seq<Link>, packet: seq<u8>, n: nat)
    requires n <= |links|
    reads links
  {
    forall k :: 0 <= k < n ==> links[k].payload == Part(links, packet, k)
  }

  ghost predicate Carries(links: seq<Link>, packet: seq<u8>)
    reads links
  {
    links != [] && |packet| == links[0].totLen && CarriesUpTo(links, packet, |links|)
  }

  /** The payloads one behind the other. */
  ghost function Joined(links: seq<Link>, n: nat): seq<u8>
    requires n <= |links|
    reads links
  {
    if n == 0 then [] else Joined(links, n - 1) + links[n - 1].payload
  }

  /** A chain that carries a packet holds exactly its bytes, buffer after buffer. */
  lemma CarriesIsJoined(links: seq<Link>, packet: seq<u8>)
    requires Chain(links) && Carries(links, packet)
    ensures Joined(links, |links|) == packet
  {
    JoinedUpTo(links, packet, |links|);
    assert packet[..|packet|] == packet;
  }

  lemma {:induction false} JoinedUpTo(links: seq<Link>, packet: seq<u8>, n: nat)
    requires Chain(links) && Carries(links, packet) && n <= |links|
    ensures 0 <= Before(links, n) <= |packet| && Joined(links, n) == packet[..Before(links, n)]
  {
    if n != 0 {
      JoinedUpTo(links, packet, n - 1);
      BeforeGrows(links, n - 1);
    }
  }

  /** A packet whose first buffer is as long as the packet lies in that buffer. */
  lemma InFirst(links: seq<Link>, packet: seq<u8>)
    requires Carries(links, packet) && links[0].len == links[0].totLen
    ensures links[0].payload == packet
  {
  }
}
