/** The control flow of InitPHY in the smap driver: which waits it makes, when it gives up, and what it leaves as the
    link status. What the PHY answers is left open, and so is when another thread asks it to stop. */
module PhyInit {
  const BMCR_RST: bv16 := 0x8000
  const BMCR_ANEN: bv16 := 0x1000
  const BMSR_ANCP: bv16 := 0x0020
  const BMSR_REMOTE_FAULT: bv16 := 0x0010
  const BMSR_LINK: bv16 := 0x0004

  const PHY_IDR1_VAL: bv16 := 0x2000
  const PHY_IDR2_VAL: bv16 := 0x5C20
  const PHY_IDR2_MSK: bv16 := 0xFFF0

  /** What a look at the PHY finds: the register read, and whether the stop flag is set by then. */
  datatype Moment = Moment(value: bv16, stop: bool)

  /** How far a wait has come: it has what it waited for, it was told to stop, the PHY is broken, or it still waits
      when the moments given are over. */
  datatype Outcome = Done | Stopped | Broken | Running

  class Phy {
    const moments: seq<Moment>   // what will be found, as far as it goes
    var now: nat                 // how many looks have been taken
    var linkStatus: bool

    constructor (moments: seq<Moment>, linkStatus: bool)
      ensures this.moments == moments && now == 0 && this.linkStatus == linkStatus
    {
      this.moments, this.now, this.linkStatus := moments, 0, linkStatus;
    }

    ghost predicate Valid()
      reads this
    {
      now <= |moments|
    }

    /** The stop flag has been seen set since. */
    ghost predicate Told(from: nat)
      reads this
    {
      exists k :: from <= k <= now && k < |moments| && moments[k].stop
    }

    ghost predicate LinkAt(k: nat)
      requires k < |moments|
    {
      moments[k].value & BMSR_LINK != 0
    }

    /** None of these looks shows a link. */
    ghost predicate Vain(from: nat, to: nat)
      requires to <= |moments|
    {
      forall k :: from <= k < to ==> !LinkAt(k)
    }

    method Read() returns (ok: bool, value: bv16)
      requires Valid()
      modifies `now
      ensures Valid() && ok == (old(now) < |moments|)
      ensures ok ==> now == old(now) + 1 && value == moments[old(now)].value
      ensures !ok ==> now == old(now)
    {
      ok, value := now < |moments|, 0;
      if ok {
        value := moments[now].value;
        now := now + 1;
      }
    }

    /** The register shows automatic negotiation complete and no remote fault. */
    ghost predicate CompleteAt(k: nat)
      requires k < |moments|
    {
      moments[k].value & 0x0030 == 0x0020
    }

    /** A link shows within so many looks, and no stop is asked for before. */
    ghost predicate LinkWithin(from: nat, limit: nat) {
      exists k :: from <= k < from + limit && k < |moments| && LinkAt(k) && CalmUpTo(from, k)
    }

    ghost predicate CalmUpTo(from: nat, to: nat)
      requires to < |moments|
    {
      forall j :: from <= j <= to ==> !moments[j].stop
    }

    /** From here on every look shows a link, and no stop is asked for. */
    ghost predicate LinkedFrom(from: nat) {
      forall k :: from <= k < |moments| ==> LinkAt(k) && !moments[k].stop
    }

    method StopRequested() returns (stop: bool)
      requires Valid()
      ensures stop <==> now < |moments| && moments[now].stop
    {
      stop := now < |moments| && moments[now].stop;
    }

    /** Reads a number of registers whose contents do not matter here. */
    method ReadSome(n: nat) returns (ok: bool)
      requires Valid()
      modifies `now
      ensures Valid() && old(now) <= now && if ok then now == old(now) + n else now == |moments|
    {
      ok := true;
      var k := 0;
      while k < n && ok
        invariant Valid() && k <= n && old(now) <= now && if ok then now == old(now) + k else now == |moments|
      {
        var value;
        ok, value := Read();
        k := k + 1;
      }
    }

    /** WaitLink: waits until the PHY reports a link, however long that takes; after five looks in vain the link counts
        as lost. */
    method WaitLink() returns (r: Outcome)
      requires Valid()
      modifies `now, `linkStatus
      ensures Valid() && old(now) <= now && r != Broken
      ensures r == Done ==> linkStatus && old(now) < now && LinkAt(now - 1) && Vain(old(now), now - 1)
      ensures r != Done ==> Vain(old(now), now) && linkStatus == (old(linkStatus) && now - old(now) < 5)
      ensures r == Stopped ==> Told(old(now))
      ensures r == Running ==> now == |moments|
    {
      var i := 0;
      while true
        invariant Valid() && now == old(now) + i && Vain(old(now), now)
        invariant linkStatus == (old(linkStatus) && i < 5)
        decreases |moments| - now
      {
        var stop := StopRequested();
        if stop {
          return Stopped;
        }
        i := i + 1;
        var ok, value := Read();
        if !ok {
          return Running;
        }
        if value & BMSR_LINK != 0 {
          break;
        }
        if i >= 5 {
          linkStatus := false;
        }
      }
      linkStatus := true;
      r := Done;
    }

    /** Looks for a link up to a limit. A link that shows only at the last look of all counts as none. */
    method PollLink(limit: nat) returns (r: Outcome, up: bool)
      requires Valid()
      modifies `now
      ensures Valid() && old(now) <= now && r != Broken
      ensures r == Done ==> old(now) < now && Vain(old(now), now - 1)
      ensures r == Done ==> (up <==> exists k :: old(now) <= k < old(now) + limit && k < |moments| && LinkAt(k))
      ensures r == Done ==> if up then LinkAt(now - 1) else now == old(now) + limit + 1
      ensures r != Done ==> !up && Vain(old(now), now)
      ensures r == Stopped ==> Told(old(now))
      ensures r == Running ==> now == |moments|
    {
      up := false;
      var i := 0;
      while true
        invariant Valid() && now == old(now) + i && i <= limit && Vain(old(now), now)
        decreases |moments| - now
      {
        var ok, value := Read();
        if !ok {
          return Running, false;
        }
        if value & BMSR_LINK != 0 {
          assert LinkAt(now - 1);
          return Done, i < limit;
        }
        var stop := StopRequested();
        if stop {
          return Stopped, false;
        }
        if i >= limit {
          return Done, false;
        }
        i := i + 1;
      }
    }

    /** One try at automatic negotiation: it succeeds exactly if that is complete, without a remote fault, and a link
        shows at one of the next 20 looks. */
    method TryNegotiation() returns (r: Outcome, up: bool)
      requires Valid()
      modifies `now
      ensures Valid() && old(now) <= now && r != Broken
      ensures r == Done ==> old(now) < now && (up ==> LinkAt(now - 1))
      ensures r == Done ==> (up <==> CompleteAt(old(now)) &&
                                     exists k :: old(now) < k <= old(now) + 20 && k < |moments| && LinkAt(k))
      ensures r == Done && !CompleteAt(old(now)) ==> now == old(now) + 1
      ensures r == Done && up ==> old(now) + 1 < now && Vain(old(now) + 1, now - 1)
      ensures r != Done ==> Vain(old(now) + 1, now)
      ensures r == Stopped ==> Told(old(now))
      ensures r == Running ==> now == |moments|
    {
      up := false;
      var stop := StopRequested();
      if stop {
        return Stopped, false;
      }
      var ok, value := Read();
      if !ok {
        return Running, false;
      }
      r := Done;
      if value & (BMSR_ANCP | BMSR_REMOTE_FAULT) == BMSR_ANCP {
        r, up := PollLink(20);
      }
    }

    /** One try at a fixed speed: it succeeds exactly if a link shows at one of the next 30 looks. */
    method TrySpeed() returns (r: Outcome, up: bool)
      requires Valid()
      modifies `now
      ensures Valid() && old(now) <= now && r != Broken
      ensures r == Done ==> old(now) < now && (up ==> LinkAt(now - 1)) && Vain(old(now), now - 1)
      ensures r == Done ==> (up <==> exists k :: old(now) <= k < old(now) + 30 && k < |moments| && LinkAt(k))
      ensures r != Done ==> Vain(old(now), now)
      ensures r == Stopped ==> Told(old(now))
      ensures r == Running ==> now == |moments|
    {
      var stop := StopRequested();
      if stop {
        return Stopped, false;
      }
      r, up := PollLink(30);
    }

    /** Automatic negotiation is complete, and the first look after it that shows a link is among the next 20. */
    ghost predicate Negotiated(from: nat) {
      from < |moments| && CompleteAt(from) && !moments[from].stop && LinkWithin(from + 1, 20)
    }

    /** The next try. A negotiation complete by now is found with the first link after it, and a link that is there
        already ends a try at a fixed speed. */
    method Try(retries: nat) returns (r: Outcome, up: bool)
      requires Valid()
      modifies `now
      ensures Valid() && old(now) <= now && r != Broken
      ensures r == Done ==> old(now) < now && (up ==> LinkAt(now - 1))
      ensures r == Stopped ==> Told(old(now))
      ensures r == Running ==> now == |moments|
      ensures retries < 3 && Negotiated(old(now)) ==> r == Done && up && Vain(old(now) + 1, now - 1)
      ensures retries < 3 && LinkedFrom(old(now)) && old(now) + 1 < |moments| ==>
                r == Done && now == old(now) + if up then 2 else 1
      ensures retries >= 3 && LinkedFrom(old(now)) && old(now) < |moments| ==> r == Done && up && now == old(now) + 1
    {
      ghost var at := now;
      assert LinkedFrom(at) && at < |moments| ==> LinkAt(at);
      assert LinkedFrom(at) && at + 1 < |moments| ==> LinkAt(at + 1);
      if retries < 3 {
        r, up := TryNegotiation();
      } else {
        r, up := TrySpeed();
      }
    }

    /** Three tries at automatic negotiation, then one each at 100 and 10 Mbps, and again from the start. A negotiation
        complete at the first look is found with the first link after it, and a PHY that has a link but never completes
        one after the third try. */
    method Negotiate() returns (r: Outcome)
      requires Valid()
      modifies `now, `linkStatus
      ensures Valid() && old(now) <= now && r != Broken
      ensures r == Done ==> linkStatus && old(now) < now && LinkAt(now - 1)
      ensures r != Done ==> linkStatus == old(linkStatus)
      ensures r == Stopped ==> Told(old(now))
      ensures r == Running ==> now == |moments|
      ensures Negotiated(old(now)) ==> r == Done && Vain(old(now) + 1, now - 1)
      ensures LinkedFrom(old(now)) && old(now) + 4 <= |moments| ==> r == Done && now <= old(now) + 4
    {
      var retries, up := 0, false;
      while true
        invariant Valid() && old(now) <= now && linkStatus == old(linkStatus)
        invariant Negotiated(old(now)) ==> now == old(now) && retries == 0
        invariant LinkedFrom(old(now)) && old(now) + 4 <= |moments| ==> now == old(now) + retries && retries <= 3
        decreases |moments| - now
      {
        assert LinkedFrom(old(now)) ==> LinkedFrom(now);
        r, up := Try(retries);
        if r != Done {
          return r;
        }
        if up {
          linkStatus := true;
          return Done;
        }
        retries := if retries < 4 then retries + 1 else 0;
      }
    }

    /** Whether the PHY, now linked, has to be waited for again at a fixed speed: exactly if it is a DP83846A that
        negotiated and shows receive errors, or 17 or more false carriers. */
    method Identify(auto: bool) returns (ok: bool, again: bool)
      requires Valid()
      modifies `now
      ensures Valid() && old(now) <= now && (again ==> ok && auto)
      ensures ok ==> now == old(now) + 6 || now == old(now) + 10
      ensures ok ==> (now == old(now) + 10 <==> auto && moments[old(now) + 2].value == 0x2000 &&
                                                moments[old(now) + 3].value & 0xFFF0 == 0x5C20)
      ensures ok ==> (again <==> now == old(now) + 10 &&
                                 (moments[now - 1].value != 0 || moments[now - 2].value >= 0x11))
      ensures !ok ==> now == |moments|
    {
      again := false;
      ok := ReadSome(2);
      var idr1, idr2, fcscr, recr := 0, 0, 0, 0;
      if ok { ok, idr1 := Read(); }
      if ok { ok, idr2 := Read(); }
      if ok { ok := ReadSome(2); }
      if ok && auto && idr1 == PHY_IDR1_VAL && idr2 & PHY_IDR2_MSK == PHY_IDR2_VAL {
        ok := ReadSome(2);
        if ok { ok, fcscr := Read(); }
        if ok { ok, recr := Read(); }
        again := ok && (recr != 0 || fcscr >= 0x11);
      }
    }

    /** InitPHY. It gives up on the PHY if that is still in reset at the first look; otherwise it ends with a link, or
        because it was told to stop; without automatic negotiation, with the first link that shows, six looks after
        it. */
    method InitPHY(auto: bool, pinStrap: bool) returns (r: Outcome)
      requires Valid()
      modifies `now, `linkStatus
      ensures Valid() && old(now) <= now
      ensures r == Done ==> linkStatus
      ensures r == Stopped ==> Told(old(now))
      ensures r == Broken <==> old(now) < |moments| && moments[old(now)].value & BMCR_RST != 0
      ensures r == Broken ==> linkStatus == old(linkStatus)
      ensures r == Running ==> now == |moments|
      ensures !auto && r == Done ==> old(now) + 8 <= now && LinkAt(now - 7) && Vain(old(now) + 1, now - 7)
    {
      var ok, value := Read();
      if !ok {
        return Running;
      }
      if value & BMCR_RST != 0 {
        return Broken;
      }
      var fixed := !auto;
      if auto && pinStrap {
        ok, value := Read();
        fixed := value & BMCR_ANEN == 0;
      } else if auto {
        ok := ReadSome(2);
      }
      if !ok {
        return Running;
      }
      var again := true;
      while again
        invariant Valid() && old(now) < now && (!again ==> linkStatus)
        invariant !auto ==> fixed && (if again then now == old(now) + 1
                                      else old(now) + 8 <= now && LinkAt(now - 7) && Vain(old(now) + 1, now - 7))
        decreases |moments| - now
      {
        if fixed {
          r := WaitLink();
        } else {
          r := Negotiate();
        }
        if r != Done {
          return r;
        }
        ok, again := Identify(auto);
        if !ok {
          return Running;
        }
        fixed := fixed || again;
      }
      r := Done;
    }
  }
}
