/** What the transmit counters count: reclaiming descriptors adds to each the number of frames its kind of error hit. */
module TxCounters {
  import opened Bytes
  import opened TxEngine

  function One(status: bv16, mask: bv16): nat {
    if status & mask != 0 then 1 else 0
  }

  /** What a reclaimed status adds: nothing, unless it shows an underrun, a late or the last possible collision,
      excessive deferral or loss of carrier; then one dropped frame, all bits set as errors, and one of each kind shown,
      collisions of every kind. */
  function Shown(status: bv16): TxStats {
    if status & 0x00F2 == 0 then TxStats(0, 0, 0, 0, 0, 0)
    else TxStats(1, BitCount(status), One(status, 0x0080), One(status, 0x0040), One(status, 0x003C),
                 One(status, 0x0002))
  }

  function Plus(a: TxStats, b: TxStats): TxStats {
    TxStats(a.dropped + b.dropped, a.errors + b.errors, a.losscr + b.losscr, a.edefer + b.edefer,
            a.collision + b.collision, a.underrun + b.underrun)
  }

  /** The first n descriptors in flight, added up. */
  function Total(r: Ring, n: nat): TxStats {
    if n == 0 then TxStats(0, 0, 0, 0, 0, 0)
    else Plus(Total(r, n - 1), Shown(r.bds[Slot(r.dnvIndex, n - 1)].ctrlStat))
  }

  /** The same, as far as the counters can count: two have 32 bits, four 16. */
  predicate Counts(st: TxStats, total: TxStats) {
    && Wrap32(st.dropped) == Wrap32(total.dropped) && Wrap32(st.errors) == Wrap32(total.errors)
    && Wrap16(st.losscr) == Wrap16(total.losscr) && Wrap16(st.edefer) == Wrap16(total.edefer)
    && Wrap16(st.collision) == Wrap16(total.collision) && Wrap16(st.underrun) == Wrap16(total.underrun)
  }

  lemma Up16(before: nat, n: nat, hit: bool)
    requires Wrap16(before) == Wrap16(n)
    ensures Wrap16(if hit then Wrap16(before + 1) else before) == Wrap16(n + if hit then 1 else 0)
  {
    Wrap16Again(before, 1);
    Wrap16Again(n, 1);
  }

  lemma Up32(before: nat, n: nat, k: nat)
    requires Wrap32(before) == Wrap32(n)
    ensures Wrap32(Wrap32(before + k)) == Wrap32(n + k)
  {
    Wrap32Again(before, k);
    Wrap32Again(n, k);
  }

  lemma DroppedCounted(st: TxStats, total: TxStats, status: bv16)
    requires Counts(st, total) && status & 0x00F2 != 0
    ensures var u, v := CountStatus(st, status), Plus(total, Shown(status));
            Wrap32(u.dropped) == Wrap32(v.dropped) && Wrap32(u.errors) == Wrap32(v.errors)
  {
    Up32(st.dropped, total.dropped, 1);
    Up32(st.errors, total.errors, BitCount(status));
  }

  lemma CarrierCounted(st: TxStats, total: TxStats, status: bv16)
    requires Counts(st, total) && status & 0x00F2 != 0
    ensures var u, v := CountStatus(st, status), Plus(total, Shown(status));
            Wrap16(u.losscr) == Wrap16(v.losscr) && Wrap16(u.edefer) == Wrap16(v.edefer)
  {
    Up16(st.losscr, total.losscr, status & 0x0080 != 0);
    Up16(st.edefer, total.edefer, status & 0x0040 != 0);
  }

  lemma CollisionCounted(st: TxStats, total: TxStats, status: bv16)
    requires Counts(st, total) && status & 0x00F2 != 0
    ensures var u, v := CountStatus(st, status), Plus(total, Shown(status));
            Wrap16(u.collision) == Wrap16(v.collision) && Wrap16(u.underrun) == Wrap16(v.underrun)
  {
    Up16(st.collision, total.collision, status & 0x003C != 0);
    Up16(st.underrun, total.underrun, status & 0x0002 != 0);
  }

  lemma OneCounted(st: TxStats, total: TxStats, status: bv16)
    requires Counts(st, total)
    ensures Counts(CountStatus(st, status), Plus(total, Shown(status)))
  {
    if status & 0x00F2 != 0 {
      DroppedCounted(st, total, status);
      CarrierCounted(st, total, status);
      CollisionCounted(st, total, status);
    } else {
      PlusMore(total, total, total);
    }
  }

  lemma PlusMore(a: TxStats, b: TxStats, c: TxStats)
    ensures Plus(Plus(a, b), c) == Plus(a, Plus(b, c)) && Plus(a, TxStats(0, 0, 0, 0, 0, 0)) == a
  {
  }

  lemma {:induction false} AllCounted(r: Ring, n: nat)
    ensures Counts(CountStatuses(r, n), Plus(r.stats, Total(r, n)))
    decreases n
  {
    if n == 0 {
      assert CountStatuses(r, 0) == r.stats;
    } else {
      var status := r.bds[Slot(r.dnvIndex, n - 1)].ctrlStat;
      AllCounted(r, n - 1);
      OneCounted(CountStatuses(r, n - 1), Plus(r.stats, Total(r, n - 1)), status);
      PlusMore(r.stats, Total(r, n - 1), Shown(status));
    }
  }

  /** So a call of HandleTxIntr adds to every counter what the frames it finds finished show, each once. */
  lemma CallCounts(r: Ring, fl: seq<Frame>, done: nat)
    requires Sound(r, fl) && done <= |fl| && Flags(r, done)
    ensures Counts(ReclaimAll(r).stats, Plus(r.stats, Total(r, done)))
  {
    ReclaimAllKeeps(r, fl, done);
    AllCounted(r, done);
  }
}
