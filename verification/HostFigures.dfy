/**
 How a host's keys are read and what storage it has to sell (shared/sellable/computation.py:448-457;
 shared/sellable/host_sellable.py:60-73, 103-208, 259-270).
 */
module HostFigures {
  import opened Prelude
  import opened Gate
  import opened Hosts
  import opened HostSellable

  /** A peak figure of zero falls through like one that is absent; an average of zero is a figure. */
  lemma ZeroPeakFallsThrough(h: Host)
    requires CpuUsedGhz in h.figures
    requires CpuUsedGhzPeak !in h.figures || h.figures[CpuUsedGhzPeak] == 0.0
    ensures h.Or(CpuUsedGhzPeak, CpuUsedGhz) == h.figures[CpuUsedGhz]
    ensures CpuUsedGhzAvg in h.figures ==>
              h.FirstOf3(CpuUsedGhzAvg, CpuUsedGhzPeak, CpuUsedGhz) == h.figures[CpuUsedGhzAvg]
    ensures CpuUsedGhzAvg !in h.figures && CpuUsedGhzPeak in h.figures ==>
              h.FirstOf3(CpuUsedGhzAvg, CpuUsedGhzPeak, CpuUsedGhz) == 0.0
  {
  }

  /** Shared mounts with a known figure add up, wherever they stand; others add nothing. */
  lemma {:induction false} MountsAddUp(x: seq<Mount>, y: seq<Mount>, m: Mount)
    ensures SharedFree(x + y) == SharedFree(x) + SharedFree(y)
    ensures SharedFree([m]) == if m.shared && m.freeGb.Some? then m.freeGb.value else 0.0
    ensures SharedFree([]) == 0.0
  {
    assert [m][..0] == [];
    if y == [] {
      assert x + y == x;
    } else {
      MountsAddUp(x, y[..|y| - 1], m);
      assert (x + y)[..|x + y| - 1] == x + y[..|y| - 1];
    }
  }

  /** `x` is the lesser of two bounds, the second only where it is positive. */
  ghost predicate LesserWhereOpen(x: real, gate: real, free: real) {
    x <= gate && (free > 0.0 ==> x <= free) && (x == gate || (free > 0.0 && x == free))
  }

  /** What the thresholds and the gate leave of a host's storage; provisioning counts up to the capacity. */
  lemma StorageToSellExactly(h: Host, pct: real, includeShared: bool)
    ensures var cap, taken, free := h.At(StorCapGb), h.At(StorProvisionedGb), StorageFree(h, includeShared);
            && free >= 0.0
            && (cap > 0.0 && taken <= cap ==>
                  LesserWhereOpen(StorageRaw(h, pct, includeShared),
                                  Headroom(cap, taken, h.At(StorUsedPct), pct), free))
            && (cap > 0.0 && taken > cap ==>
                  LesserWhereOpen(StorageRaw(h, pct, includeShared),
                                  Headroom(cap, cap, h.At(StorUsedPct), pct), free))
            && (cap <= 0.0 ==> StorageRaw(h, pct, includeShared) == free)
  {
  }

  /** Free space: the host's own, with the shared mounts if asked, or what is unused where no mounts are known. */
  lemma FreeExactly(h: Host)
    ensures h.At(StorExclusiveFreeGb) >= 0.0 ==> StorageFree(h, false) == h.At(StorExclusiveFreeGb)
    ensures h.At(StorExclusiveFreeGb) <= 0.0 ==> StorageFree(h, false) == 0.0
    ensures h.mounts == [] && h.At(StorCapGb) > 0.0 ==>
              var used := h.Or(StorUsedHostGb, StorUsedGb);
              && StorageFree(h, true) >= 0.0
              && (used <= h.At(StorCapGb) ==> StorageFree(h, true) + used == h.At(StorCapGb))
              && (used >= h.At(StorCapGb) ==> StorageFree(h, true) == 0.0)
    ensures h.mounts != [] || h.At(StorCapGb) <= 0.0 ==>
              var all := h.At(StorExclusiveFreeGb) + SharedFree(h.mounts);
              (all >= 0.0 ==> StorageFree(h, true) == all) && (all <= 0.0 ==> StorageFree(h, true) == 0.0)
  {
  }

  /** Machines without an allocation on record close the allocation tracks, and only those. */
  lemma UnknownAllocationCloses(h: Host, pct: real)
    requires h.vmCount > 0
    ensures h.Or(CpuAllocGhz, CpuAlloc) <= 0.0 ==> CpuHeadroom(h, Effective, pct) == 0.0
    ensures h.Or(CpuAllocGhzPhysical, CpuAllocPhys) <= 0.0 ==> CpuHeadroom(h, PhysicalCpu, pct) == 0.0
    ensures h.Or(MemAllocGb, RamAlloc) <= 0.0 ==> RamHeadroom(h, PhysicalRam, pct) == 0.0
    ensures var idle := h.(vmCount := 0);
            && (h.Or(CpuAllocGhz, CpuAlloc) > 0.0 ==>
                  CpuHeadroom(h, Effective, pct) == CpuHeadroom(idle, Effective, pct))
            && (h.Or(MemAllocGb, RamAlloc) > 0.0 ==>
                  RamHeadroom(h, PhysicalRam, pct) == RamHeadroom(idle, PhysicalRam, pct))
            && CpuHeadroom(h, MaxCpu, pct) == CpuHeadroom(idle, MaxCpu, pct)
            && RamHeadroom(h, MaxRam, pct) == RamHeadroom(idle, MaxRam, pct)
  {
  }

  /** The packages of a host are worth the unit price each, at both ends of the range; without a price nothing. */
  lemma PricedExactly(o: Offer, ratio: Ratio, includeShared: bool, price: real)
    requires o.Sound()
    ensures var r := o.Result(ratio, includeShared, price);
            && (price > 0.0 ==> Worth(r.tlMin, r.nMin, price) && Worth(r.tlMax, r.nMax, price) && r.tlMin >= 0.0)
            && (price <= 0.0 ==> r.tlMin == r.tlMax == 0.0)
            && (includeShared ==> r.nMin == r.nMax && r.tlMin == r.tlMax)
  {
    OfferMono(o, o, ratio);
    UnitsMaxNotNegative(o, ratio);
    var nMin := if includeShared then o.UnitsMax(ratio) else o.UnitsMin(ratio);
    TallyPriced(o, nMin, o.UnitsMax(ratio), ratio, price);
  }

  ghost predicate Worth(value: real, n: real, price: real) {
    value == n * price
  }

  lemma UnitsMaxNotNegative(o: Offer, ratio: Ratio)
    requires o.Sound()
    ensures o.UnitsMax(ratio) >= 0.0
  {
    UnitLimitsMono(o.cpu, o.cpu, o.ram, o.ram, o.storShared, o.storShared, ratio, o.cpuCap, o.memCap, o.storCap);
  }

  lemma TallyPriced(o: Offer, nMin: real, nMax: real, ratio: Ratio, price: real)
    requires nMin >= 0.0 && nMax >= 0.0
    ensures var r := o.Tally(nMin, nMax, ratio, price);
            && r.nMin == nMin && r.nMax == nMax
            && (price > 0.0 ==> Worth(r.tlMin, nMin, price) && Worth(r.tlMax, nMax, price) && r.tlMin >= 0.0)
            && (price <= 0.0 ==> r.tlMin == r.tlMax == 0.0)
            && (nMin == nMax ==> r.tlMin == r.tlMax)
  {
    if price > 0.0 { Scale(0.0, nMin, price); }
  }
}
