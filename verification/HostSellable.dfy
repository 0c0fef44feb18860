/**
 One host's sellable packages with storage coupled in (shared/sellable/host_sellable.py).
 */
module HostSellable {
  import opened Prelude
  import opened Gate
  import opened Hosts

  datatype Thresholds = Thresholds(cpu: real, ram: real, storage: real)

  /** host_sellable.py:10-26, without the display tags. */
  datatype HostResult = HostResult(
    nMin: real, nMax: real, cpu: real, ram: real, storMin: real, storMax: real,
    wasteCpu: real, wasteRam: real, wasteStorMin: real, wasteStorMax: real, tlMin: real, tlMax: real)

  // ---------------------------------------------------------------- headroom

  /** An inventory of machines with no allocation recorded is unknown, not idle: host_sellable.py:144-146. */
  predicate Phantom(h: Host, taken: real) {
    h.vmCount > 0 && taken <= 0.0
  }

  /** host_sellable.py:103-113 */
  function CpuMaxHeadroom(h: Host, pct: real): real {
    Headroom(h.Or(CpuCapGhz, CpuTotal), h.Or(CpuUsedGhzPeak, CpuUsedGhz),
        h.Or3(CpuPeakUtilPct, CpuUsedPct, CpuUtilPct), pct)
  }

  /** host_sellable.py:116-127 */
  function RamMaxHeadroom(h: Host, pct: real): real {
    var cap := if h.Or(MemCapGbAtPeak, MemPeakTotal) != 0.0 then h.Or(MemCapGbAtPeak, MemPeakTotal)
        else h.Or(MemCapGb, RamTotal);
    Headroom(cap, h.Or(MemUsedGbPeak, MemPeakUsed), h.Or(MemPeakUtilPct, MemUsedPct), pct)
  }

  /** host_sellable.py:148-180 */
  function CpuHeadroom(h: Host, track: CpuTrack, pct: real): real {
    var cap := h.Or(CpuCapGhz, CpuTotal);
    match track
    case PhysicalCpu =>
      var taken := h.Or(CpuAllocGhzPhysical, CpuAllocPhys);
      if Phantom(h, taken) then 0.0 else Headroom(cap, taken, h.Or(CpuUsedPct, CpuUtilPct), pct)
    case MaxCpu => CpuMaxHeadroom(h, pct)
    case AvgCpu =>
      Max(Headroom(cap, h.FirstOf3(CpuUsedGhzAvg, CpuUsedGhzPeak, CpuUsedGhz),
                   h.FirstOf4(CpuAvgUtilPct, CpuPeakUtilPct, CpuUsedPct, CpuUtilPct), pct),
          CpuMaxHeadroom(h, pct))
    case Effective =>
      var taken := h.Or(CpuAllocGhz, CpuAlloc);
      if Phantom(h, taken) then 0.0 else Headroom(cap, taken, h.Or(CpuUsedPct, CpuUtilPct), pct)
  }

  /** host_sellable.py:182-208 */
  function RamHeadroom(h: Host, track: RamTrack, pct: real): real {
    match track
    case MaxRam => RamMaxHeadroom(h, pct)
    case AvgRam =>
      Max(Headroom(h.FirstOf4(MemCapGbAvg, MemCapGbAtPeak, MemCapGb, RamTotal),
          h.FirstOf3(MemUsedGbAvg, MemUsedGbPeak, MemPeakUsed),
                   h.FirstOf3(MemAvgUtilPct, MemPeakUtilPct, MemUsedPct), pct),
          RamMaxHeadroom(h, pct))
    case PhysicalRam =>
      var taken := h.Or(MemAllocGb, RamAlloc);
      if Phantom(h, taken) then 0.0 else Headroom(h.Or(MemCapGb, RamTotal), taken, h.Or(MemUsedPct, RamUtilPct), pct)
  }

  // ---------------------------------------------------------------- storage

  function SharedFree(mounts: seq<Mount>): real {
    if mounts == [] then 0.0
    else
      var m := mounts[|mounts| - 1];
      SharedFree(mounts[..|mounts| - 1]) + if m.shared && m.freeGb.Some? then m.freeGb.value else 0.0
  }

  /** Free storage of a host, its own or with its shared mounts. */
  function StorageFree(h: Host, includeShared: bool): real {
    if !includeShared then Max(h.At(StorExclusiveFreeGb), 0.0)
    else if h.mounts == [] && h.At(StorCapGb) > 0.0 then Max(h.At(StorCapGb) - h.Or(StorUsedHostGb, StorUsedGb), 0.0)
    else Max(h.At(StorExclusiveFreeGb) + SharedFree(h.mounts), 0.0)
  }

  /** host_sellable.py:60-73 */
  method HostStorageFreeGb(h: Host, includeShared: bool) returns (free: real)
    ensures free == StorageFree(h, includeShared)
  {
    var exclusive := h.At(StorExclusiveFreeGb);
    if !includeShared {
      return Max(exclusive, 0.0);
    }
    var shared := 0.0;
    for i := 0 to |h.mounts|
      invariant shared == SharedFree(h.mounts[..i])
    {
      assert h.mounts[..i + 1][..i] == h.mounts[..i];
      if h.mounts[i].shared && h.mounts[i].freeGb.Some? {
        shared := shared + h.mounts[i].freeGb.value;
      }
    }
    assert h.mounts[..|h.mounts|] == h.mounts;
    if h.mounts == [] && h.At(StorCapGb) > 0.0 {
      return Max(h.At(StorCapGb) - h.Or(StorUsedHostGb, StorUsedGb), 0.0);
    }
    free := Max(exclusive + shared, 0.0);
  }

  /** Sellable storage of a host: host_sellable.py:259-270. */
  function StorageRaw(h: Host, pct: real, includeShared: bool): real {
    var cap, free := h.At(StorCapGb), StorageFree(h, includeShared);
    if cap > 0.0 then
      var gate := Headroom(cap, Min(h.At(StorProvisionedGb), cap), h.At(StorUsedPct), pct);
      if free > 0.0 then Min(gate, free) else gate
    else free
  }

  // ---------------------------------------------------------------- packages

  function Least(x: Option<real>, y: Option<real>): Option<real> {
    if x == None then y else if y == None then x else Some(Min(x.value, y.value))
  }

  function Limit(raw: real, capacity: real, perUnit: real): Option<real> {
    if capacity > 0.0 && perUnit > 0.0 then Some(raw / perUnit) else None
  }

  /** The least of the limits that apply, 0 when none does. */
  function UnitLimits(rawCpu: real, rawRam: real, rawStor: real, ratio: Ratio, cpuCap: real, memCap: real,
                      storCap: real): real {
    var least := Least(Least(Limit(rawCpu, cpuCap, ratio.cpu), Limit(rawRam, memCap, ratio.ram)),
        Limit(rawStor, storCap, ratio.storage));
    if least == None then 0.0 else least.value
  }

  function Listed(limit: Option<real>): seq<real> {
    match limit case Some(x) => [x] case None => []
  }

  /** `min(limits)` */
  method LeastOf(limits: seq<real>) returns (n: real)
    requires limits != []
    ensures n in limits && forall x <- limits :: n <= x
  {
    n := limits[0];
    for i := 1 to |limits|
      invariant n in limits[..i] && forall j :: 0 <= j < i ==> n <= limits[j]
    {
      n := Min(n, limits[i]);
    }
  }

  lemma LeastIsLeast(x: Option<real>, y: Option<real>, z: Option<real>, n: real)
    requires var limits := Listed(x) + Listed(y) + Listed(z);
             n in limits && forall l <- limits :: n <= l
    ensures Least(Least(x, y), z) == Some(n)
  {
    var limits := Listed(x) + Listed(y) + Listed(z);
    assert x.Some? ==> x.value in limits;
    assert y.Some? ==> y.value in limits;
    assert z.Some? ==> z.value in limits;
  }

  /** host_sellable.py:29-47 */
  method UnitLimitsLoop(rawCpu: real, rawRam: real, rawStor: real, ratio: Ratio, cpuCap: real, memCap: real,
                        storCap: real)
    returns (n: real)
    ensures n == UnitLimits(rawCpu, rawRam, rawStor, ratio, cpuCap, memCap, storCap)
  {
    ghost var x, y := Limit(rawCpu, cpuCap, ratio.cpu), Limit(rawRam, memCap, ratio.ram);
    ghost var z := Limit(rawStor, storCap, ratio.storage);
    var limits: seq<real> := [];
    if cpuCap > 0.0 && ratio.cpu > 0.0 {
      limits := limits + [rawCpu / ratio.cpu];
    }
    assert limits == Listed(x);
    if memCap > 0.0 && ratio.ram > 0.0 {
      limits := limits + [rawRam / ratio.ram];
    }
    assert limits == Listed(x) + Listed(y);
    if storCap > 0.0 && ratio.storage > 0.0 {
      limits := limits + [rawStor / ratio.storage];
    }
    assert limits == Listed(x) + Listed(y) + Listed(z);
    if limits == [] {
      assert |Listed(x)| + |Listed(y)| + |Listed(z)| == 0;
      return 0.0;
    }
    n := LeastOf(limits);
    LeastIsLeast(x, y, z, n);
  }

  /** host_sellable.py:360-366 */
  predicate StorageInTriple(h: Host) {
    !h.clusterPool && !h.kmShared
  }

  /** What a host offers on one pair of tracks, and what limits it: host_sellable.py:243-273. */
  datatype Offer = Offer(
    cpu: real, ram: real, stor: real, storShared: real,
    cpuCap: real, memCap: real, storCap: real, noStorage: bool) {

    /** Packages on the host's own storage: host_sellable.py:273-284. */
    function UnitsMin(ratio: Ratio): real {
      if noStorage then 0.0 else UnitLimits(cpu, ram, stor, ratio, cpuCap, memCap, storCap)
    }

    /** Packages with shared mounts counted: host_sellable.py:285-293. */
    function UnitsMax(ratio: Ratio): real {
      UnitLimits(cpu, ram, storShared, ratio, cpuCap, memCap, storCap)
    }

    /** What the packages take of each resource and what they leave: host_sellable.py:297-333. */
    function Tally(nMin: real, nMax: real, ratio: Ratio, price: real): HostResult {
      HostResult(
        nMin, nMax, nMin * ratio.cpu, nMin * ratio.ram, nMin * ratio.storage, nMax * ratio.storage,
        Max(cpu - nMin * ratio.cpu, 0.0), Max(ram - nMin * ratio.ram, 0.0),
        Max(stor - nMin * ratio.storage, 0.0), Max(storShared - nMax * ratio.storage, 0.0),
        if price > 0.0 then nMin * price else 0.0, if price > 0.0 then nMax * price else 0.0)
    }

    /** host_sellable.py:273-333 */
    function Result(ratio: Ratio, includeShared: bool, price: real): HostResult {
      var nMax := UnitsMax(ratio);
      Tally(if includeShared then nMax else UnitsMin(ratio), nMax, ratio, price)
    }

    /** No figure is negative, and a host without storage has none to offer. */
    ghost predicate Sound() {
      cpu >= 0.0 && ram >= 0.0 && stor >= 0.0 && storShared >= 0.0 && (noStorage ==> stor == 0.0 && storCap > 0.0)
    }
  }

  function OfferOf(h: Host, t: Thresholds, cpu: CpuTrack, ram: RamTrack, inTriple: bool): Offer {
    var cap := h.At(StorCapGb);
    var stor := StorageRaw(h, t.storage, false);
    Offer(
      CpuHeadroom(h, cpu, t.cpu), RamHeadroom(h, ram, t.ram), stor, StorageRaw(h, t.storage, true),
      h.Or(CpuCapGhz, CpuTotal), h.Or(MemCapGb, RamTotal), if inTriple then cap else 0.0,
      cap > 0.0 && stor <= 0.0 && StorageFree(h, false) <= 0.0 && inTriple)
  }

  /** host_sellable.py:257-270 */
  method MeasureStorage(h: Host, pct: real) returns (freeMin: real, rawStor: real, rawStorMax: real)
    ensures freeMin == StorageFree(h, false)
    ensures rawStor == StorageRaw(h, pct, false) && rawStorMax == StorageRaw(h, pct, true)
  {
    freeMin := HostStorageFreeGb(h, false);
    var freeMax := HostStorageFreeGb(h, true);
    var cap, prov := h.At(StorCapGb), h.At(StorProvisionedGb);
    if cap > 0.0 && prov > cap {
      prov := cap;
    }
    if cap > 0.0 {
      var gate := Headroom(cap, prov, h.At(StorUsedPct), pct);
      rawStor := if freeMin > 0.0 then Min(gate, freeMin) else gate;
      rawStorMax := if freeMax > 0.0 then Min(gate, freeMax) else gate;
    } else {
      rawStor, rawStorMax := freeMin, freeMax;
    }
  }

  /** host_sellable.py:272-333 */
  method SettleOffer(o: Offer, ratio: Ratio, includeShared: bool, price: real) returns (r: HostResult)
    ensures r == o.Result(ratio, includeShared, price)
  {
    var nMin := 0.0;
    if !o.noStorage {
      nMin := UnitLimitsLoop(o.cpu, o.ram, o.stor, ratio, o.cpuCap, o.memCap, o.storCap);
    }
    var nMax := UnitLimitsLoop(o.cpu, o.ram, o.storShared, ratio, o.cpuCap, o.memCap, o.storCap);
    if includeShared {
      nMin := nMax;
    }
    r := o.Tally(nMin, nMax, ratio, price);
  }

  /** host_sellable.py:225-333 */
  method ComputeHostSellableUnits(
    h: Host, ratio: Ratio, t: Thresholds, cpu: CpuTrack, ram: RamTrack, includeShared: bool, inTriple: bool,
        price: real)
    returns (r: HostResult)
    ensures r == OfferOf(h, t, cpu, ram, inTriple).Result(ratio, includeShared, price)
  {
    var freeMin, rawStor, rawStorMax := MeasureStorage(h, t.storage);
    var cap := h.At(StorCapGb);
    var o := Offer(
      CpuHeadroom(h, cpu, t.cpu), RamHeadroom(h, ram, t.ram), rawStor, rawStorMax,
      h.Or(CpuCapGhz, CpuTotal), h.Or(MemCapGb, RamTotal), if inTriple then cap else 0.0,
      cap > 0.0 && rawStor <= 0.0 && freeMin <= 0.0 && inTriple);
    r := SettleOffer(o, ratio, includeShared, price);
  }

  // ---------------------------------------------------------------- facts

  ghost predicate NonNegative(ratio: Ratio) {
    ratio.cpu >= 0.0 && ratio.ram >= 0.0 && ratio.storage >= 0.0
  }

  lemma HeadroomTracks(h: Host, pct: real)
    ensures forall track :: CpuHeadroom(h, track, pct) >= 0.0
    ensures forall track :: RamHeadroom(h, track, pct) >= 0.0
    ensures CpuHeadroom(h, MaxCpu, pct) <= CpuHeadroom(h, AvgCpu, pct)
    ensures RamHeadroom(h, MaxRam, pct) <= RamHeadroom(h, AvgRam, pct)
  {
  }

  lemma LimitMono(x: real, y: real, capacity: real, perUnit: real)
    requires 0.0 <= x <= y
    ensures Limit(x, capacity, perUnit).Some? <==> Limit(y, capacity, perUnit).Some?
    ensures Limit(x, capacity, perUnit).Some?
            ==> 0.0 <= Limit(x, capacity, perUnit).value <= Limit(y, capacity, perUnit).value
  {
  }

  /** More of any resource never makes for fewer packages. */
  lemma UnitLimitsMono(
    c: real, c': real, r: real, r': real, s: real, s': real, ratio: Ratio, cpuCap: real, memCap: real, storCap: real)
    requires 0.0 <= c <= c' && 0.0 <= r <= r' && 0.0 <= s <= s'
    ensures 0.0 <= UnitLimits(c, r, s, ratio, cpuCap, memCap, storCap)
    ensures UnitLimits(c, r, s, ratio, cpuCap, memCap, storCap)
            <= UnitLimits(c', r', s', ratio, cpuCap, memCap, storCap)
  {
    LimitMono(c, c', cpuCap, ratio.cpu);
    LimitMono(r, r', memCap, ratio.ram);
    LimitMono(s, s', storCap, ratio.storage);
  }

  lemma OfferIsSound(h: Host, t: Thresholds, cpu: CpuTrack, ram: RamTrack, inTriple: bool)
    ensures OfferOf(h, t, cpu, ram, inTriple).Sound()
  {
  }

  /** `o` offers no more CPU and RAM than `p`, and the same storage under the same limits. */
  ghost predicate OffersLess(o: Offer, p: Offer) {
    o.cpu <= p.cpu && o.ram <= p.ram && p == o.(cpu := p.cpu, ram := p.ram)
  }

  lemma OfferMono(o: Offer, p: Offer, ratio: Ratio)
    requires o.Sound() && OffersLess(o, p)
    ensures 0.0 <= o.UnitsMin(ratio) <= p.UnitsMin(ratio)
  {
    UnitLimitsMono(o.cpu, p.cpu, o.ram, p.ram, o.stor, p.stor, ratio, o.cpuCap, o.memCap, o.storCap);
  }

  lemma MaxOffersLess(h: Host, t: Thresholds, inTriple: bool)
    ensures OffersLess(OfferOf(h, t, MaxCpu, MaxRam, inTriple), OfferOf(h, t, AvgCpu, AvgRam, inTriple))
  {
  }

  /** On every host the average track offers at least what the maximum track offers. */
  lemma HostMaxBelowAvg(h: Host, ratio: Ratio, t: Thresholds, inTriple: bool)
    ensures 0.0 <= OfferOf(h, t, MaxCpu, MaxRam, inTriple).UnitsMin(ratio)
            <= OfferOf(h, t, AvgCpu, AvgRam, inTriple).UnitsMin(ratio)
  {
    OfferIsSound(h, t, MaxCpu, MaxRam, inTriple);
    MaxOffersLess(h, t, inTriple);
    OfferMono(OfferOf(h, t, MaxCpu, MaxRam, inTriple), OfferOf(h, t, AvgCpu, AvgRam, inTriple), ratio);
  }

  // ---------------------------------------------------------------- coupling

  /** CPU or RAM limits the packages of this host. */
  predicate CanCompute(h: Host, ratio: Ratio) {
    (h.Or(CpuCapGhz, CpuTotal) > 0.0 && ratio.cpu > 0.0) || (h.Or(MemCapGb, RamTotal) > 0.0 && ratio.ram > 0.0)
  }

  /** Storage limits the packages of this host, and its provisioning and utilisation leave room for some. */
  predicate CanStore(h: Host, ratio: Ratio, t: Thresholds) {
    var cap := h.At(StorCapGb);
    ratio.storage > 0.0 && HasRoom(cap, Min(h.At(StorProvisionedGb), cap), h.At(StorUsedPct), t.storage)
  }

  /** Free space never closes storage: none at all falls back to the gated figure. */
  lemma StorageOpenExactly(h: Host, t: Thresholds)
    requires h.At(StorCapGb) > 0.0
    ensures var cap := h.At(StorCapGb);
            StorageRaw(h, t.storage, false) > 0.0
            <==> HasRoom(cap, Min(h.At(StorProvisionedGb), cap), h.At(StorUsedPct), t.storage)
  {
    var cap := h.At(StorCapGb);
    RoomMeansHeadroom(cap, Min(h.At(StorProvisionedGb), cap), h.At(StorUsedPct), t.storage);
  }

  lemma PullingStorageOut(o: Offer, ratio: Ratio)
    requires o.Sound()
    ensures var apart := o.(storCap := 0.0, noStorage := false);
            var limited := (o.cpuCap > 0.0 && ratio.cpu > 0.0) || (o.memCap > 0.0 && ratio.ram > 0.0);
            o.UnitsMin(ratio) <= apart.UnitsMin(ratio)
            <==> limited || !(o.storCap > 0.0 && ratio.storage > 0.0 && o.stor > 0.0)
    ensures 0.0 <= o.UnitsMin(ratio)
  {
  }

  /**
   Pulling a host's storage out of the coupling never lowers its packages, exactly when CPU or RAM
   limits it or its storage has no room: with no other limit the count falls to zero.
   */
  lemma MergedBelowSeparateExactly(h: Host, ratio: Ratio, t: Thresholds, cpu: CpuTrack, ram: RamTrack)
    ensures var merged, separate := OfferOf(h, t, cpu, ram, true), OfferOf(h, t, cpu, ram, false);
            && merged.UnitsMin(ratio) >= 0.0
            && (merged.UnitsMin(ratio) <= separate.UnitsMin(ratio) <==> CanCompute(h, ratio) || !CanStore(h, ratio, t))
  {
    OfferIsSound(h, t, cpu, ram, true);
    PullingStorageOut(OfferOf(h, t, cpu, ram, true), ratio);
    if h.At(StorCapGb) > 0.0 { StorageOpenExactly(h, t); }
  }

  /** A storage node: 100 GB, half of it free, and no CPU or RAM figures. */
  function StorageNode(): Host {
    Host(map[StorCapGb := 100.0, StorExclusiveFreeGb := 50.0], [], 0, false, false)
  }

  /** In packages of 10 GB it counts five with its storage coupled in, and none with it pulled out. */
  lemma PullingStorageOutCanLower(cpu: CpuTrack, ram: RamTrack)
    ensures var ratio, t := Ratio(1.0, 1.0, 10.0), Thresholds(80.0, 80.0, 80.0);
            && OfferOf(StorageNode(), t, cpu, ram, true).UnitsMin(ratio) == 5.0
            && OfferOf(StorageNode(), t, cpu, ram, false).UnitsMin(ratio) == 0.0
  {
    assert StorageRaw(StorageNode(), 80.0, false) == 50.0;
  }

  // ---------------------------------------------------------------- waste

  /** What a resource leaves over when `taken` of it is used. */
  ghost predicate Settled(raw: real, taken: real, waste: real) {
    raw == taken + waste && waste >= 0.0
  }

  /** The package count fits under every resource that limits it and is met by one of them. */
  lemma UnitLimitsTight(c: real, r: real, s: real, ratio: Ratio, cpuCap: real, memCap: real, storCap: real)
    requires ratio.cpu > 0.0 && ratio.ram > 0.0 && ratio.storage > 0.0 && cpuCap > 0.0 && memCap > 0.0
    ensures var n := UnitLimits(c, r, s, ratio, cpuCap, memCap, storCap);
            && n * ratio.cpu <= c && n * ratio.ram <= r && (storCap > 0.0 ==> n * ratio.storage <= s)
            && (n * ratio.cpu == c || n * ratio.ram == r || (storCap > 0.0 && n * ratio.storage == s))
  {
  }

  /**
   Each resource that limits the packages settles, the shared storage with its own count, and one is
   used up entirely.
   */
  ghost predicate Accounted(o: Offer, r: HostResult, includeShared: bool) {
    && Settled(o.cpu, r.cpu, r.wasteCpu) && Settled(o.ram, r.ram, r.wasteRam)
    && (o.storCap > 0.0 ==> Settled(o.storShared, r.storMax, r.wasteStorMax))
    && (o.storCap > 0.0 && !includeShared ==> Settled(o.stor, r.storMin, r.wasteStorMin))
    && (|| r.wasteCpu == 0.0 || r.wasteRam == 0.0
        || (o.storCap > 0.0 && (if includeShared then r.wasteStorMax else r.wasteStorMin) == 0.0))
  }

  /** `n` packages fit the three resources, and use one of them up. */
  ghost predicate FitsTight(n: real, c: real, r: real, s: real, ratio: Ratio, storLimits: bool) {
    && n * ratio.cpu <= c && n * ratio.ram <= r && (storLimits ==> n * ratio.storage <= s)
    && (n * ratio.cpu == c || n * ratio.ram == r || (storLimits && n * ratio.storage == s))
  }

  lemma UnitsMinFit(o: Offer, ratio: Ratio)
    requires o.Sound() && ratio.cpu > 0.0 && ratio.ram > 0.0 && ratio.storage > 0.0 && o.cpuCap > 0.0 && o.memCap > 0.0
    ensures FitsTight(o.UnitsMin(ratio), o.cpu, o.ram, o.stor, ratio, o.storCap > 0.0)
  {
    UnitLimitsTight(o.cpu, o.ram, o.stor, ratio, o.cpuCap, o.memCap, o.storCap);
  }

  lemma UnitsMaxFit(o: Offer, ratio: Ratio)
    requires ratio.cpu > 0.0 && ratio.ram > 0.0 && ratio.storage > 0.0 && o.cpuCap > 0.0 && o.memCap > 0.0
    ensures FitsTight(o.UnitsMax(ratio), o.cpu, o.ram, o.storShared, ratio, o.storCap > 0.0)
  {
    UnitLimitsTight(o.cpu, o.ram, o.storShared, ratio, o.cpuCap, o.memCap, o.storCap);
  }

  lemma TallyAccounted(o: Offer, nMin: real, nMax: real, ratio: Ratio, includeShared: bool, price: real)
    requires FitsTight(nMax, o.cpu, o.ram, o.storShared, ratio, o.storCap > 0.0)
    requires if includeShared then nMin == nMax else FitsTight(nMin, o.cpu, o.ram, o.stor, ratio, o.storCap > 0.0)
    ensures Accounted(o, o.Tally(nMin, nMax, ratio, price), includeShared)
  {
    var r := o.Tally(nMin, nMax, ratio, price);
    assert nMin * ratio.cpu == o.cpu ==> r.wasteCpu == 0.0;
    assert nMin * ratio.ram == o.ram ==> r.wasteRam == 0.0;
    assert nMin * ratio.storage == o.stor ==> r.wasteStorMin == 0.0;
    assert nMax * ratio.storage == o.storShared ==> r.wasteStorMax == 0.0;
  }

  lemma OfferAccounted(o: Offer, ratio: Ratio, includeShared: bool, price: real)
    requires o.Sound() && ratio.cpu > 0.0 && ratio.ram > 0.0 && ratio.storage > 0.0 && o.cpuCap > 0.0 && o.memCap > 0.0
    ensures Accounted(o, o.Result(ratio, includeShared, price), includeShared)
  {
    UnitsMinFit(o, ratio);
    UnitsMaxFit(o, ratio);
    var nMin := if includeShared then o.UnitsMax(ratio) else o.UnitsMin(ratio);
    TallyAccounted(o, nMin, o.UnitsMax(ratio), ratio, includeShared, price);
  }

  /**
   On a host with CPU and RAM, each resource that limits the packages splits into what the packages
   take and what is wasted, and at least one is used up entirely; so it is with shared mounts.
   */
  lemma WasteAccountsForRaw(
    h: Host, ratio: Ratio, t: Thresholds, cpu: CpuTrack, ram: RamTrack, includeShared: bool, inTriple: bool,
        price: real)
    requires ratio.cpu > 0.0 && ratio.ram > 0.0 && ratio.storage > 0.0
    requires h.Or(CpuCapGhz, CpuTotal) > 0.0 && h.Or(MemCapGb, RamTotal) > 0.0
    ensures var o := OfferOf(h, t, cpu, ram, inTriple);
            Accounted(o, o.Result(ratio, includeShared, price), includeShared)
  {
    OfferIsSound(h, t, cpu, ram, inTriple);
    OfferAccounted(OfferOf(h, t, cpu, ram, inTriple), ratio, includeShared, price);
  }
}
