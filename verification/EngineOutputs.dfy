/**
 The figures that the two host engines put on a panel, said over the hosts' headroom and the storage
 pools (shared/sellable/computation.py:579-909; shared/sellable/host_sellable.py:336-357).
 */
module EngineOutputs {
  import opened Prelude
  import opened Gate
  import opened Hosts
  import opened HostSellable
  import opened Panels
  import opened Engines
  import opened EngineLaws
  import opened StorageCaps

  /** The panel the triple engine makes of `p`. */
  function Out(p: Panel, ratio: Ratio, hosts: seq<Host>, s: Settings): Panel {
    TriplePanel(p, TripleCountsOf(hosts, ratio, s), ratio, s.ramRaw, s.ramPeak)
  }

  /** Everything the engines leave as they found it. */
  ghost predicate KeepsRest(p: Panel, q: Panel) {
    && q.kind == p.kind && q.raw == p.raw && q.gateBlocked == p.gateBlocked
    && q.bottleneckKind == p.bottleneckKind && q.bottleneckUnits == p.bottleneckUnits
    && (p.kind != Storage ==> q.min == p.min && q.max == p.max && q.reason == p.reason)
    && (p.kind != Cpu && p.kind != Ram ==> q.physical == p.physical && q.effective == p.effective)
  }

  /** The headline figure is the allocation track, repeated in the older fields of CPU and RAM. */
  ghost predicate ShowsHeadline(q: Panel) {
    && Is(q.allocation, q.constrained) && q.hostBased
    && (q.kind == Cpu ==> Is(q.effective, q.constrained) && q.physical == None)
    && (q.kind == Ram ==> Is(q.physical, q.constrained) && q.maxUtil.Some? && Is(q.effective, q.maxUtil.value))
  }

  /** A CPU or RAM panel is marked exactly when it shows visibly less than the raw figure. */
  ghost predicate MarksBound(p: Panel, q: Panel, ramRaw: Option<real>, ramPeak: Option<real>) {
    && (q.kind == Cpu ==> (q.ratioBound <==> q.constrained + QTY_SLACK < p.raw))
    && (q.kind == Ram ==>
          && q.maxUtil.Some?
          && (q.ratioBound <==> || q.constrained + QTY_SLACK < OrElse(ramRaw, p.raw)
                                || q.maxUtil.value + QTY_SLACK < OrElse(ramPeak, p.raw)))
  }

  /** Triple engine: every panel shows its allocation track as its headline figure. */
  lemma HeadlineIsAllocation(p: Panel, ratio: Ratio, hosts: seq<Host>, s: Settings)
    ensures var q := Out(p, ratio, hosts, s);
            && KeepsRest(p, q) && (p.kind != OtherKind ==> ShowsHeadline(q)) && MarksBound(p, q, s.ramRaw, s.ramPeak)
            && (p.kind == Storage ==> && (q.ratioBound <==> q.constrained + QTY_SLACK < p.raw)
                                      && q.reason == if q.ratioBound then RatioReason else NoReason)
            && (p.kind == OtherKind ==> q == p.(constrained := p.raw, ratioBound := false))
  {
  }

  // ---------------------------------------------------------------- one package count a track

  function CpuOf(track: Track): CpuTrack {
    match track case Allocation => Effective case MaxUtil => MaxCpu case AvgUtil => AvgCpu
  }

  function RamOf(track: Track): RamTrack {
    match track case Allocation => PhysicalRam case MaxUtil => MaxRam case AvgUtil => AvgRam
  }

  /** The packages of all hosts on a track. */
  function Count(ratio: Ratio, hosts: seq<Host>, s: Settings, track: Track): real {
    SumMin(Results(hosts, ratio, s, CpuOf(track), RamOf(track)))
  }

  /** What `n` packages take of storage, from a cluster's pool no more than it holds. */
  function StorageFor(n: real, ratio: Ratio, s: Settings): real {
    match s.clusterStorage
    case Some(pool) => Min(Max(pool, 0.0), n * ratio.storage)
    case None => n * ratio.storage
  }

  /** The engine's figures of a track are those of `n` packages. */
  ghost predicate CountedAs(c: TripleCounts, track: Track, n: real, ratio: Ratio, s: Settings) {
    && n >= 0.0 && CountOn(c, track) == n && StorageOf(c, track) == StorageFor(n, ratio, s)
  }

  function StorageOf(c: TripleCounts, track: Track): real {
    match track case Allocation => c.storAlloc case MaxUtil => c.storMax case AvgUtil => c.storAvg
  }

  lemma StorageForTrack(own: real, n: real, ratio: Ratio, s: Settings)
    requires NonNegative(ratio) && n >= 0.0 && own == n * ratio.storage
    ensures TrackStorage(own, n, ratio, s) == StorageFor(n, ratio, s)
  {
    Scale(0.0, n, ratio.storage);
    assert Max(TrackBottleneck(n, n), 0.0) == n;
  }

  lemma PackagedStorage(results: seq<HostResult>, ratio: Ratio, s: Settings)
    requires NonNegative(ratio) && forall r <- results :: Packaged(r, ratio)
    ensures SumMin(results) >= 0.0
    ensures TrackStorage(SumStorage(results), SumMin(results), ratio, s) == StorageFor(SumMin(results), ratio, s)
  {
    SumsPackaged(results, ratio);
    StorageForTrack(SumStorage(results), SumMin(results), ratio, s);
  }

  lemma StorageOnTrackIs(ratio: Ratio, hosts: seq<Host>, s: Settings, cpu: CpuTrack, ram: RamTrack)
    requires NonNegative(ratio)
    ensures var results := Results(hosts, ratio, s, cpu, ram);
            SumMin(results) >= 0.0
            && TrackStorage(SumStorage(results), SumMin(results), ratio, s) == StorageFor(SumMin(results), ratio, s)
  {
    ResultsPackaged(hosts, ratio, s, cpu, ram);
    PackagedStorage(Results(hosts, ratio, s, cpu, ram), ratio, s);
  }

  lemma CountedOn(ratio: Ratio, hosts: seq<Host>, s: Settings, track: Track)
    requires NonNegative(ratio)
    ensures CountedAs(TripleCountsOf(hosts, ratio, s), track, Count(ratio, hosts, s, track), ratio, s)
  {
    TrackStorages(hosts, ratio, s);
    StorageOnTrackIs(ratio, hosts, s, CpuOf(track), RamOf(track));
  }

  /** The panel shows `v` on the track. */
  ghost predicate ShowsOn(q: Panel, track: Track, v: real) {
    Is(Shown(Some(q), track), v)
  }

  /** What `n` packages come to on a panel. */
  ghost predicate ShowsPackages(q: Panel, track: Track, n: real, ratio: Ratio, s: Settings) {
    && (q.kind == Cpu ==> ShowsOn(q, track, n * ratio.cpu))
    && (q.kind == Ram ==> ShowsOn(q, track, n * ratio.ram))
    && (q.kind == Storage ==> ShowsOn(q, track, StorageFor(n, ratio, s)))
  }

  lemma PanelShows(p: Panel, c: TripleCounts, n: real, ratio: Ratio, s: Settings, track: Track)
    requires CountedAs(c, track, n, ratio, s)
    ensures TriplePanel(p, c, ratio, s.ramRaw, s.ramPeak).kind == p.kind
    ensures ShowsPackages(TriplePanel(p, c, ratio, s.ramRaw, s.ramPeak), track, n, ratio, s)
  {
  }

  /**
   Triple engine: one number of packages a track, the sum over the hosts, is behind the CPU, the RAM
   and the storage panel. Storage is what those packages take, from a cluster's pool no more than it
   holds; an IBM range changes none of this.
   */
  lemma OneCountBehindPanels(p: Panel, ratio: Ratio, hosts: seq<Host>, s: Settings, track: Track)
    requires NonNegative(ratio)
    ensures Count(ratio, hosts, s, track) >= 0.0 && Out(p, ratio, hosts, s).kind == p.kind
    ensures ShowsPackages(Out(p, ratio, hosts, s), track, Count(ratio, hosts, s, track), ratio, s)
  {
    CountedOn(ratio, hosts, s, track);
    PanelShows(p, TripleCountsOf(hosts, ratio, s), Count(ratio, hosts, s, track), ratio, s, track);
  }

  // ---------------------------------------------------------------- the count over the hosts

  lemma {:induction false} SumMinConcat(x: seq<HostResult>, y: seq<HostResult>)
    ensures SumMin(x + y) == SumMin(x) + SumMin(y)
  {
    if y == [] {
      assert x + y == x;
    } else {
      SumMinConcat(x, y[..|y| - 1]);
      assert x + y == (x + y[..|y| - 1]) + [y[|y| - 1]];
      SumMinAppend(x + y[..|y| - 1], y[|y| - 1]);
    }
  }

  /** Hosts lend each other nothing: the packages of two groups of hosts add up. */
  lemma HostsAddUp(ratio: Ratio, x: seq<Host>, y: seq<Host>, s: Settings, track: Track)
    ensures Count(ratio, x + y, s, track) == Count(ratio, x, s, track) + Count(ratio, y, s, track)
    ensures Count(ratio, [], s, track) == 0.0
  {
    var cpu, ram := CpuOf(track), RamOf(track);
    assert Results(x + y, ratio, s, cpu, ram) == Results(x, ratio, s, cpu, ram) + Results(y, ratio, s, cpu, ram);
    SumMinConcat(Results(x, ratio, s, cpu, ram), Results(y, ratio, s, cpu, ram));
  }

  lemma CountOfOne(ratio: Ratio, h: Host, s: Settings, track: Track)
    ensures Count(ratio, [h], s, track) == OfferOf(h, s.t, CpuOf(track), RamOf(track), InTriple(h, s)).UnitsMin(ratio)
  {
    assert [h][..0] == [];
    SumMinLast([h], ratio, s, CpuOf(track), RamOf(track));
  }

  /** Storage limits the packages of this host. */
  predicate StorageCounts(h: Host, s: Settings) {
    InTriple(h, s) && h.At(StorCapGb) > 0.0
  }

  /** `n` packages of one host stay within its headroom, and use up CPU, RAM or the storage that counts. */
  ghost predicate FillsUp(n: real, ratio: Ratio, h: Host, s: Settings, track: Track) {
    FitsTight(n, CpuHeadroom(h, CpuOf(track), s.t.cpu), RamHeadroom(h, RamOf(track), s.t.ram),
              StorageRaw(h, s.t.storage, false), ratio, StorageCounts(h, s))
  }

  lemma OfferParts(h: Host, t: Thresholds, cpu: CpuTrack, ram: RamTrack, inTriple: bool)
    ensures var o := OfferOf(h, t, cpu, ram, inTriple);
            && o.Sound()
            && o.cpu == CpuHeadroom(h, cpu, t.cpu) && o.ram == RamHeadroom(h, ram, t.ram)
            && o.stor == StorageRaw(h, t.storage, false)
            && o.cpuCap == h.Or(CpuCapGhz, CpuTotal) && o.memCap == h.Or(MemCapGb, RamTotal)
            && (o.storCap > 0.0 <==> inTriple && h.At(StorCapGb) > 0.0)
  {
    OfferIsSound(h, t, cpu, ram, inTriple);
  }

  lemma OfferFillsUp(o: Offer, ratio: Ratio, c: real, r: real, stor: real, storCounts: bool)
    requires o.Sound() && Positive(ratio) && o.cpuCap > 0.0 && o.memCap > 0.0
    requires o.cpu == c && o.ram == r && o.stor == stor && (o.storCap > 0.0 <==> storCounts)
    ensures FitsTight(o.UnitsMin(ratio), c, r, stor, ratio, storCounts)
  {
    UnitsMinFit(o, ratio);
  }

  /** One host with CPU and RAM sells all it can: its packages fit, and one resource is used up. */
  lemma OneHostFillsUp(ratio: Ratio, h: Host, s: Settings, track: Track)
    requires Positive(ratio) && h.Or(CpuCapGhz, CpuTotal) > 0.0 && h.Or(MemCapGb, RamTotal) > 0.0
    ensures FillsUp(Count(ratio, [h], s, track), ratio, h, s, track)
  {
    CountOfOne(ratio, h, s, track);
    var inTriple := InTriple(h, s);
    OfferParts(h, s.t, CpuOf(track), RamOf(track), inTriple);
    OfferFillsUp(OfferOf(h, s.t, CpuOf(track), RamOf(track), inTriple), ratio,
                 CpuHeadroom(h, CpuOf(track), s.t.cpu), RamHeadroom(h, RamOf(track), s.t.ram),
                 StorageRaw(h, s.t.storage, false), StorageCounts(h, s));
  }

  /** Where nothing is forced, storage counts on exactly the hosts that own it, and on none beside a cluster pool. */
  lemma DefaultCoupling(ratio: Ratio, hosts: seq<Host>, s: Settings, track: Track)
    requires forall h <- hosts :: s.coupling(h) == None
    ensures var owns := (h: Host) => Some(s.clusterStorage == None && !h.clusterPool && !h.kmShared);
            Count(ratio, hosts, s, track) == Count(ratio, hosts, s.(coupling := owns), track)
  {
    var owns := (h: Host) => Some(s.clusterStorage == None && !h.clusterPool && !h.kmShared);
    var cpu, ram := CpuOf(track), RamOf(track);
    var s' := s.(coupling := owns);
    forall i | 0 <= i < |hosts|
      ensures Results(hosts, ratio, s, cpu, ram)[i] == Results(hosts, ratio, s', cpu, ram)[i]
    {
      assert hosts[i] in hosts;
      assert InTriple(hosts[i], s) == InTriple(hosts[i], s');
    }
    assert Results(hosts, ratio, s, cpu, ram) == Results(hosts, ratio, s', cpu, ram);
  }

  ghost function Sum(x: seq<real>): real {
    if x == [] then 0.0 else Sum(x[..|x| - 1]) + x[|x| - 1]
  }

  /** Each host's CPU headroom on a track. */
  ghost function CpuRooms(hosts: seq<Host>, s: Settings, cpu: CpuTrack): seq<real> {
    seq(|hosts|, i requires 0 <= i < |hosts| => CpuHeadroom(hosts[i], cpu, s.t.cpu))
  }

  ghost function RamRooms(hosts: seq<Host>, s: Settings, ram: RamTrack): seq<real> {
    seq(|hosts|, i requires 0 <= i < |hosts| => RamHeadroom(hosts[i], ram, s.t.ram))
  }

  ghost predicate AllHaveCpu(hosts: seq<Host>) {
    forall h <- hosts :: h.Or(CpuCapGhz, CpuTotal) > 0.0
  }

  ghost predicate AllHaveRam(hosts: seq<Host>) {
    forall h <- hosts :: h.Or(MemCapGb, RamTotal) > 0.0
  }

  /** `n` packages of size `perUnit` fit into `room`. */
  ghost predicate Within(n: real, perUnit: real, room: real) {
    n * perUnit <= room
  }

  lemma PositiveQuotient(x: real, d: real)
    requires x >= 0.0 && d > 0.0
    ensures x / d > 0.0 <==> x > 0.0
  {
  }

  lemma UnitsBelowQuotients(o: Offer, ratio: Ratio)
    requires o.Sound()
    ensures o.cpuCap > 0.0 && ratio.cpu > 0.0 ==> o.UnitsMin(ratio) <= o.cpu / ratio.cpu
    ensures o.memCap > 0.0 && ratio.ram > 0.0 ==> o.UnitsMin(ratio) <= o.ram / ratio.ram
  {
    if ratio.cpu > 0.0 { PositiveQuotient(o.cpu, ratio.cpu); }
    if ratio.ram > 0.0 { PositiveQuotient(o.ram, ratio.ram); }
  }

  lemma QuotientWithin(n: real, room: real, perUnit: real)
    requires perUnit >= 0.0 && room >= 0.0 && (perUnit > 0.0 ==> n <= room / perUnit)
    ensures Within(n, perUnit, room)
  {
    if perUnit > 0.0 { FitsAsLimit(room, perUnit, n); }
  }

  lemma OfferWithin(o: Offer, ratio: Ratio, price: real)
    requires o.Sound() && NonNegative(ratio)
    ensures o.cpuCap > 0.0 ==> Within(o.Result(ratio, false, price).nMin, ratio.cpu, o.cpu)
    ensures o.memCap > 0.0 ==> Within(o.Result(ratio, false, price).nMin, ratio.ram, o.ram)
  {
    ResultUnits(o, ratio, price);
    UnitsBelowQuotients(o, ratio);
    if o.cpuCap > 0.0 { QuotientWithin(o.UnitsMin(ratio), o.cpu, ratio.cpu); }
    if o.memCap > 0.0 { QuotientWithin(o.UnitsMin(ratio), o.ram, ratio.ram); }
  }

  lemma HostWithin(ratio: Ratio, h: Host, s: Settings, cpu: CpuTrack, ram: RamTrack)
    requires NonNegative(ratio)
    ensures h.Or(CpuCapGhz, CpuTotal) > 0.0 ==>
              Within(ResultOf(h, ratio, s, cpu, ram).nMin, ratio.cpu, CpuHeadroom(h, cpu, s.t.cpu))
    ensures h.Or(MemCapGb, RamTotal) > 0.0 ==>
              Within(ResultOf(h, ratio, s, cpu, ram).nMin, ratio.ram, RamHeadroom(h, ram, s.t.ram))
  {
    OfferParts(h, s.t, cpu, ram, InTriple(h, s));
    OfferWithin(OfferOf(h, s.t, cpu, ram, InTriple(h, s)), ratio, s.price);
  }

  ghost predicate AllWithin(results: seq<HostResult>, perUnit: real, rooms: seq<real>) {
    |results| == |rooms| && forall i :: 0 <= i < |rooms| ==> Within(results[i].nMin, perUnit, rooms[i])
  }

  lemma {:induction false} SumWithin(results: seq<HostResult>, perUnit: real, rooms: seq<real>)
    requires AllWithin(results, perUnit, rooms)
    ensures Within(SumMin(results), perUnit, Sum(rooms))
  {
    if results != [] {
      var k := |results| - 1;
      SumWithin(results[..k], perUnit, rooms[..k]);
      assert Within(results[k].nMin, perUnit, rooms[k]);
      Distribute(SumMin(results[..k]), results[k].nMin, perUnit);
    }
  }

  lemma HostsWithinCpu(ratio: Ratio, hosts: seq<Host>, s: Settings, cpu: CpuTrack, ram: RamTrack)
    requires NonNegative(ratio) && AllHaveCpu(hosts)
    ensures AllWithin(Results(hosts, ratio, s, cpu, ram), ratio.cpu, CpuRooms(hosts, s, cpu))
  {
    forall i | 0 <= i < |hosts|
      ensures Within(Results(hosts, ratio, s, cpu, ram)[i].nMin, ratio.cpu, CpuRooms(hosts, s, cpu)[i])
    {
      assert hosts[i] in hosts;
      HostWithin(ratio, hosts[i], s, cpu, ram);
    }
  }

  lemma HostsWithinRam(ratio: Ratio, hosts: seq<Host>, s: Settings, cpu: CpuTrack, ram: RamTrack)
    requires NonNegative(ratio) && AllHaveRam(hosts)
    ensures AllWithin(Results(hosts, ratio, s, cpu, ram), ratio.ram, RamRooms(hosts, s, ram))
  {
    forall i | 0 <= i < |hosts|
      ensures Within(Results(hosts, ratio, s, cpu, ram)[i].nMin, ratio.ram, RamRooms(hosts, s, ram)[i])
    {
      assert hosts[i] in hosts;
      HostWithin(ratio, hosts[i], s, cpu, ram);
    }
  }

  lemma CountWithinCpu(ratio: Ratio, hosts: seq<Host>, s: Settings, track: Track)
    requires NonNegative(ratio) && AllHaveCpu(hosts)
    ensures Within(Count(ratio, hosts, s, track), ratio.cpu, Sum(CpuRooms(hosts, s, CpuOf(track))))
  {
    HostsWithinCpu(ratio, hosts, s, CpuOf(track), RamOf(track));
    SumWithin(Results(hosts, ratio, s, CpuOf(track), RamOf(track)), ratio.cpu, CpuRooms(hosts, s, CpuOf(track)));
  }

  lemma CountWithinRam(ratio: Ratio, hosts: seq<Host>, s: Settings, track: Track)
    requires NonNegative(ratio) && AllHaveRam(hosts)
    ensures Within(Count(ratio, hosts, s, track), ratio.ram, Sum(RamRooms(hosts, s, RamOf(track))))
  {
    HostsWithinRam(ratio, hosts, s, CpuOf(track), RamOf(track));
    SumWithin(Results(hosts, ratio, s, CpuOf(track), RamOf(track)), ratio.ram, RamRooms(hosts, s, RamOf(track)));
  }

  /** The panel shows no more than `room` on the track, nor as headline where it is the allocation track. */
  ghost predicate ShowsWithin(q: Panel, track: Track, room: real) {
    && Shown(Some(q), track).Some? && Shown(Some(q), track).value <= room
    && (track == Allocation ==> q.constrained <= room)
  }

  lemma PackagesWithin(q: Panel, track: Track, n: real, ratio: Ratio, s: Settings, room: real)
    requires ShowsPackages(q, track, n, ratio, s) && ShowsHeadline(q)
    requires (q.kind == Cpu && Within(n, ratio.cpu, room)) || (q.kind == Ram && Within(n, ratio.ram, room))
    ensures ShowsWithin(q, track, room)
  {
  }

  /** Triple engine: a filled-in CPU or RAM panel in terms of its packages. */
  lemma OutShows(p: Panel, ratio: Ratio, hosts: seq<Host>, s: Settings, track: Track)
    requires NonNegative(ratio) && (p.kind == Cpu || p.kind == Ram)
    ensures var q := Out(p, ratio, hosts, s);
            q.kind == p.kind && ShowsPackages(q, track, Count(ratio, hosts, s, track), ratio, s) && ShowsHeadline(q)
  {
    OneCountBehindPanels(p, ratio, hosts, s, track);
    HeadlineIsAllocation(p, ratio, hosts, s);
  }

  /**
   Triple engine: where every host has CPU figures, no CPU figure passes the hosts' summed headroom of
   its track, the headline that of the allocation track.
   */
  lemma CpuWithinHeadroom(p: Panel, ratio: Ratio, hosts: seq<Host>, s: Settings, track: Track)
    requires NonNegative(ratio) && p.kind == Cpu && AllHaveCpu(hosts)
    ensures ShowsWithin(Out(p, ratio, hosts, s), track, Sum(CpuRooms(hosts, s, CpuOf(track))))
  {
    OutShows(p, ratio, hosts, s, track);
    CountWithinCpu(ratio, hosts, s, track);
    PackagesWithin(Out(p, ratio, hosts, s), track, Count(ratio, hosts, s, track), ratio, s,
                   Sum(CpuRooms(hosts, s, CpuOf(track))));
  }

  /** So it is for RAM, where every host has RAM figures. */
  lemma RamWithinHeadroom(p: Panel, ratio: Ratio, hosts: seq<Host>, s: Settings, track: Track)
    requires NonNegative(ratio) && p.kind == Ram && AllHaveRam(hosts)
    ensures ShowsWithin(Out(p, ratio, hosts, s), track, Sum(RamRooms(hosts, s, RamOf(track))))
  {
    OutShows(p, ratio, hosts, s, track);
    CountWithinRam(ratio, hosts, s, track);
    PackagesWithin(Out(p, ratio, hosts, s), track, Count(ratio, hosts, s, track), ratio, s,
                   Sum(RamRooms(hosts, s, RamOf(track))));
  }

  /** The resource is one the host has and a package takes. */
  predicate Binds(capacity: real, perUnit: real) {
    capacity > 0.0 && perUnit > 0.0
  }

  /** Something other than CPU limits this offer, and all that does leaves room. */
  predicate OthersLeaveRoom(o: Offer, ratio: Ratio) {
    && !o.noStorage && (Binds(o.memCap, ratio.ram) || Binds(o.storCap, ratio.storage))
    && (Binds(o.memCap, ratio.ram) ==> o.ram > 0.0) && (Binds(o.storCap, ratio.storage) ==> o.stor > 0.0)
  }

  lemma UnitsWithoutCpu(o: Offer, ratio: Ratio)
    requires o.Sound() && NonNegative(ratio) && o.cpuCap <= 0.0
    ensures o.UnitsMin(ratio) >= 0.0 && (o.UnitsMin(ratio) > 0.0 <==> OthersLeaveRoom(o, ratio))
  {
    if ratio.ram > 0.0 { PositiveQuotient(o.ram, ratio.ram); }
    if ratio.storage > 0.0 { PositiveQuotient(o.stor, ratio.storage); }
  }

  lemma PositiveProduct(n: real, k: real)
    requires n >= 0.0 && k >= 0.0
    ensures Within(n, k, 0.0) <==> n == 0.0 || k == 0.0
  {
  }

  /**
   A host without CPU figures has no CPU headroom. Its packages stay within that exactly when a package
   takes no CPU, or nothing else limits the host or something that does leaves no room.
   */
  lemma NoCpuWithinExactly(ratio: Ratio, h: Host, s: Settings, track: Track)
    requires NonNegative(ratio) && h.Or(CpuCapGhz, CpuTotal) <= 0.0
    ensures CpuHeadroom(h, CpuOf(track), s.t.cpu) == 0.0
    ensures var o := OfferOf(h, s.t, CpuOf(track), RamOf(track), InTriple(h, s));
            Within(Count(ratio, [h], s, track), ratio.cpu, 0.0) <==> ratio.cpu == 0.0 || !OthersLeaveRoom(o, ratio)
  {
    CountOfOne(ratio, h, s, track);
    OfferParts(h, s.t, CpuOf(track), RamOf(track), InTriple(h, s));
    UnitsWithoutCpu(OfferOf(h, s.t, CpuOf(track), RamOf(track), InTriple(h, s)), ratio);
    PositiveProduct(Count(ratio, [h], s, track), ratio.cpu);
  }

  /** RAM figures and no CPU figures. */
  function MemoryOnlyHost(): Host {
    Host(map[MemCapGb := 100.0, MemAllocGb := 20.0], [], 0, false, false)
  }

  lemma MemoryOnlyUnits(t: Thresholds, inTriple: bool)
    requires t == Thresholds(80.0, 80.0, 80.0)
    ensures OfferOf(MemoryOnlyHost(), t, Effective, PhysicalRam, inTriple).UnitsMin(Ratio(1.0, 1.0, 1.0)) == 60.0
    ensures CpuHeadroom(MemoryOnlyHost(), Effective, 80.0) == 0.0
  {
    assert RamHeadroom(MemoryOnlyHost(), PhysicalRam, 80.0) == 60.0;
  }

  /** On such a host the engine shows 60 units of CPU on the allocation track, and there is no CPU to sell. */
  lemma CpuCanPassHeadroom(s: Settings)
    requires s.t == Thresholds(80.0, 80.0, 80.0)
    ensures Count(Ratio(1.0, 1.0, 1.0), [MemoryOnlyHost()], s, Allocation) == 60.0
    ensures CpuHeadroom(MemoryOnlyHost(), Effective, s.t.cpu) == 0.0
  {
    CountOfOne(Ratio(1.0, 1.0, 1.0), MemoryOnlyHost(), s, Allocation);
    MemoryOnlyUnits(s.t, InTriple(MemoryOnlyHost(), s));
  }

  // ---------------------------------------------------------------- the range of storage

  /** The largest figure that one host's storage comes to, with its shared mounts. */
  lemma {:induction false} LargestIsLargest(results: seq<HostResult>)
    requires results != []
    ensures exists r <- results :: r.storMax == LargestShared(results)
    ensures forall r <- results :: r.storMax <= LargestShared(results)
  {
    var init, last := results[..|results| - 1], results[|results| - 1];
    assert results == init + [last];
    if init != [] {
      LargestIsLargest(init);
      if LargestShared(init) < last.storMax { assert last in results; }
    } else {
      assert results[0] in results;
    }
  }

  /** Free space of pools adds up; an unknown figure counts as none. */
  lemma {:induction false} PoolsAddUp(x: seq<Pool>, y: seq<Pool>, p: Pool)
    ensures PoolFree(x + y) == PoolFree(x) + PoolFree(y)
    ensures PoolFree([]) == 0.0 && PoolFree([p]) == OrElse(p.freeGb, 0.0)
  {
    if y == [] {
      assert x + y == x;
    } else {
      PoolsAddUp(x, y[..|y| - 1], p);
      assert (x + y)[..|x + y| - 1] == x + y[..|y| - 1];
    }
  }

  /** The lower end `lo`, and the upper end `hi` shown only when it is visibly above it. */
  ghost predicate ShowsRange(q: Panel, lo: real, hi: real) {
    Is(q.min, lo) && if hi > lo + QTY_SLACK then Is(q.max, hi) else q.max == None
  }

  /** What one host could take with shared mounts, within the pools where those have any space. */
  function Reach(largest: real, free: real): real {
    if free > 0.0 then Min(largest, free) else largest
  }

  /** The upper end on the hosts' own storage: the largest host, within the pools, yet no less than all packages. */
  ghost predicate OwnReach(hi: real, largest: real, free: real, n: real, ratio: Ratio) {
    hi == Max(Reach(largest, free), n * ratio.storage)
  }

  lemma PoolScale(x: real, d: real)
    requires d > 0.0
    ensures x / d * d == x
  {
  }

  lemma RangeOfResults(results: seq<HostResult>, pools: seq<Pool>, ratio: Ratio)
    requires results != [] && ratio.storage > 0.0 && SumStorage(results) >= 0.0
    ensures var range := StorageRange(results, pools, ratio);
            && range.0 == SumStorage(results)
            && range.1 == Max(Reach(LargestShared(results), PoolFree(pools)), SumStorage(results))
  {
    PoolScale(PoolFree(pools), ratio.storage);
  }

  lemma PackagedRange(results: seq<HostResult>, pools: seq<Pool>, ratio: Ratio)
    requires results != [] && NonNegative(ratio) && ratio.storage > 0.0 && forall r <- results :: Packaged(r, ratio)
    ensures var range := StorageRange(results, pools, ratio);
            && range.0 == SumStorage(results)
            && OwnReach(range.1, LargestShared(results), PoolFree(pools), SumMin(results), ratio)
  {
    SumsPackaged(results, ratio);
    Scale(0.0, SumMin(results), ratio.storage);
    RangeOfResults(results, pools, ratio);
  }

  /** The ends of the range, where they come from. */
  ghost predicate EndsFrom(c: TripleCounts, own: TripleCounts, ratio: Ratio, s: Settings) {
    match (s.ibmRange, s.clusterStorage)
    case (Some((a, b)), _) => c.lo == a && c.hi == if b > a + QTY_SLACK then b else a
    case (None, Some(pool)) => c.lo == c.storAlloc && c.hi == Min(Max(pool, 0.0), c.max * ratio.storage)
    case (None, None) => c == own
  }

  lemma EndsOfRange(own: TripleCounts, ratio: Ratio, s: Settings)
    ensures EndsFrom(WithIbm(WithCluster(own, s, ratio), s, ratio), own, ratio, s)
  {
  }

  lemma PanelRange(p: Panel, c: TripleCounts, ratio: Ratio, s: Settings)
    requires p.kind == Storage
    ensures ShowsRange(TriplePanel(p, c, ratio, s.ramRaw, s.ramPeak), c.lo, c.hi)
    ensures TriplePanel(p, c, ratio, s.ramRaw, s.ramPeak).constrained == c.storAlloc
  {
  }

  lemma OwnRange(ratio: Ratio, hosts: seq<Host>, s: Settings)
    requires NonNegative(ratio) && ratio.storage > 0.0 && hosts != []
    ensures var own, max := HostCounts(hosts, ratio, s), Results(hosts, ratio, s, MaxCpu, MaxRam);
            && own.lo == own.storAlloc
            && OwnReach(own.hi, LargestShared(max), PoolFree(s.pools), SumMin(max), ratio)
  {
    ResultsPackaged(hosts, ratio, s, Effective, PhysicalRam);
    PackagedRange(Results(hosts, ratio, s, Effective, PhysicalRam), s.pools, ratio);
    ResultsPackaged(hosts, ratio, s, MaxCpu, MaxRam);
    PackagedRange(Results(hosts, ratio, s, MaxCpu, MaxRam), s.pools, ratio);
  }

  /**
   The range by where storage comes from; `n` counts the packages of the maximum track, and `largest`
   is the largest figure of one host on it.
   */
  ghost predicate RangeShown(q: Panel, n: real, ratio: Ratio, largest: real, s: Settings) {
    match (s.ibmRange, s.clusterStorage)
    case (Some((a, b)), _) => ShowsRange(q, a, b)
    case (None, Some(pool)) => ShowsRange(q, q.constrained, Min(Max(pool, 0.0), n * ratio.storage))
    case (None, None) =>
      exists hi :: ShowsRange(q, q.constrained, hi) && OwnReach(hi, largest, PoolFree(s.pools), n, ratio)
  }

  lemma RangeFromEnds(p: Panel, c: TripleCounts, own: TripleCounts, ratio: Ratio, n: real, largest: real, s: Settings)
    requires p.kind == Storage && c.max == n && EndsFrom(c, own, ratio, s)
    requires own.lo == own.storAlloc && OwnReach(own.hi, largest, PoolFree(s.pools), n, ratio)
    ensures RangeShown(TriplePanel(p, c, ratio, s.ramRaw, s.ramPeak), n, ratio, largest, s)
  {
    PanelRange(p, c, ratio, s);
  }

  lemma RangeOf(p: Panel, own: TripleCounts, ratio: Ratio, n: real, largest: real, s: Settings)
    requires p.kind == Storage && WithIbm(WithCluster(own, s, ratio), s, ratio).max == n
    requires own.lo == own.storAlloc && OwnReach(own.hi, largest, PoolFree(s.pools), n, ratio)
    ensures RangeShown(TriplePanel(p, WithIbm(WithCluster(own, s, ratio), s, ratio), ratio, s.ramRaw, s.ramPeak),
                       n, ratio, largest, s)
  {
    EndsOfRange(own, ratio, s);
    RangeFromEnds(p, WithIbm(WithCluster(own, s, ratio), s, ratio), own, ratio, n, largest, s);
  }

  /**
   Triple engine, the range on a storage panel. An IBM range is shown as given. A cluster's pool gives
   the headline and what the maximum track could take of the pool. The hosts' own storage gives the
   headline and the largest figure of one host, within the pools, yet no less than all packages of the
   maximum track.
   */
  lemma StorageRangeShown(p: Panel, ratio: Ratio, hosts: seq<Host>, s: Settings)
    requires p.kind == Storage && NonNegative(ratio) && ratio.storage > 0.0 && hosts != []
    ensures RangeShown(Out(p, ratio, hosts, s), Count(ratio, hosts, s, MaxUtil), ratio,
                       LargestShared(Results(hosts, ratio, s, MaxCpu, MaxRam)), s)
  {
    var n, largest := Count(ratio, hosts, s, MaxUtil), LargestShared(Results(hosts, ratio, s, MaxCpu, MaxRam));
    CountedOn(ratio, hosts, s, MaxUtil);
    OwnRange(ratio, hosts, s);
    RangeOf(p, HostCounts(hosts, ratio, s), ratio, n, largest, s);
  }

  // ---------------------------------------------------------------- the pair engine

  function PairOut(p: Panel, ratio: Ratio, hosts: seq<Host>, t: Thresholds, ghz: real, ramRaw: Option<real>,
                   ramPeak: Option<real>): Panel {
    PairPanel(p, PairCountsOf(hosts, ratio, t.cpu, t.ram, ghz), ratio, ramRaw, ramPeak)
  }

  /** The packages behind the CPU panel or the RAM panel. RAM counts allocated cores, each at its own clock. */
  function PairCount(kind: Kind, ratio: Ratio, hosts: seq<Host>, t: Thresholds, ghz: real, track: Track): real {
    if kind == Ram && track == Allocation
    then EffectiveUnits(hosts, ratio, t.cpu, t.ram, PhysicalCpu, PhysicalRam, 1.0)
    else EffectiveUnits(hosts, ratio, t.cpu, t.ram, CpuOf(track), RamOf(track), ghz)
  }

  /** The panel shows what `n` packages of size `perUnit` take. */
  ghost predicate ShowsMultiple(q: Panel, track: Track, n: real, perUnit: real) {
    ShowsOn(q, track, n * perUnit)
  }

  function PairOn(n: PairCounts, kind: Kind, track: Track): real {
    match track
    case Allocation => if kind == Ram then n.ramAlloc else n.cpuAlloc
    case MaxUtil => if kind == Ram then n.ramMax else n.cpuMax
    case AvgUtil => n.avg
  }

  lemma PairPanelShows(p: Panel, n: PairCounts, ratio: Ratio, ramRaw: Option<real>, ramPeak: Option<real>, track: Track)
    requires p.kind == Cpu || p.kind == Ram
    ensures ShowsMultiple(PairPanel(p, n, ratio, ramRaw, ramPeak), track, PairOn(n, p.kind, track),
                          PerUnit(ratio, p.kind))
  {
  }

  /** Pair engine: each track of a CPU or RAM panel is what its packages take. */
  lemma PairPanelsShowCounts(p: Panel, ratio: Ratio, hosts: seq<Host>, t: Thresholds, ghz: real, ramRaw: Option<real>,
                             ramPeak: Option<real>, track: Track)
    requires p.kind == Cpu || p.kind == Ram
    ensures ShowsMultiple(PairOut(p, ratio, hosts, t, ghz, ramRaw, ramPeak), track,
                          PairCount(p.kind, ratio, hosts, t, ghz, track), PerUnit(ratio, p.kind))
  {
    PairPanelShows(p, PairCountsOf(hosts, ratio, t.cpu, t.ram, ghz), ratio, ramRaw, ramPeak, track);
  }

  lemma {:induction false} PairSumConcat(ratio: Ratio, x: seq<Host>, y: seq<Host>, t: Thresholds, cpu: CpuTrack,
                                         ram: RamTrack, ghz: real)
    ensures EffectiveUnits(x + y, ratio, t.cpu, t.ram, cpu, ram, ghz)
            == EffectiveUnits(x, ratio, t.cpu, t.ram, cpu, ram, ghz)
               + EffectiveUnits(y, ratio, t.cpu, t.ram, cpu, ram, ghz)
  {
    if y == [] {
      assert x + y == x;
    } else {
      PairSumConcat(ratio, x, y[..|y| - 1], t, cpu, ram, ghz);
      assert (x + y)[..|x + y| - 1] == x + y[..|y| - 1];
    }
  }

  /** Pair engine: the packages of two groups of hosts add up. */
  lemma PairHostsAddUp(kind: Kind, ratio: Ratio, x: seq<Host>, y: seq<Host>, t: Thresholds, ghz: real, track: Track)
    ensures PairCount(kind, ratio, x + y, t, ghz, track)
            == PairCount(kind, ratio, x, t, ghz, track) + PairCount(kind, ratio, y, t, ghz, track)
    ensures PairCount(kind, ratio, [], t, ghz, track) == 0.0
  {
    PairSumConcat(ratio, x, y, t, CpuOf(track), RamOf(track), ghz);
    PairSumConcat(ratio, x, y, t, PhysicalCpu, PhysicalRam, 1.0);
  }

  /** `n` packages of these sizes fit, and use up one of the two. */
  ghost predicate PairFills(n: real, cpuSize: real, cpuRoom: real, ramSize: real, ramRoom: real) {
    n * cpuSize <= cpuRoom && n * ramSize <= ramRoom && (n * cpuSize == cpuRoom || n * ramSize == ramRoom)
  }

  lemma LeastFills(c: real, d: real, r: real, e: real)
    requires d > 0.0 && e > 0.0
    ensures PairFills(Min(c / d, r / e), d, c, e, r)
  {
    Divide(c, c, d);
    Divide(r, r, e);
    if c / d <= r / e { Scale(c / d, r / e, e); } else { Scale(r / e, c / d, d); }
  }

  lemma PairUnitsFill(h: Host, ratio: Ratio, t: Thresholds, cpu: CpuTrack, ram: RamTrack, ghz: real)
    requires ratio.cpu > 0.0 && ratio.ram > 0.0
    ensures PairFills(EffectiveUnits([h], ratio, t.cpu, t.ram, cpu, ram, ghz), CpuPerUnit(h, ratio, cpu, ghz),
                      CpuRaw(h, cpu, t.cpu), ratio.ram, RamRaw(h, ram, t.ram))
  {
    var init := [h][..|[h]| - 1];
    assert init == [];
    assert SumPairUnits(init, ratio, t.cpu, t.ram, cpu, ram, ghz) == 0.0;
    assert EffectiveUnits([h], ratio, t.cpu, t.ram, cpu, ram, ghz) == PairUnits(h, ratio, t.cpu, t.ram, cpu, ram, ghz);
    LeastFills(CpuRaw(h, cpu, t.cpu), CpuPerUnit(h, ratio, cpu, ghz), RamRaw(h, ram, t.ram), ratio.ram);
  }

  /** A package's CPU in GHz, at a clock of `ghz`. */
  function CpuGhz(ratio: Ratio, ghz: real): real {
    ratio.cpu * Max(ghz, PCT_SLACK)
  }

  /** The CPU figure one package takes: cores at the host's own clock, 1 GHz if unknown, or GHz of a given clock. */
  function CpuSize(h: Host, ratio: Ratio, physical: bool, ghz: real): real {
    if !physical then CpuGhz(ratio, ghz)
    else if h.At(GhzPerCore) > 0.0 then ratio.cpu * h.At(GhzPerCore)
    else ratio.cpu
  }

  lemma CpuSizeIs(h: Host, ratio: Ratio, cpu: CpuTrack, ghz: real)
    requires ratio.cpu > 0.0
    ensures CpuPerUnit(h, ratio, cpu, ghz) == CpuSize(h, ratio, cpu == PhysicalCpu, ghz)
  {
  }

  /** Pair engine: one host sells all it can, on the RAM panel's allocation track by its own clock. */
  lemma PairOneHostFillsUp(kind: Kind, ratio: Ratio, h: Host, t: Thresholds, ghz: real, track: Track)
    requires ratio.cpu > 0.0 && ratio.ram > 0.0
    ensures var physical := kind == Ram && track == Allocation;
            PairFills(PairCount(kind, ratio, [h], t, ghz, track), CpuSize(h, ratio, physical, ghz),
                      CpuRaw(h, if physical then PhysicalCpu else CpuOf(track), t.cpu),
                      ratio.ram, RamRaw(h, RamOf(track), t.ram))
  {
    if kind == Ram && track == Allocation {
      CpuSizeIs(h, ratio, PhysicalCpu, 1.0);
      PairUnitsFill(h, ratio, t, PhysicalCpu, PhysicalRam, 1.0);
    } else {
      CpuSizeIs(h, ratio, CpuOf(track), ghz);
      PairUnitsFill(h, ratio, t, CpuOf(track), RamOf(track), ghz);
    }
  }

  ghost function RawCpus(hosts: seq<Host>, t: Thresholds, cpu: CpuTrack): seq<real> {
    seq(|hosts|, i requires 0 <= i < |hosts| => CpuRaw(hosts[i], cpu, t.cpu))
  }

  ghost function RawRams(hosts: seq<Host>, t: Thresholds, ram: RamTrack): seq<real> {
    seq(|hosts|, i requires 0 <= i < |hosts| => RamRaw(hosts[i], ram, t.ram))
  }

  /** A count that adds up host by host, and fits each host's room, fits the summed room. */
  lemma {:induction false} CountWithinRooms(hosts: seq<Host>, count: seq<Host> -> real, perUnit: real,
                                            room: Host -> real, rooms: seq<real>)
    requires count([]) == 0.0 && forall x, h :: count(x + [h]) == count(x) + count([h])
    requires forall h <- hosts :: Within(count([h]), perUnit, room(h))
    requires |rooms| == |hosts| && forall i :: 0 <= i < |hosts| ==> rooms[i] == room(hosts[i])
    ensures Within(count(hosts), perUnit, Sum(rooms))
  {
    if hosts != [] {
      var k := |hosts| - 1;
      var init, h := hosts[..k], hosts[k];
      assert hosts == init + [h] && h in hosts;
      CountWithinRooms(init, count, perUnit, room, rooms[..k]);
      Distribute(count(init), count([h]), perUnit);
    }
  }

  lemma FillsWithin(n: real, cpuSize: real, cpuRoom: real, ramSize: real, ramRoom: real)
    requires PairFills(n, cpuSize, cpuRoom, ramSize, ramRoom)
    ensures Within(n, cpuSize, cpuRoom) && Within(n, ramSize, ramRoom)
  {
  }

  /** Pair engine: no more packages are counted than the summed RAM headroom of the track holds. */
  lemma PairCountWithinRam(kind: Kind, ratio: Ratio, hosts: seq<Host>, t: Thresholds, ghz: real, track: Track)
    requires ratio.cpu > 0.0 && ratio.ram > 0.0
    ensures Within(PairCount(kind, ratio, hosts, t, ghz, track), ratio.ram, Sum(RawRams(hosts, t, RamOf(track))))
  {
    var count := (x: seq<Host>) => PairCount(kind, ratio, x, t, ghz, track);
    var room := (h: Host) => RamRaw(h, RamOf(track), t.ram);
    forall x, h ensures count(x + [h]) == count(x) + count([h]) {
      PairHostsAddUp(kind, ratio, x, [h], t, ghz, track);
    }
    forall h | h in hosts ensures Within(count([h]), ratio.ram, room(h)) {
      PairOneHostWithin(kind, ratio, h, t, ghz, track);
    }
    CountWithinRooms(hosts, count, ratio.ram, room, RawRams(hosts, t, RamOf(track)));
  }

  /** Nor than the summed CPU headroom holds, at the size of a package in GHz. */
  lemma PairCountWithinCpu(ratio: Ratio, hosts: seq<Host>, t: Thresholds, ghz: real, track: Track)
    requires ratio.cpu > 0.0 && ratio.ram > 0.0
    ensures Within(PairCount(Cpu, ratio, hosts, t, ghz, track), CpuGhz(ratio, ghz),
                   Sum(RawCpus(hosts, t, CpuOf(track))))
  {
    var count := (x: seq<Host>) => PairCount(Cpu, ratio, x, t, ghz, track);
    var room := (h: Host) => CpuRaw(h, CpuOf(track), t.cpu);
    forall x, h ensures count(x + [h]) == count(x) + count([h]) {
      PairHostsAddUp(Cpu, ratio, x, [h], t, ghz, track);
    }
    forall h | h in hosts ensures Within(count([h]), CpuGhz(ratio, ghz), room(h)) {
      PairOneHostWithin(Cpu, ratio, h, t, ghz, track);
    }
    CountWithinRooms(hosts, count, CpuGhz(ratio, ghz), room, RawCpus(hosts, t, CpuOf(track)));
  }

  lemma PairOneHostWithin(kind: Kind, ratio: Ratio, h: Host, t: Thresholds, ghz: real, track: Track)
    requires ratio.cpu > 0.0 && ratio.ram > 0.0
    ensures Within(PairCount(kind, ratio, [h], t, ghz, track), ratio.ram, RamRaw(h, RamOf(track), t.ram))
    ensures kind == Cpu ==>
              Within(PairCount(kind, ratio, [h], t, ghz, track), CpuGhz(ratio, ghz), CpuRaw(h, CpuOf(track), t.cpu))
  {
    PairOneHostFillsUp(kind, ratio, h, t, ghz, track);
    var physical := kind == Ram && track == Allocation;
    FillsWithin(PairCount(kind, ratio, [h], t, ghz, track), CpuSize(h, ratio, physical, ghz),
                CpuRaw(h, if physical then PhysicalCpu else CpuOf(track), t.cpu), ratio.ram,
                RamRaw(h, RamOf(track), t.ram));
  }

  lemma MultipleWithin(q: Panel, track: Track, n: real, perUnit: real, room: real)
    requires ShowsMultiple(q, track, n, perUnit) && ShowsHeadline(q) && Within(n, perUnit, room)
    ensures ShowsWithin(q, track, room)
  {
  }

  /** Pair engine: no RAM figure passes the hosts' summed RAM headroom of its track. */
  lemma PairRamWithinHeadroom(p: Panel, ratio: Ratio, hosts: seq<Host>, t: Thresholds, ghz: real,
                              ramRaw: Option<real>, ramPeak: Option<real>, track: Track)
    requires p.kind == Ram && ratio.cpu > 0.0 && ratio.ram > 0.0
    ensures ShowsWithin(PairOut(p, ratio, hosts, t, ghz, ramRaw, ramPeak), track,
                        Sum(RawRams(hosts, t, RamOf(track))))
  {
    PairPanelsShowCounts(p, ratio, hosts, t, ghz, ramRaw, ramPeak, track);
    PairHeadlineIsAllocation(p, ratio, hosts, t, ghz, ramRaw, ramPeak);
    PairCountWithinRam(Ram, ratio, hosts, t, ghz, track);
    MultipleWithin(PairOut(p, ratio, hosts, t, ghz, ramRaw, ramPeak), track,
                   PairCount(Ram, ratio, hosts, t, ghz, track), ratio.ram, Sum(RawRams(hosts, t, RamOf(track))));
  }

  /** Pair engine: CPU and RAM panels show their allocation track as headline; other panels their raw figure. */
  lemma PairHeadlineIsAllocation(p: Panel, ratio: Ratio, hosts: seq<Host>, t: Thresholds, ghz: real,
                                 ramRaw: Option<real>, ramPeak: Option<real>)
    ensures var q := PairOut(p, ratio, hosts, t, ghz, ramRaw, ramPeak);
            && KeepsRest(p, q) && MarksBound(p, q, ramRaw, ramPeak)
            && (p.kind == Cpu || p.kind == Ram ==> ShowsHeadline(q))
            && (p.kind != Cpu && p.kind != Ram ==> q == p.(constrained := p.raw, ratioBound := false))
  {
  }
}
