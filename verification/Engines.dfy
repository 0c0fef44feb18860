/**
 The two host-based engines (shared/sellable/computation.py:579-909) and the order of their tracks:
 the average track never offers less than the maximum track.
 */
module Engines {
  import opened Prelude
  import opened Gate
  import opened Hosts
  import opened HostSellable
  import opened Panels

  // ---------------------------------------------------------------- the pair engine

  /** Packages on each track the pair engine shows. */
  datatype PairCounts = PairCounts(cpuAlloc: real, cpuMax: real, ramAlloc: real, ramMax: real, avg: real)

  function PairCountsOf(hosts: seq<Host>, ratio: Ratio, cpuPct: real, ramPct: real, ghz: real): PairCounts {
    PairCounts(
      EffectiveUnits(hosts, ratio, cpuPct, ramPct, Effective, PhysicalRam, ghz),
      EffectiveUnits(hosts, ratio, cpuPct, ramPct, MaxCpu, MaxRam, ghz),
      EffectiveUnits(hosts, ratio, cpuPct, ramPct, PhysicalCpu, PhysicalRam, 1.0),
      EffectiveUnits(hosts, ratio, cpuPct, ramPct, MaxCpu, MaxRam, ghz),
      EffectiveUnits(hosts, ratio, cpuPct, ramPct, AvgCpu, AvgRam, ghz))
  }

  function OrElse(x: Option<real>, y: real): real {
    match x case Some(v) => v case None => y
  }

  /** computation.py:639-681 for one panel. */
  function PairPanel(p: Panel, n: PairCounts, ratio: Ratio, ramRaw: Option<real>, ramPeak: Option<real>): Panel {
    match p.kind
    case Cpu =>
      var c, m, a := n.cpuAlloc * ratio.cpu, n.cpuMax * ratio.cpu, n.avg * ratio.cpu;
      p.(allocation := Some(c), maxUtil := Some(m), avgUtil := Some(a), effective := Some(c), physical := None,
         constrained := c, ratioBound := c + QTY_SLACK < p.raw, hostBased := true)
    case Ram =>
      var c, m, a := n.ramAlloc * ratio.ram, n.ramMax * ratio.ram, n.avg * ratio.ram;
      p.(physical := Some(c), effective := Some(m), allocation := Some(c), maxUtil := Some(m), avgUtil := Some(a),
         constrained := c, hostBased := true,
         ratioBound := c + QTY_SLACK < OrElse(ramRaw, p.raw) || m + QTY_SLACK < OrElse(ramPeak, p.raw))
    case _ => p.(constrained := p.raw, ratioBound := false)
  }

  /** computation.py:579-682 */
  method ConstrainPerHostDual(panels: seq<Panel>, ratio: Ratio, hosts: seq<Host>, cpuPct: real, ramPct: real, ghz: real,
                              ramRaw: Option<real>, ramPeak: Option<real>)
    returns (out: seq<Panel>)
    ensures |out| == |panels|
    ensures forall i :: 0 <= i < |out| ==>
              out[i] == PairPanel(panels[i], PairCountsOf(hosts, ratio, cpuPct, ramPct, ghz), ratio, ramRaw, ramPeak)
  {
    var cpuAlloc := HostEffectiveUnits(hosts, ratio, cpuPct, ramPct, Effective, PhysicalRam, ghz);
    var cpuMax := HostEffectiveUnits(hosts, ratio, cpuPct, ramPct, MaxCpu, MaxRam, ghz);
    var ramAlloc := HostEffectiveUnits(hosts, ratio, cpuPct, ramPct, PhysicalCpu, PhysicalRam, 1.0);
    var ramMax := HostEffectiveUnits(hosts, ratio, cpuPct, ramPct, MaxCpu, MaxRam, ghz);
    var avg := HostEffectiveUnits(hosts, ratio, cpuPct, ramPct, AvgCpu, AvgRam, ghz);
    var n := PairCounts(cpuAlloc, cpuMax, ramAlloc, ramMax, avg);
    out := [];
    for i := 0 to |panels|
      invariant |out| == i && forall j :: 0 <= j < i ==> out[j] == PairPanel(panels[j], n, ratio, ramRaw, ramPeak)
    {
      out := out + [PairPanel(panels[i], n, ratio, ramRaw, ramPeak)];
    }
  }

  /** The panel shows both tracks, and the maximum one is no higher than the average one. */
  predicate TracksOrdered(p: Panel) {
    p.maxUtil.Some? && p.avgUtil.Some? && p.maxUtil.value <= p.avgUtil.value
  }

  lemma PairPanelOrdered(p: Panel, n: PairCounts, ratio: Ratio, ramRaw: Option<real>, ramPeak: Option<real>)
    requires p.kind == Cpu || p.kind == Ram
    requires n.cpuMax == n.ramMax <= n.avg && (ratio.cpu < 0.0 || ratio.ram < 0.0 ==> n.cpuMax == n.avg == 0.0)
    ensures TracksOrdered(PairPanel(p, n, ratio, ramRaw, ramPeak))
  {
  }

  /** Pair engine: on CPU and RAM panels the maximum track never exceeds the average one. */
  lemma PairEngineOrdersTracks(p: Panel, ratio: Ratio, hosts: seq<Host>, cpuPct: real, ramPct: real, ghz: real,
                               ramRaw: Option<real>, ramPeak: Option<real>)
    requires p.kind == Cpu || p.kind == Ram
    ensures TracksOrdered(PairPanel(p, PairCountsOf(hosts, ratio, cpuPct, ramPct, ghz), ratio, ramRaw, ramPeak))
  {
    SumMaxBelowAvg(hosts, ratio, cpuPct, ramPct, ghz);
    PairPanelOrdered(p, PairCountsOf(hosts, ratio, cpuPct, ramPct, ghz), ratio, ramRaw, ramPeak);
  }

  // ---------------------------------------------------------------- the triple engine

  datatype Pool = Pool(shared: bool, freeGb: Option<real>)

  /** What the caller chooses; `coupling` is the operator's override, decided host by host. */
  datatype Settings = Settings(
    t: Thresholds, coupling: Host -> Option<bool>, clusterStorage: Option<real>, ibmRange: Option<(real, real)>,
    pools: seq<Pool>, price: real, ghz: real, ramRaw: Option<real>, ramPeak: Option<real>)

  /** computation.py:756-760 */
  function InTriple(h: Host, s: Settings): bool {
    match s.coupling(h)
    case Some(forced) => forced
    case None => s.clusterStorage == None && StorageInTriple(h)
  }

  function ResultOf(h: Host, ratio: Ratio, s: Settings, cpu: CpuTrack, ram: RamTrack): HostResult {
    OfferOf(h, s.t, cpu, ram, InTriple(h, s)).Result(ratio, false, s.price)
  }

  function Results(hosts: seq<Host>, ratio: Ratio, s: Settings, cpu: CpuTrack, ram: RamTrack): seq<HostResult> {
    seq(|hosts|, i requires 0 <= i < |hosts| => ResultOf(hosts[i], ratio, s, cpu, ram))
  }

  function SumMin(results: seq<HostResult>): real {
    if results == [] then 0.0 else SumMin(results[..|results| - 1]) + results[|results| - 1].nMin
  }

  function SumStorage(results: seq<HostResult>): real {
    if results == [] then 0.0 else SumStorage(results[..|results| - 1]) + results[|results| - 1].storMin
  }

  lemma SumMinAppend(results: seq<HostResult>, r: HostResult)
    ensures SumMin(results + [r]) == SumMin(results) + r.nMin
  {
    assert (results + [r])[..|results|] == results;
  }

  method SettleHost(h: Host, ratio: Ratio, s: Settings, cpu: CpuTrack, ram: RamTrack) returns (r: HostResult)
    ensures r == ResultOf(h, ratio, s, cpu, ram)
  {
    r := ComputeHostSellableUnits(h, ratio, s.t, cpu, ram, false, InTriple(h, s), s.price);
  }

  /** computation.py:737-765, own storage only. */
  method Accumulate(hosts: seq<Host>, ratio: Ratio, s: Settings, cpu: CpuTrack, ram: RamTrack)
    returns (n: real, results: seq<HostResult>)
    ensures results == Results(hosts, ratio, s, cpu, ram) && n == SumMin(results)
  {
    n, results := 0.0, [];
    for i := 0 to |hosts|
      invariant results == Results(hosts, ratio, s, cpu, ram)[..i] && n == SumMin(results)
    {
      var r := SettleHost(hosts[i], ratio, s, cpu, ram);
      SumMinAppend(results, r);
      n := n + r.nMin;
      results := results + [r];
    }
  }

  function LargestShared(results: seq<HostResult>): real
    requires results != []
  {
    if |results| == 1 then results[0].storMax
    else Max(LargestShared(results[..|results| - 1]), results[|results| - 1].storMax)
  }

  function PoolFree(pools: seq<Pool>): real {
    if pools == [] then 0.0
    else
      PoolFree(pools[..|pools| - 1])
      + match pools[|pools| - 1].freeGb case Some(v) => v case None => 0.0
  }

  /** host_sellable.py:336-357 */
  function StorageRange(results: seq<HostResult>, pools: seq<Pool>, ratio: Ratio): (real, real) {
    if results == [] then (0.0, 0.0)
    else
      var lo, cap := SumStorage(results), PoolFree(pools);
      var hi := if ratio.storage > 0.0 && cap > 0.0
                then Min(LargestShared(results), cap / ratio.storage * ratio.storage)
                else LargestShared(results);
      (Max(lo, 0.0), Max(hi, lo))
  }

  /** Packages a track, and what storage they come to; `lo` and `hi` bound the shown range. */
  datatype TripleCounts = TripleCounts(alloc: real, max: real, avg: real, storAlloc: real, storMax: real,
      storAvg: real, lo: real, hi: real)

  /** `min(n_cpu, n_ram) if n_ram > 0 else n_cpu`; both counts come from the same tracks. */
  function TrackBottleneck(nCpu: real, nRam: real): real {
    if nRam > 0.0 then Min(nCpu, nRam) else nCpu
  }

  /** computation.py:793-802 for one track: the cluster's storage pool, capped by the packages. */
  function ClusterCap(pool: real, n: real, ratio: Ratio): real {
    Min(Max(pool, 0.0), Max(TrackBottleneck(n, n), 0.0) * ratio.storage)
  }

  /** computation.py:814-843 for one track: what the packages can use of the storage found so far. */
  function IbmCap(pool: real, n: real, ratio: Ratio): real {
    var cap := Max(TrackBottleneck(n, n), 0.0) * ratio.storage;
    if cap > 0.0 then Min(Max(pool, 0.0), cap) else 0.0
  }

  /** computation.py:789-812: storage a track, from the hosts or from the cluster's pool. */
  function WithCluster(c: TripleCounts, s: Settings, ratio: Ratio): TripleCounts {
    match s.clusterStorage
    case None => c
    case Some(pool) =>
      c.(storAlloc := ClusterCap(pool, c.alloc, ratio), storMax := ClusterCap(pool, c.max, ratio),
          storAvg := ClusterCap(pool, c.avg, ratio),
         lo := ClusterCap(pool, c.alloc, ratio), hi := Min(Max(pool, 0.0), c.max * ratio.storage))
  }

  /** computation.py:814-843 */
  function WithIbm(c: TripleCounts, s: Settings, ratio: Ratio): TripleCounts {
    match s.ibmRange
    case None => c
    case Some((lo, hi)) =>
      c.(storAlloc := IbmCap(c.storAlloc, c.alloc, ratio), storMax := IbmCap(c.storMax, c.max, ratio),
          storAvg := IbmCap(c.storAvg, c.avg, ratio),
         lo := lo, hi := if hi > lo + QTY_SLACK then hi else lo)
  }

  /** computation.py:767-787: what the hosts offer by themselves. */
  function HostCounts(hosts: seq<Host>, ratio: Ratio, s: Settings): TripleCounts {
    var alloc := Results(hosts, ratio, s, Effective, PhysicalRam);
    var max := Results(hosts, ratio, s, MaxCpu, MaxRam);
    var avg := Results(hosts, ratio, s, AvgCpu, AvgRam);
    TripleCounts(SumMin(alloc), SumMin(max), SumMin(avg),
                 SumStorage(alloc), SumStorage(max), SumStorage(avg),
                 StorageRange(alloc, s.pools, ratio).0, StorageRange(max, s.pools, ratio).1)
  }

  function TripleCountsOf(hosts: seq<Host>, ratio: Ratio, s: Settings): TripleCounts {
    WithIbm(WithCluster(HostCounts(hosts, ratio, s), s, ratio), s, ratio)
  }

  /** computation.py:854-908 for one panel. */
  function TriplePanel(p: Panel, n: TripleCounts, ratio: Ratio, ramRaw: Option<real>, ramPeak: Option<real>): Panel {
    match p.kind
    case Cpu =>
      var c, m, a := n.alloc * ratio.cpu, n.max * ratio.cpu, n.avg * ratio.cpu;
      p.(allocation := Some(c), maxUtil := Some(m), avgUtil := Some(a), effective := Some(c), physical := None,
         constrained := c, ratioBound := c + QTY_SLACK < p.raw, hostBased := true)
    case Ram =>
      var c, m, a := n.alloc * ratio.ram, n.max * ratio.ram, n.avg * ratio.ram;
      p.(physical := Some(c), allocation := Some(c), maxUtil := Some(m), avgUtil := Some(a), effective := Some(m),
         constrained := c, hostBased := true,
         ratioBound := c + QTY_SLACK < OrElse(ramRaw, p.raw) || m + QTY_SLACK < OrElse(ramPeak, p.raw))
    case Storage =>
      var bound := n.storAlloc + QTY_SLACK < p.raw;
      p.(constrained := n.storAlloc, min := Some(n.lo), max := if n.hi > n.lo + QTY_SLACK then Some(n.hi) else None,
         allocation := Some(n.storAlloc), maxUtil := Some(n.storMax), avgUtil := Some(n.storAvg),
         ratioBound := bound, hostBased := true, reason := if bound then RatioReason else NoReason)
    case OtherKind => p.(constrained := p.raw, ratioBound := false)
  }

  /** computation.py:685-909 */
  method ConstrainPerHostTripleDual(panels: seq<Panel>, ratio: Ratio, hosts: seq<Host>, s: Settings)
    returns (out: seq<Panel>)
    ensures |out| == |panels|
    ensures hosts == [] ==> forall i :: 0 <= i < |out| ==>
              out[i] == PairPanel(panels[i], PairCountsOf(hosts, ratio, s.t.cpu, s.t.ram, s.ghz), ratio, s.ramRaw,
                  s.ramPeak)
    ensures hosts != [] ==> forall i :: 0 <= i < |out| ==>
              out[i] == TriplePanel(panels[i], TripleCountsOf(hosts, ratio, s), ratio, s.ramRaw, s.ramPeak)
  {
    if hosts == [] {
      out := ConstrainPerHostDual(panels, ratio, hosts, s.t.cpu, s.t.ram, s.ghz, s.ramRaw, s.ramPeak);
      return;
    }
    var nAlloc, alloc := Accumulate(hosts, ratio, s, Effective, PhysicalRam);
    var nMax, max := Accumulate(hosts, ratio, s, MaxCpu, MaxRam);
    var nAvg, avg := Accumulate(hosts, ratio, s, AvgCpu, AvgRam);
    var c := TripleCounts(nAlloc, nMax, nAvg, SumStorage(alloc), SumStorage(max), SumStorage(avg),
                          StorageRange(alloc, s.pools, ratio).0, StorageRange(max, s.pools, ratio).1);
    c := WithIbm(WithCluster(c, s, ratio), s, ratio);
    out := [];
    for i := 0 to |panels|
      invariant |out| == i && forall j :: 0 <= j < i ==> out[j] == TriplePanel(panels[j], c, ratio, s.ramRaw, s.ramPeak)
    {
      out := out + [TriplePanel(panels[i], c, ratio, s.ramRaw, s.ramPeak)];
    }
  }

  // ---------------------------------------------------------------- the order of the tracks

  ghost predicate CountsOrdered(c: TripleCounts) {
    0.0 <= c.max <= c.avg && 0.0 <= c.storMax <= c.storAvg
  }

  /** A host that offers more takes at least as many packages, and at least as much storage with them. */
  lemma ResultMono(o: Offer, p: Offer, ratio: Ratio, price: real)
    requires o.Sound() && OffersLess(o, p) && NonNegative(ratio)
    ensures 0.0 <= o.Result(ratio, false, price).nMin <= p.Result(ratio, false, price).nMin
    ensures 0.0 <= o.Result(ratio, false, price).storMin <= p.Result(ratio, false, price).storMin
  {
    OfferMono(o, p, ratio);
    Scale(o.UnitsMin(ratio), p.UnitsMin(ratio), ratio.storage);
    Scale(0.0, o.UnitsMin(ratio), ratio.storage);
  }

  lemma OneHostOrdered(h: Host, ratio: Ratio, s: Settings)
    requires NonNegative(ratio)
    ensures var max, avg := ResultOf(h, ratio, s, MaxCpu, MaxRam), ResultOf(h, ratio, s, AvgCpu, AvgRam);
            0.0 <= max.nMin <= avg.nMin && 0.0 <= max.storMin <= avg.storMin
  {
    var inTriple := InTriple(h, s);
    OfferIsSound(h, s.t, MaxCpu, MaxRam, inTriple);
    MaxOffersLess(h, s.t, inTriple);
    ResultMono(OfferOf(h, s.t, MaxCpu, MaxRam, inTriple), OfferOf(h, s.t, AvgCpu, AvgRam, inTriple), ratio, s.price);
  }

  lemma {:induction false} SumsOrdered(hosts: seq<Host>, ratio: Ratio, s: Settings)
    requires NonNegative(ratio)
    ensures var max, avg := Results(hosts, ratio, s, MaxCpu, MaxRam), Results(hosts, ratio, s, AvgCpu, AvgRam);
            0.0 <= SumMin(max) <= SumMin(avg) && 0.0 <= SumStorage(max) <= SumStorage(avg)
  {
    if hosts != [] {
      var init, h := hosts[..|hosts| - 1], hosts[|hosts| - 1];
      SumsOrdered(init, ratio, s);
      OneHostOrdered(h, ratio, s);
      ResultsLast(hosts, ratio, s, MaxCpu, MaxRam);
      ResultsLast(hosts, ratio, s, AvgCpu, AvgRam);
    }
  }

  lemma CapsMono(pool: real, pool': real, n: real, n': real, ratio: Ratio)
    requires NonNegative(ratio) && pool <= pool' && 0.0 <= n <= n'
    ensures 0.0 <= ClusterCap(pool, n, ratio) <= ClusterCap(pool', n', ratio)
    ensures 0.0 <= IbmCap(pool, n, ratio) <= IbmCap(pool', n', ratio)
  {
    Scale(n, n', ratio.storage);
    Scale(0.0, n, ratio.storage);
    assert Max(TrackBottleneck(n, n), 0.0) == n && Max(TrackBottleneck(n', n'), 0.0) == n';
  }

  lemma ClusterKeepsOrder(c: TripleCounts, s: Settings, ratio: Ratio)
    requires NonNegative(ratio) && CountsOrdered(c)
    ensures CountsOrdered(WithCluster(c, s, ratio))
  {
    match s.clusterStorage
    case None =>
    case Some(pool) => CapsMono(pool, pool, c.max, c.avg, ratio);
  }

  lemma IbmKeepsOrder(c: TripleCounts, s: Settings, ratio: Ratio)
    requires NonNegative(ratio) && CountsOrdered(c)
    ensures CountsOrdered(WithIbm(c, s, ratio))
  {
    CapsMono(c.storMax, c.storAvg, c.max, c.avg, ratio);
  }

  lemma TriplePanelOrdered(p: Panel, n: TripleCounts, ratio: Ratio, ramRaw: Option<real>, ramPeak: Option<real>)
    requires p.kind != OtherKind && NonNegative(ratio) && CountsOrdered(n)
    ensures TracksOrdered(TriplePanel(p, n, ratio, ramRaw, ramPeak))
  {
  }

  lemma TripleCountsOrdered(hosts: seq<Host>, ratio: Ratio, s: Settings)
    requires NonNegative(ratio)
    ensures CountsOrdered(TripleCountsOf(hosts, ratio, s))
  {
    SumsOrdered(hosts, ratio, s);
    var base := HostCounts(hosts, ratio, s);
    ClusterKeepsOrder(base, s, ratio);
    IbmKeepsOrder(WithCluster(base, s, ratio), s, ratio);
  }

  /**
   Triple engine: whatever the thresholds, the operator's coupling, the cluster pool and the IBM
   range, on CPU, RAM and storage panels the maximum track never exceeds the average one.
   */
  lemma TripleEngineOrdersTracks(p: Panel, ratio: Ratio, hosts: seq<Host>, s: Settings)
    requires p.kind != OtherKind && NonNegative(ratio)
    ensures TracksOrdered(TriplePanel(p, TripleCountsOf(hosts, ratio, s), ratio, s.ramRaw, s.ramPeak))
  {
    TripleCountsOrdered(hosts, ratio, s);
    TriplePanelOrdered(p, TripleCountsOf(hosts, ratio, s), ratio, s.ramRaw, s.ramPeak);
  }

  // ---------------------------------------------------------------- one package count a track

  /** Storage `stor` is what `n` packages take, or, taken from a pool, no more than that. */
  ghost predicate Backed(stor: real, n: real, ratio: Ratio, s: Settings) {
    && n >= 0.0 && 0.0 <= stor <= n * ratio.storage
    && (s.clusterStorage.Some? ==> stor <= Max(s.clusterStorage.value, 0.0))
    && (s.clusterStorage == None && s.ibmRange == None ==> stor == n * ratio.storage)
  }

  /** The storage of a host's result is what its packages take. */
  ghost predicate Packaged(r: HostResult, ratio: Ratio) {
    r.nMin >= 0.0 && r.storMin == r.nMin * ratio.storage
  }

  lemma OfferPackaged(o: Offer, ratio: Ratio, price: real)
    requires o.Sound()
    ensures Packaged(o.Result(ratio, false, price), ratio)
  {
    OfferMono(o, o, ratio);
  }

  lemma HostPackaged(h: Host, ratio: Ratio, s: Settings, cpu: CpuTrack, ram: RamTrack)
    ensures Packaged(ResultOf(h, ratio, s, cpu, ram), ratio)
  {
    OfferIsSound(h, s.t, cpu, ram, InTriple(h, s));
    OfferPackaged(OfferOf(h, s.t, cpu, ram, InTriple(h, s)), ratio, s.price);
  }

  lemma ResultsPackaged(hosts: seq<Host>, ratio: Ratio, s: Settings, cpu: CpuTrack, ram: RamTrack)
    ensures forall r <- Results(hosts, ratio, s, cpu, ram) :: Packaged(r, ratio)
  {
    forall i | 0 <= i < |hosts| ensures Packaged(Results(hosts, ratio, s, cpu, ram)[i], ratio) {
      HostPackaged(hosts[i], ratio, s, cpu, ram);
    }
  }

  lemma {:induction false} SumsPackaged(results: seq<HostResult>, ratio: Ratio)
    requires forall r <- results :: Packaged(r, ratio)
    ensures SumMin(results) >= 0.0 && SumStorage(results) == SumMin(results) * ratio.storage
  {
    if results != [] {
      var init, last := results[..|results| - 1], results[|results| - 1];
      SumsPackaged(init, ratio);
      assert Packaged(last, ratio);
      Distribute(SumMin(init), last.nMin, ratio.storage);
    }
  }

  lemma PackagedIsBacked(results: seq<HostResult>, ratio: Ratio, s: Settings)
    requires NonNegative(ratio) && forall r <- results :: Packaged(r, ratio)
    ensures Backed(TrackStorage(SumStorage(results), SumMin(results), ratio, s), SumMin(results), ratio, s)
  {
    SumsPackaged(results, ratio);
    TrackStorageBacked(SumStorage(results), SumMin(results), ratio, s);
  }

  lemma TrackBacked(hosts: seq<Host>, ratio: Ratio, s: Settings, cpu: CpuTrack, ram: RamTrack)
    requires NonNegative(ratio)
    ensures var results := Results(hosts, ratio, s, cpu, ram);
            Backed(TrackStorage(SumStorage(results), SumMin(results), ratio, s), SumMin(results), ratio, s)
  {
    ResultsPackaged(hosts, ratio, s, cpu, ram);
    PackagedIsBacked(Results(hosts, ratio, s, cpu, ram), ratio, s);
  }

  lemma Distribute(x: real, y: real, k: real)
    ensures (x + y) * k == x * k + y * k
  {
  }

  /** The last host adds its own result. */
  lemma ResultsLast(hosts: seq<Host>, ratio: Ratio, s: Settings, cpu: CpuTrack, ram: RamTrack)
    requires hosts != []
    ensures Results(hosts, ratio, s, cpu, ram)
            == Results(hosts[..|hosts| - 1], ratio, s, cpu, ram) + [ResultOf(hosts[|hosts| - 1], ratio, s, cpu, ram)]
  {
  }

  /** What the two storage steps make of one track. */
  function TrackStorage(own: real, n: real, ratio: Ratio, s: Settings): real {
    var pooled := match s.clusterStorage case None => own case Some(pool) => ClusterCap(pool, n, ratio);
    match s.ibmRange case None => pooled case Some(_) => IbmCap(pooled, n, ratio)
  }

  lemma TrackStorageBacked(own: real, n: real, ratio: Ratio, s: Settings)
    requires NonNegative(ratio) && n >= 0.0 && own == n * ratio.storage
    ensures Backed(TrackStorage(own, n, ratio, s), n, ratio, s)
  {
    Scale(0.0, n, ratio.storage);
    assert Max(TrackBottleneck(n, n), 0.0) == n;
  }

  lemma TrackStorages(hosts: seq<Host>, ratio: Ratio, s: Settings)
    ensures var c := TripleCountsOf(hosts, ratio, s);
            var alloc, max := Results(hosts, ratio, s, Effective, PhysicalRam),
                Results(hosts, ratio, s, MaxCpu, MaxRam);
            var avg := Results(hosts, ratio, s, AvgCpu, AvgRam);
            && c.alloc == SumMin(alloc) && c.max == SumMin(max) && c.avg == SumMin(avg)
            && c.storAlloc == TrackStorage(SumStorage(alloc), c.alloc, ratio, s)
            && c.storMax == TrackStorage(SumStorage(max), c.max, ratio, s)
            && c.storAvg == TrackStorage(SumStorage(avg), c.avg, ratio, s)
  {
  }

  /**
   Triple engine: on each track one number of packages gives the CPU, the RAM and the storage shown.
   From the hosts' own storage it is exactly what those packages take; from a pool it is no more than
   that, and no more than the pool holds.
   */
  lemma TripleTracksCoupled(hosts: seq<Host>, ratio: Ratio, s: Settings)
    requires NonNegative(ratio)
    ensures var c := TripleCountsOf(hosts, ratio, s);
            Backed(c.storAlloc, c.alloc, ratio, s) && Backed(c.storMax, c.max, ratio, s)
                && Backed(c.storAvg, c.avg, ratio, s)
  {
    TrackBacked(hosts, ratio, s, Effective, PhysicalRam);
    TrackBacked(hosts, ratio, s, MaxCpu, MaxRam);
    TrackBacked(hosts, ratio, s, AvgCpu, AvgRam);
    TrackStorages(hosts, ratio, s);
  }
}
