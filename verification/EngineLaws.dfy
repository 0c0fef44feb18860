/**
 How the two engines relate, and how the operator's coupling moves the triple engine's total
 (shared/sellable/computation.py:480-576, 719-765; shared/sellable/host_sellable.py:130-208, 225-295, 360-366).
 */
module EngineLaws {
  import opened Prelude
  import opened Gate
  import opened Hosts
  import opened HostSellable
  import opened Panels
  import opened Engines

  // ---------------------------------------------------------------- agreement

  /** Key `a`, where present, repeats what key `b` says. */
  predicate Twin(h: Host, a: Field, b: Field) {
    a in h.figures ==> h.figures[a] == h.At(b)
  }

  /** The two engines read different keys; on an aligned host those keys say the same. */
  predicate Aligned(h: Host) {
    && Twin(h, CpuCapGhz, CpuTotal) && Twin(h, CpuAllocGhz, CpuAlloc) && Twin(h, CpuUsedPct, CpuUtilPct)
    && Twin(h, MemCapGb, RamTotal) && Twin(h, MemAllocGb, RamAlloc) && Twin(h, MemUsedPct, RamUtilPct)
    && h.At(MemCapGbAtPeak) != 0.0 && h.At(MemUsedGbPeak) != 0.0 && h.At(MemPeakUtilPct) != 0.0
    && h.At(CpuTotal) > 0.0 && h.At(RamTotal) > 0.0
  }

  /** Machines are known to run there, but not what CPU or RAM they were given. */
  predicate Unknown(h: Host) {
    h.vmCount > 0 && (h.At(CpuAlloc) <= 0.0 || h.At(RamAlloc) <= 0.0)
  }

  lemma UtilisationTracksAgree(h: Host, pct: real)
    requires Aligned(h)
    ensures CpuHeadroom(h, MaxCpu, pct) == CpuRaw(h, MaxCpu, pct)
            && RamHeadroom(h, MaxRam, pct) == RamRaw(h, MaxRam, pct)
    ensures CpuHeadroom(h, AvgCpu, pct) == CpuRaw(h, AvgCpu, pct)
            && RamHeadroom(h, AvgRam, pct) == RamRaw(h, AvgRam, pct)
  {
  }

  lemma AllocationTrackAgrees(h: Host, cpuPct: real, ramPct: real)
    requires Aligned(h)
    ensures !Unknown(h) ==> CpuHeadroom(h, Effective, cpuPct) == CpuRaw(h, Effective, cpuPct)
    ensures !Unknown(h) ==> RamHeadroom(h, PhysicalRam, ramPct) == RamRaw(h, PhysicalRam, ramPct)
    ensures Unknown(h) ==> CpuHeadroom(h, Effective, cpuPct) == 0.0 || RamHeadroom(h, PhysicalRam, ramPct) == 0.0
  {
  }

  /** With storage pulled out, the packages on a host with CPU and RAM are the lesser of the two quotients. */
  lemma UnitsWithoutStorage(o: Offer, ratio: Ratio)
    requires ratio.cpu > 0.0 && ratio.ram > 0.0 && o.cpuCap > 0.0 && o.memCap > 0.0 && o.storCap == 0.0 && !o.noStorage
    ensures o.UnitsMin(ratio) == Min(o.cpu / ratio.cpu, o.ram / ratio.ram)
    ensures o.cpu >= 0.0 && o.ram >= 0.0 && (o.cpu == 0.0 || o.ram == 0.0) ==> o.UnitsMin(ratio) == 0.0
  {
  }

  /** One host's packages in the pair engine, at 1 GHz a CPU unit. */
  function PairAt1(h: Host, ratio: Ratio, t: Thresholds, cpu: CpuTrack, ram: RamTrack): real
    requires ratio.cpu > 0.0 && ratio.ram > 0.0
  {
    PairUnits(h, ratio, t.cpu, t.ram, cpu, ram, 1.0)
  }

  lemma PairAt1Is(h: Host, ratio: Ratio, t: Thresholds, cpu: CpuTrack, ram: RamTrack)
    requires ratio.cpu > 0.0 && ratio.ram > 0.0 && cpu != PhysicalCpu
    ensures PairAt1(h, ratio, t, cpu, ram) == Min(CpuRaw(h, cpu, t.cpu) / ratio.cpu, RamRaw(h, ram, t.ram) / ratio.ram)
    ensures PairAt1(h, ratio, t, cpu, ram) >= 0.0
  {
  }

  lemma OfferApart(h: Host, t: Thresholds, cpu: CpuTrack, ram: RamTrack)
    requires Aligned(h)
    ensures var o := OfferOf(h, t, cpu, ram, false);
            && o.cpuCap > 0.0 && o.memCap > 0.0 && o.storCap == 0.0 && !o.noStorage
            && o.cpu == CpuHeadroom(h, cpu, t.cpu) && o.ram == RamHeadroom(h, ram, t.ram)
  {
  }

  /** On one aligned host the engines agree on utilisation tracks, and on allocation unless it is unknown. */
  lemma HostEnginesAgree(h: Host, ratio: Ratio, t: Thresholds)
    requires Aligned(h) && ratio.cpu > 0.0 && ratio.ram > 0.0
    ensures OfferOf(h, t, MaxCpu, MaxRam, false).UnitsMin(ratio) == PairAt1(h, ratio, t, MaxCpu, MaxRam)
    ensures OfferOf(h, t, AvgCpu, AvgRam, false).UnitsMin(ratio) == PairAt1(h, ratio, t, AvgCpu, AvgRam)
    ensures OfferOf(h, t, Effective, PhysicalRam, false).UnitsMin(ratio)
            == if Unknown(h) then 0.0 else PairAt1(h, ratio, t, Effective, PhysicalRam)
    ensures PairAt1(h, ratio, t, Effective, PhysicalRam) >= 0.0
  {
    OneTrackAgrees(h, ratio, t, MaxCpu, MaxRam);
    OneTrackAgrees(h, ratio, t, AvgCpu, AvgRam);
    OneTrackAgrees(h, ratio, t, Effective, PhysicalRam);
    UtilisationTracksAgree(h, t.cpu);
    UtilisationTracksAgree(h, t.ram);
    AllocationTrackAgrees(h, t.cpu, t.ram);
  }

  lemma OneTrackAgrees(h: Host, ratio: Ratio, t: Thresholds, cpu: CpuTrack, ram: RamTrack)
    requires Aligned(h) && ratio.cpu > 0.0 && ratio.ram > 0.0 && cpu != PhysicalCpu
    ensures var c, r := CpuHeadroom(h, cpu, t.cpu), RamHeadroom(h, ram, t.ram);
            var n := OfferOf(h, t, cpu, ram, false).UnitsMin(ratio);
            && (c == CpuRaw(h, cpu, t.cpu) && r == RamRaw(h, ram, t.ram) ==> n == PairAt1(h, ratio, t, cpu, ram))
            && (c == 0.0 || r == 0.0 ==> n == 0.0)
            && PairAt1(h, ratio, t, cpu, ram) >= 0.0
  {
    OfferApart(h, t, cpu, ram);
    UnitsWithoutStorage(OfferOf(h, t, cpu, ram, false), ratio);
    PairAt1Is(h, ratio, t, cpu, ram);
    HeadroomTracks(h, t.cpu);
    HeadroomTracks(h, t.ram);
  }

  ghost predicate AllAligned(hosts: seq<Host>, s: Settings) {
    forall h <- hosts :: Aligned(h) && !InTriple(h, s)
  }

  /** The recorded CPU and RAM figures leave room: neither threshold used up, neither gate closed. */
  predicate HasRoomLeft(h: Host, t: Thresholds) {
    && HasRoom(h.At(CpuTotal), h.At(CpuAlloc), h.At(CpuUtilPct), t.cpu)
    && HasRoom(h.At(RamTotal), h.At(RamAlloc), h.At(RamUtilPct), t.ram)
  }

  lemma PairCountsRoom(h: Host, ratio: Ratio, t: Thresholds)
    requires ratio.cpu > 0.0 && ratio.ram > 0.0
    ensures PairAt1(h, ratio, t, Effective, PhysicalRam) > 0.0 <==> HasRoomLeft(h, t)
  {
    PairAt1Is(h, ratio, t, Effective, PhysicalRam);
    RoomMeansHeadroom(h.At(CpuTotal), h.At(CpuAlloc), h.At(CpuUtilPct), t.cpu);
    RoomMeansHeadroom(h.At(RamTotal), h.At(RamAlloc), h.At(RamUtilPct), t.ram);
    PositiveMin(CpuRaw(h, Effective, t.cpu), RamRaw(h, PhysicalRam, t.ram), ratio);
  }

  lemma PositiveMin(c: real, r: real, ratio: Ratio)
    requires ratio.cpu > 0.0 && ratio.ram > 0.0 && c >= 0.0 && r >= 0.0
    ensures Min(c / ratio.cpu, r / ratio.ram) > 0.0 <==> c > 0.0 && r > 0.0
  {
  }

  /** Some host has room by its figures, though its allocation is unknown. */
  ghost predicate UnknownWithRoom(hosts: seq<Host>, t: Thresholds) {
    exists h <- hosts :: Unknown(h) && HasRoomLeft(h, t)
  }

  /**
   With storage pulled out and aligned keys the two engines count the same packages on the maximum
   and average tracks. On the allocation track the triple engine counts no more, and the same exactly
   when no host whose allocation is unknown has room by its figures.
   */
  lemma EnginesAgree(hosts: seq<Host>, ratio: Ratio, s: Settings)
    requires AllAligned(hosts, s) && ratio.cpu > 0.0 && ratio.ram > 0.0
    ensures SumMin(Results(hosts, ratio, s, MaxCpu, MaxRam))
            == EffectiveUnits(hosts, ratio, s.t.cpu, s.t.ram, MaxCpu, MaxRam, 1.0)
    ensures SumMin(Results(hosts, ratio, s, AvgCpu, AvgRam))
            == EffectiveUnits(hosts, ratio, s.t.cpu, s.t.ram, AvgCpu, AvgRam, 1.0)
    ensures var triple := SumMin(Results(hosts, ratio, s, Effective, PhysicalRam));
            var pair := EffectiveUnits(hosts, ratio, s.t.cpu, s.t.ram, Effective, PhysicalRam, 1.0);
            triple <= pair && (triple == pair <==> !UnknownWithRoom(hosts, s.t))
  {
    UtilisationSumsAgree(hosts, ratio, s, MaxCpu, MaxRam);
    UtilisationSumsAgree(hosts, ratio, s, AvgCpu, AvgRam);
    AllocationSumsAgree(hosts, ratio, s);
  }

  lemma {:induction false} UtilisationSumsAgree(hosts: seq<Host>, ratio: Ratio, s: Settings, cpu: CpuTrack,
                                                ram: RamTrack)
    requires AllAligned(hosts, s) && ratio.cpu > 0.0 && ratio.ram > 0.0
    requires (cpu == MaxCpu && ram == MaxRam) || (cpu == AvgCpu && ram == AvgRam)
    ensures SumMin(Results(hosts, ratio, s, cpu, ram)) == EffectiveUnits(hosts, ratio, s.t.cpu, s.t.ram, cpu, ram, 1.0)
  {
    if hosts != [] {
      var init, h := hosts[..|hosts| - 1], hosts[|hosts| - 1];
      UtilisationSumsAgree(init, ratio, s, cpu, ram);
      HostEnginesAgree(h, ratio, s.t);
      SumMinLast(hosts, ratio, s, cpu, ram);
      PairLast(hosts, ratio, s.t, cpu, ram);
    }
  }

  lemma {:induction false} AllocationSumsAgree(hosts: seq<Host>, ratio: Ratio, s: Settings)
    requires AllAligned(hosts, s) && ratio.cpu > 0.0 && ratio.ram > 0.0
    ensures var triple := SumMin(Results(hosts, ratio, s, Effective, PhysicalRam));
            var pair := EffectiveUnits(hosts, ratio, s.t.cpu, s.t.ram, Effective, PhysicalRam, 1.0);
            triple <= pair && (triple == pair <==> !UnknownWithRoom(hosts, s.t))
  {
    if hosts != [] {
      var init, h := hosts[..|hosts| - 1], hosts[|hosts| - 1];
      assert hosts == init + [h];
      AllocationSumsAgree(init, ratio, s);
      HostEnginesAgree(h, ratio, s.t);
      SumMinLast(hosts, ratio, s, Effective, PhysicalRam);
      PairLast(hosts, ratio, s.t, Effective, PhysicalRam);
      PairCountsRoom(h, ratio, s.t);
      UnknownWithRoomLast(init, h, s.t);
    }
  }

  lemma PairLast(hosts: seq<Host>, ratio: Ratio, t: Thresholds, cpu: CpuTrack, ram: RamTrack)
    requires hosts != [] && ratio.cpu > 0.0 && ratio.ram > 0.0
    ensures var init, h := hosts[..|hosts| - 1], hosts[|hosts| - 1];
            EffectiveUnits(hosts, ratio, t.cpu, t.ram, cpu, ram, 1.0)
            == EffectiveUnits(init, ratio, t.cpu, t.ram, cpu, ram, 1.0) + PairAt1(h, ratio, t, cpu, ram)
  {
  }

  lemma UnknownWithRoomLast(init: seq<Host>, h: Host, t: Thresholds)
    ensures UnknownWithRoom(init + [h], t) <==> UnknownWithRoom(init, t) || (Unknown(h) && HasRoomLeft(h, t))
  {
    if UnknownWithRoom(init, t) {
      var u :| u in init && Unknown(u) && HasRoomLeft(u, t);
      assert u in init + [h];
    }
    assert h in init + [h];
  }

  /** The last host adds what it offers. */
  lemma SumMinLast(hosts: seq<Host>, ratio: Ratio, s: Settings, cpu: CpuTrack, ram: RamTrack)
    requires hosts != []
    ensures var init, h := hosts[..|hosts| - 1], hosts[|hosts| - 1];
            SumMin(Results(hosts, ratio, s, cpu, ram))
            == SumMin(Results(init, ratio, s, cpu, ram)) + OfferOf(h, s.t, cpu, ram, InTriple(h, s)).UnitsMin(ratio)
  {
    var init, h := hosts[..|hosts| - 1], hosts[|hosts| - 1];
    ResultsLast(hosts, ratio, s, cpu, ram);
    SumMinAppend(Results(init, ratio, s, cpu, ram), ResultOf(h, ratio, s, cpu, ram));
    ResultUnits(OfferOf(h, s.t, cpu, ram, InTriple(h, s)), ratio, s.price);
  }

  lemma ResultUnits(o: Offer, ratio: Ratio, price: real)
    ensures o.Result(ratio, false, price).nMin == o.UnitsMin(ratio)
  {
  }

  /** Storage settings leave the package counts alone. */
  lemma CountsBeforeStorage(hosts: seq<Host>, ratio: Ratio, s: Settings)
    ensures var n := TripleCountsOf(hosts, ratio, s);
            && n.alloc == SumMin(Results(hosts, ratio, s, Effective, PhysicalRam))
            && n.max == SumMin(Results(hosts, ratio, s, MaxCpu, MaxRam))
            && n.avg == SumMin(Results(hosts, ratio, s, AvgCpu, AvgRam))
  {
  }

  lemma SameCountsSamePanel(p: Panel, n: TripleCounts, m: PairCounts, ratio: Ratio, ramRaw: Option<real>,
                            ramPeak: Option<real>)
    requires p.kind == Cpu && n.alloc == m.cpuAlloc && n.max == m.cpuMax && n.avg == m.avg
    ensures TriplePanel(p, n, ratio, ramRaw, ramPeak) == PairPanel(p, m, ratio, ramRaw, ramPeak)
  {
    assert n.alloc * ratio.cpu == m.cpuAlloc * ratio.cpu;
    assert n.max * ratio.cpu == m.cpuMax * ratio.cpu;
    assert n.avg * ratio.cpu == m.avg * ratio.cpu;
    var x, y := TriplePanel(p, n, ratio, ramRaw, ramPeak), PairPanel(p, m, ratio, ramRaw, ramPeak);
    assert x.maxUtil.value == y.maxUtil.value && x.avgUtil.value == y.avgUtil.value;
  }

  /** So both engines fill in a CPU panel alike. */
  lemma CpuPanelsAgree(p: Panel, hosts: seq<Host>, ratio: Ratio, s: Settings)
    requires p.kind == Cpu && s.ghz == 1.0
    requires AllAligned(hosts, s) && ratio.cpu > 0.0 && ratio.ram > 0.0 && !UnknownWithRoom(hosts, s.t)
    ensures TriplePanel(p, TripleCountsOf(hosts, ratio, s), ratio, s.ramRaw, s.ramPeak)
            == PairPanel(p, PairCountsOf(hosts, ratio, s.t.cpu, s.t.ram, s.ghz), ratio, s.ramRaw, s.ramPeak)
  {
    EnginesAgree(hosts, ratio, s);
    CountsBeforeStorage(hosts, ratio, s);
    var n, m := TripleCountsOf(hosts, ratio, s), PairCountsOf(hosts, ratio, s.t.cpu, s.t.ram, s.ghz);
    SameCountsSamePanel(p, n, m, ratio, s.ramRaw, s.ramPeak);
  }

  /** Ten units of CPU and RAM, a machine known to run there, and no allocation on record. */
  function UnknownHost(): Host {
    Host(map[CpuTotal := 10.0, RamTotal := 10.0, MemCapGbAtPeak := 10.0, MemUsedGbPeak := 1.0, MemPeakUtilPct := 10.0],
         [], 1, false, false)
  }

  lemma UnknownHostFigures(t: Thresholds)
    requires t == Thresholds(80.0, 80.0, 80.0)
    ensures var h, ratio := UnknownHost(), Ratio(1.0, 1.0, 1.0);
            Aligned(h) && Unknown(h) && PairAt1(h, ratio, t, Effective, PhysicalRam) == 8.0
  {
    PairAt1Is(UnknownHost(), Ratio(1.0, 1.0, 1.0), t, Effective, PhysicalRam);
    assert Headroom(10.0, 0.0, 0.0, 80.0) == 8.0;
  }

  lemma OneAlignedHost(h: Host, ratio: Ratio, s: Settings)
    requires Aligned(h) && !InTriple(h, s) && ratio.cpu > 0.0 && ratio.ram > 0.0
    ensures var pair := PairAt1(h, ratio, s.t, Effective, PhysicalRam);
            && SumMin(Results([h], ratio, s, Effective, PhysicalRam)) == (if Unknown(h) then 0.0 else pair)
            && EffectiveUnits([h], ratio, s.t.cpu, s.t.ram, Effective, PhysicalRam, 1.0) == pair
  {
    var none: seq<Host> := [];
    assert [h][..0] == none;
    HostEnginesAgree(h, ratio, s.t);
    SumMinLast([h], ratio, s, Effective, PhysicalRam);
    PairLast([h], ratio, s.t, Effective, PhysicalRam);
  }

  /** At a threshold of 80% the pair engine counts eight packages on it and the triple engine none. */
  lemma UnknownHostDivides(s: Settings)
    requires s.t == Thresholds(80.0, 80.0, 80.0) && !InTriple(UnknownHost(), s)
    ensures var hosts, ratio := [UnknownHost()], Ratio(1.0, 1.0, 1.0);
            && AllAligned(hosts, s)
            && SumMin(Results(hosts, ratio, s, Effective, PhysicalRam)) == 0.0
            && EffectiveUnits(hosts, ratio, s.t.cpu, s.t.ram, Effective, PhysicalRam, 1.0) == 8.0
  {
    UnknownHostFigures(s.t);
    OneAlignedHost(UnknownHost(), Ratio(1.0, 1.0, 1.0), s);
  }

  // ---------------------------------------------------------------- coupling

  /** The operator's choice for every host. */
  function Everywhere(choice: Option<bool>): Host -> Option<bool> {
    _ => choice
  }

  /**
   Whatever is decided host by host, forcing storage into the coupling everywhere offers no more
   packages, and pulling it out everywhere no fewer, on hosts that CPU or RAM limits.
   */
  lemma {:induction false} CouplingOrdersTotals(hosts: seq<Host>, ratio: Ratio, s: Settings, cpu: CpuTrack,
                                                ram: RamTrack)
    requires forall h <- hosts :: CanCompute(h, ratio)
    ensures SumMin(Results(hosts, ratio, s.(coupling := Everywhere(Some(true))), cpu, ram))
            <= SumMin(Results(hosts, ratio, s, cpu, ram))
            <= SumMin(Results(hosts, ratio, s.(coupling := Everywhere(Some(false))), cpu, ram))
  {
    var merged, separate := s.(coupling := Everywhere(Some(true))), s.(coupling := Everywhere(Some(false)));
    if hosts != [] {
      var init, h := hosts[..|hosts| - 1], hosts[|hosts| - 1];
      assert hosts == init + [h];
      CouplingOrdersTotals(init, ratio, s, cpu, ram);
      SumMinLast(hosts, ratio, merged, cpu, ram);
      SumMinLast(hosts, ratio, s, cpu, ram);
      SumMinLast(hosts, ratio, separate, cpu, ram);
      assert InTriple(h, merged) && !InTriple(h, separate);
      MergedBelowSeparateExactly(h, ratio, s.t, cpu, ram);
      assert h in hosts;
    }
  }
}
