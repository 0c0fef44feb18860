/**
 One host's figures and the pair engine (shared/sellable/computation.py:448-576): how many packages
 of CPU and RAM fit on each host, summed over the hosts.
 */
module Hosts {
  import opened Prelude
  import opened Gate

  /** The keys of a host dictionary that the engines read. */
  datatype Field =
    | CpuTotal | CpuAlloc | CpuUtilPct | CpuTotalPhys | CpuAllocPhys | GhzPerCore
    | CpuUsedGhzPeak | CpuUsedGhz | CpuPeakUtilPct | CpuUsedGhzAvg | CpuAvgUtilPct
    | CpuCapGhz | CpuAllocGhz | CpuAllocGhzPhysical | CpuUsedPct
    | MemCapGbAtPeak | RamPeakTotal | MemUsedGbPeak | RamPeakUsed | MemPeakUtilPct | RamPeakUtilPct
    | MemCapGbAvg | RamTotal | MemUsedGbAvg | MemPeakUsed | MemAvgUtilPct | RamUtilPct | RamAlloc
    | MemPeakTotal | MemCapGb | MemAllocGb | MemUsedPct
    | StorExclusiveFreeGb | StorCapGb | StorUsedHostGb | StorUsedGb | StorProvisionedGb | StorUsedPct

  datatype Mount = Mount(shared: bool, freeGb: Option<real>)

  /** A host dictionary: `figures` holds the keys that are present with a number. */
  datatype Host = Host(
    figures: map<Field, real>, mounts: seq<Mount>, vmCount: int, clusterPool: bool, kmShared: bool) {

    /** `host.get(k) or 0.0` */
    function At(k: Field): real {
      if k in figures then figures[k] else 0.0
    }

    /** `host.get(k) or host.get(j) or 0.0`: a zero falls through like an absent key. */
    function Or(k: Field, j: Field): real {
      if At(k) != 0.0 then At(k) else At(j)
    }

    function Or3(k: Field, j: Field, i: Field): real {
      if At(k) != 0.0 then At(k) else Or(j, i)
    }

    /** The first key present, a genuine zero included: computation.py:448-457. */
    function FirstOf3(k: Field, j: Field, i: Field): real {
      if k in figures then figures[k] else if j in figures then figures[j] else At(i)
    }

    function FirstOf4(k: Field, j: Field, i: Field, h: Field): real {
      if k in figures then figures[k] else FirstOf3(j, i, h)
    }
  }

  /** Package sizes: CPU, RAM and storage that one unit takes. */
  datatype Ratio = Ratio(cpu: real, ram: real, storage: real)

  datatype CpuTrack = Effective | PhysicalCpu | MaxCpu | AvgCpu

  datatype RamTrack = PhysicalRam | MaxRam | AvgRam

  // ---------------------------------------------------------------- one host

  /** computation.py:460-467 */
  function CpuMaxRaw(h: Host, pct: real): real {
    Headroom(h.At(CpuTotal), h.Or(CpuUsedGhzPeak, CpuUsedGhz), h.Or(CpuPeakUtilPct, CpuUtilPct), pct)
  }

  /** computation.py:470-477 */
  function RamMaxRaw(h: Host, pct: real): real {
    Headroom(h.Or(MemCapGbAtPeak, RamPeakTotal), h.Or(MemUsedGbPeak, RamPeakUsed),
        h.Or(MemPeakUtilPct, RamPeakUtilPct), pct)
  }

  /** computation.py:507-543; the average track is never below the maximum track. */
  function CpuRaw(h: Host, track: CpuTrack, pct: real): real {
    match track
    case PhysicalCpu => Headroom(h.Or(CpuTotalPhys, CpuTotal), h.At(CpuAllocPhys), h.At(CpuUtilPct), pct)
    case MaxCpu => CpuMaxRaw(h, pct)
    case AvgCpu =>
      Max(Headroom(h.At(CpuTotal), h.FirstOf3(CpuUsedGhzAvg, CpuUsedGhzPeak, CpuUsedGhz),
                   h.FirstOf3(CpuAvgUtilPct, CpuPeakUtilPct, CpuUtilPct), pct),
          CpuMaxRaw(h, pct))
    case Effective => Headroom(h.At(CpuTotal), h.At(CpuAlloc), h.At(CpuUtilPct), pct)
  }

  /** computation.py:544-574 */
  function RamRaw(h: Host, track: RamTrack, pct: real): real {
    match track
    case MaxRam => RamMaxRaw(h, pct)
    case AvgRam =>
      Max(Headroom(h.FirstOf3(MemCapGbAvg, MemCapGbAtPeak, RamTotal),
          h.FirstOf3(MemUsedGbAvg, MemUsedGbPeak, MemPeakUsed),
                   h.FirstOf3(MemAvgUtilPct, MemPeakUtilPct, RamUtilPct), pct),
          RamMaxRaw(h, pct))
    case PhysicalRam => Headroom(h.At(RamTotal), h.At(RamAlloc), h.At(RamUtilPct), pct)
  }

  /** What one package takes of the CPU figure: computation.py:507-530. */
  function CpuPerUnit(h: Host, ratio: Ratio, track: CpuTrack, ghzPerUnit: real): (d: real)
    requires ratio.cpu > 0.0
    ensures d > 0.0
  {
    match track
    case PhysicalCpu =>
      var ghz := if h.At(GhzPerCore) != 0.0 then h.At(GhzPerCore) else 1.0;
      if ghz > 0.0 then ratio.cpu * ghz else ratio.cpu
    case _ => InGhz(ratio, ghzPerUnit).cpu
  }

  /** The ratio with its CPU side turned into GHz: computation.py:516, 523, 530. */
  function InGhz(ratio: Ratio, ghzPerUnit: real): (r: Ratio)
    ensures ratio.cpu > 0.0 ==> r.cpu > 0.0
    ensures r.ram == ratio.ram && r.storage == ratio.storage
  {
    ratio.(cpu := ratio.cpu * Max(ghzPerUnit, PCT_SLACK))
  }

  function PairUnits(h: Host, ratio: Ratio, cpuPct: real, ramPct: real, cpu: CpuTrack, ram: RamTrack,
                     ghzPerUnit: real): real
    requires ratio.cpu > 0.0 && ratio.ram > 0.0
  {
    Min(CpuRaw(h, cpu, cpuPct) / CpuPerUnit(h, ratio, cpu, ghzPerUnit), RamRaw(h, ram, ramPct) / ratio.ram)
  }

  // ---------------------------------------------------------------- all hosts

  function SumPairUnits(hosts: seq<Host>, ratio: Ratio, cpuPct: real, ramPct: real, cpu: CpuTrack, ram: RamTrack,
                        ghzPerUnit: real): real
    requires ratio.cpu > 0.0 && ratio.ram > 0.0
  {
    if hosts == [] then 0.0
    else
      SumPairUnits(hosts[..|hosts| - 1], ratio, cpuPct, ramPct, cpu, ram, ghzPerUnit)
      + PairUnits(hosts[|hosts| - 1], ratio, cpuPct, ramPct, cpu, ram, ghzPerUnit)
  }

  /** What `host_effective_units` returns: nothing fits when a package size is not positive. */
  function EffectiveUnits(hosts: seq<Host>, ratio: Ratio, cpuPct: real, ramPct: real, cpu: CpuTrack, ram: RamTrack,
                          ghzPerUnit: real): real {
    if ratio.cpu <= 0.0 || ratio.ram <= 0.0 then 0.0
    else SumPairUnits(hosts, ratio, cpuPct, ramPct, cpu, ram, ghzPerUnit)
  }

  /** computation.py:480-576 */
  method HostEffectiveUnits(hosts: seq<Host>, ratio: Ratio, cpuPct: real, ramPct: real, cpu: CpuTrack, ram: RamTrack,
                            ghzPerUnit: real)
    returns (n: real)
    ensures n == EffectiveUnits(hosts, ratio, cpuPct, ramPct, cpu, ram, ghzPerUnit)
  {
    if ratio.cpu <= 0.0 || ratio.ram <= 0.0 {
      return 0.0;
    }
    n := 0.0;
    for i := 0 to |hosts|
      invariant n == SumPairUnits(hosts[..i], ratio, cpuPct, ramPct, cpu, ram, ghzPerUnit)
    {
      assert hosts[..i + 1][..i] == hosts[..i];
      var h := hosts[i];
      var rawCpu := CpuRaw(h, cpu, cpuPct);
      var rawRam := RamRaw(h, ram, ramPct);
      n := n + Min(rawCpu / CpuPerUnit(h, ratio, cpu, ghzPerUnit), rawRam / ratio.ram);
    }
    assert hosts[..|hosts|] == hosts;
  }

  lemma RawBounds(h: Host, pct: real)
    ensures forall track :: CpuRaw(h, track, pct) >= 0.0
    ensures forall track :: RamRaw(h, track, pct) >= 0.0
    ensures CpuRaw(h, MaxCpu, pct) <= CpuRaw(h, AvgCpu, pct)
    ensures RamRaw(h, MaxRam, pct) <= RamRaw(h, AvgRam, pct)
  {
  }

  /** Per host, the average track never offers fewer packages than the maximum track, nor a negative number. */
  lemma PairMaxBelowAvg(h: Host, ratio: Ratio, cpuPct: real, ramPct: real, ghzPerUnit: real)
    requires ratio.cpu > 0.0 && ratio.ram > 0.0
    ensures 0.0 <= PairUnits(h, ratio, cpuPct, ramPct, MaxCpu, MaxRam, ghzPerUnit)
                <= PairUnits(h, ratio, cpuPct, ramPct, AvgCpu, AvgRam, ghzPerUnit)
  {
    RawBounds(h, cpuPct);
    RawBounds(h, ramPct);
    Divide(CpuRaw(h, MaxCpu, cpuPct), CpuRaw(h, AvgCpu, cpuPct), CpuPerUnit(h, ratio, MaxCpu, ghzPerUnit));
    Divide(RamRaw(h, MaxRam, ramPct), RamRaw(h, AvgRam, ramPct), ratio.ram);
  }

  lemma {:induction false} SumMaxBelowAvg(hosts: seq<Host>, ratio: Ratio, cpuPct: real, ramPct: real, ghzPerUnit: real)
    ensures 0.0 <= EffectiveUnits(hosts, ratio, cpuPct, ramPct, MaxCpu, MaxRam, ghzPerUnit)
                <= EffectiveUnits(hosts, ratio, cpuPct, ramPct, AvgCpu, AvgRam, ghzPerUnit)
  {
    if ratio.cpu > 0.0 && ratio.ram > 0.0 && hosts != [] {
      SumMaxBelowAvg(hosts[..|hosts| - 1], ratio, cpuPct, ramPct, ghzPerUnit);
      PairMaxBelowAvg(hosts[|hosts| - 1], ratio, cpuPct, ramPct, ghzPerUnit);
    }
  }
}
