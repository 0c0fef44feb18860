/**
 Panels and the pooled ratio constraint (shared/sellable/computation.py:93-175): the largest number
 of whole-ratio packages that fits under every panel.
 */
module Panels {
  import opened Prelude
  import opened Gate
  import opened Hosts
  import opened HostSellable

  datatype Kind = Cpu | Ram | Storage | OtherKind

  datatype Reason = NoReason | BlankReason | GateReason | RatioReason | BottleneckReason

  /** The part of a panel result that the computation reads or writes (shared/sellable/models.py:106-152). */
  datatype Panel = Panel(
    kind: Kind, raw: real, constrained: real, ratioBound: bool, gateBlocked: bool,
    min: Option<real>, max: Option<real>,
    allocation: Option<real>, maxUtil: Option<real>, avgUtil: Option<real>,
    physical: Option<real>, effective: Option<real>, hostBased: bool,
    reason: Reason, bottleneckKind: Option<Kind>, bottleneckUnits: Option<real>)

  function PerUnit(ratio: Ratio, kind: Kind): real {
    match kind
    case Cpu => ratio.cpu
    case Ram => ratio.ram
    case Storage => ratio.storage
    case OtherKind => 0.0
  }

  /** The last panel of a kind. */
  function LastOf(panels: seq<Panel>, kind: Kind): Option<Panel> {
    if panels == [] then None
    else if panels[|panels| - 1].kind == kind then Some(panels[|panels| - 1])
    else LastOf(panels[..|panels| - 1], kind)
  }

  /** computation.py:93-99 */
  method SplitByKind(panels: seq<Panel>) returns (byKind: map<Kind, Panel>)
    ensures forall k ::
              (k in byKind <==> LastOf(panels, k).Some?) && (k in byKind ==> byKind[k] == LastOf(panels, k).value)
  {
    byKind := map[];
    for i := 0 to |panels|
      invariant forall k :: (k in byKind <==> LastOf(panels[..i], k).Some?)
                            && (k in byKind ==> byKind[k] == LastOf(panels[..i], k).value)
    {
      assert panels[..i + 1][..i] == panels[..i];
      byKind := byKind[panels[i].kind := panels[i]];
    }
    assert panels[..|panels|] == panels;
  }

  /** Packages a kind allows, if it takes part. */
  function KindLimit(panels: seq<Panel>, ratio: Ratio, decoupled: set<Kind>, kind: Kind): Option<real> {
    if LastOf(panels, kind).Some? && PerUnit(ratio, kind) > 0.0 && !(kind == Storage && Storage in decoupled)
    then Some(LastOf(panels, kind).value.raw / PerUnit(ratio, kind)) else None
  }

  /** The least of the limits, 0 when there is none. */
  function PooledUnits(panels: seq<Panel>, ratio: Ratio, decoupled: set<Kind>): real {
    var least := Least(Least(KindLimit(panels, ratio, decoupled, Cpu), KindLimit(panels, ratio, decoupled, Ram)),
                       KindLimit(panels, ratio, decoupled, Storage));
    if least == None then 0.0 else least.value
  }

  /** computation.py:149-174 for one panel, given the number of packages. */
  function RatioPanel(p: Panel, n: real, ratio: Ratio, decoupled: set<Kind>): Panel {
    if p.kind == OtherKind then p.(constrained := p.raw, ratioBound := false)
    else if p.kind == Storage && Storage in decoupled then p.(raw := 0.0, constrained := 0.0, ratioBound := false)
    else
      var c := n * PerUnit(ratio, p.kind);
      p.(constrained := c, ratioBound := c + QTY_SLACK < p.raw)
  }

  /** computation.py:102-175 */
  method ConstrainByRatio(panels: seq<Panel>, ratio: Ratio, decoupled: set<Kind>) returns (out: seq<Panel>)
    ensures |out| == |panels|
    ensures forall i :: 0 <= i < |out| ==>
              out[i] == RatioPanel(panels[i], PooledUnits(panels, ratio, decoupled), ratio, decoupled)
  {
    var byKind := SplitByKind(panels);
    ghost var x, y := KindLimit(panels, ratio, decoupled, Cpu), KindLimit(panels, ratio, decoupled, Ram);
    ghost var z := KindLimit(panels, ratio, decoupled, Storage);
    var units: seq<real> := [];
    if Cpu in byKind && ratio.cpu > 0.0 {
      units := units + [byKind[Cpu].raw / ratio.cpu];
    }
    assert units == Listed(x);
    if Ram in byKind && ratio.ram > 0.0 {
      units := units + [byKind[Ram].raw / ratio.ram];
    }
    assert units == Listed(x) + Listed(y);
    if Storage in byKind && ratio.storage > 0.0 && Storage !in decoupled {
      units := units + [byKind[Storage].raw / ratio.storage];
    }
    assert units == Listed(x) + Listed(y) + Listed(z);
    var n := 0.0;
    if units != [] {
      n := LeastOf(units);
      LeastIsLeast(x, y, z, n);
    } else {
      assert |Listed(x)| + |Listed(y)| + |Listed(z)| == 0;
    }
    out := [];
    for i := 0 to |panels|
      invariant |out| == i && forall j :: 0 <= j < i ==> out[j] == RatioPanel(panels[j], n, ratio, decoupled)
    {
      out := out + [RatioPanel(panels[i], n, ratio, decoupled)];
    }
  }

  // ---------------------------------------------------------------- optimality

  /** At most one panel of each kind. */
  ghost predicate OneEach(panels: seq<Panel>) {
    forall i, j :: 0 <= i < j < |panels| && panels[i].kind == panels[j].kind ==> panels[i].kind == OtherKind
  }

  /** The panel takes part in the common ratio. */
  predicate Coupled(p: Panel, ratio: Ratio, decoupled: set<Kind>) {
    PerUnit(ratio, p.kind) > 0.0 && !(p.kind == Storage && Storage in decoupled)
  }

  /** `m` packages fit under every coupled panel. */
  ghost predicate Fits(panels: seq<Panel>, ratio: Ratio, decoupled: set<Kind>, m: real) {
    forall p :: p in panels && Coupled(p, ratio, decoupled) ==> m * PerUnit(ratio, p.kind) <= p.raw
  }

  lemma {:induction false} LastOfMember(panels: seq<Panel>, kind: Kind)
    ensures LastOf(panels, kind).Some?
            ==> LastOf(panels, kind).value in panels && LastOf(panels, kind).value.kind == kind
    ensures LastOf(panels, kind) == None ==> forall p <- panels :: p.kind != kind
    ensures OneEach(panels) && kind != OtherKind ==>
              forall p <- panels :: p.kind == kind ==> LastOf(panels, kind) == Some(p)
  {
    if panels != [] {
      var init := panels[..|panels| - 1];
      LastOfMember(init, kind);
      assert panels == init + [panels[|panels| - 1]];
    }
  }

  lemma FitsAsLimit(raw: real, perUnit: real, m: real)
    requires perUnit > 0.0
    ensures m * perUnit <= raw <==> m <= raw / perUnit
  {
  }

  /** `m` fits exactly when it is below every limit that applies. */
  lemma FitsByLimits(panels: seq<Panel>, ratio: Ratio, decoupled: set<Kind>, m: real)
    requires OneEach(panels)
    ensures Fits(panels, ratio, decoupled, m) <==>
              forall k: Kind :: KindLimit(panels, ratio, decoupled, k).Some?
                  ==> m <= KindLimit(panels, ratio, decoupled, k).value
  {
    if forall k: Kind ::
         KindLimit(panels, ratio, decoupled, k).Some? ==> m <= KindLimit(panels, ratio, decoupled, k).value
    {
      forall p | p in panels && Coupled(p, ratio, decoupled) ensures m * PerUnit(ratio, p.kind) <= p.raw {
        LastOfMember(panels, p.kind);
        FitsAsLimit(p.raw, PerUnit(ratio, p.kind), m);
        assert KindLimit(panels, ratio, decoupled, p.kind) == Some(p.raw / PerUnit(ratio, p.kind));
      }
    }
    if Fits(panels, ratio, decoupled, m) {
      forall k: Kind | KindLimit(panels, ratio, decoupled, k).Some?
        ensures m <= KindLimit(panels, ratio, decoupled, k).value
      {
        LastOfMember(panels, k);
        FitsAsLimit(LastOf(panels, k).value.raw, PerUnit(ratio, k), m);
      }
    }
  }

  /**
   With one panel a kind, the packages found are the most that fit: they fit themselves, and any
   number that fits is no larger.
   */
  lemma PooledUnitsAreLargest(panels: seq<Panel>, ratio: Ratio, decoupled: set<Kind>)
    requires OneEach(panels) && exists p :: p in panels && Coupled(p, ratio, decoupled)
    ensures Fits(panels, ratio, decoupled, PooledUnits(panels, ratio, decoupled))
    ensures forall m :: Fits(panels, ratio, decoupled, m) ==> m <= PooledUnits(panels, ratio, decoupled)
  {
    var p :| p in panels && Coupled(p, ratio, decoupled);
    LastOfMember(panels, p.kind);
    assert KindLimit(panels, ratio, decoupled, p.kind).Some?;
    var n := PooledUnits(panels, ratio, decoupled);
    assert KindLimit(panels, ratio, decoupled, OtherKind) == None;
    FitsByLimits(panels, ratio, decoupled, n);
    forall m | Fits(panels, ratio, decoupled, m) ensures m <= n {
      FitsByLimits(panels, ratio, decoupled, m);
    }
  }

  /** So the constrained panels are a multiple of the ratio that stays under every raw figure. */
  lemma ConstrainedUnderRaw(panels: seq<Panel>, ratio: Ratio, decoupled: set<Kind>, p: Panel)
    requires OneEach(panels) && p in panels && Coupled(p, ratio, decoupled)
    ensures var n := PooledUnits(panels, ratio, decoupled);
            var q := RatioPanel(p, n, ratio, decoupled);
            q.constrained == n * PerUnit(ratio, p.kind) && q.constrained <= q.raw == p.raw
  {
    PooledUnitsAreLargest(panels, ratio, decoupled);
  }

  // ---------------------------------------------------------------- fragmentation

  /** Each host's CPU and RAM headroom. */
  ghost function Headrooms(hosts: seq<Host>, cpuPct: real, ramPct: real, cpu: CpuTrack, ram: RamTrack)
    : seq<(real, real)>
  {
    if hosts == [] then []
    else
      var h := hosts[|hosts| - 1];
      Headrooms(hosts[..|hosts| - 1], cpuPct, ramPct, cpu, ram) + [(CpuRaw(h, cpu, cpuPct), RamRaw(h, ram, ramPct))]
  }

  ghost function SumFirst(raws: seq<(real, real)>): real {
    if raws == [] then 0.0 else SumFirst(raws[..|raws| - 1]) + raws[|raws| - 1].0
  }

  ghost function SumSecond(raws: seq<(real, real)>): real {
    if raws == [] then 0.0 else SumSecond(raws[..|raws| - 1]) + raws[|raws| - 1].1
  }

  ghost function SumLeast(raws: seq<(real, real)>, d: real, e: real): real
    requires d > 0.0 && e > 0.0
  {
    if raws == [] then 0.0
    else SumLeast(raws[..|raws| - 1], d, e) + Min(raws[|raws| - 1].0 / d, raws[|raws| - 1].1 / e)
  }

  lemma {:induction false} SumLeastFits(raws: seq<(real, real)>, d: real, e: real)
    requires d > 0.0 && e > 0.0
    ensures SumLeast(raws, d, e) * d <= SumFirst(raws) && SumLeast(raws, d, e) * e <= SumSecond(raws)
  {
    if raws != [] {
      var init, last := raws[..|raws| - 1], raws[|raws| - 1];
      SumLeastFits(init, d, e);
      OneHostFits(last.0, last.1, d, e, SumLeast(init, d, e));
    }
  }

  lemma OneHostFits(c: real, r: real, d: real, e: real, before: real)
    requires d > 0.0 && e > 0.0
    ensures var n := Min(c / d, r / e); (before + n) * d <= before * d + c && (before + n) * e <= before * e + r
  {
  }

  lemma {:induction false} PairUnitsAreLeast(hosts: seq<Host>, ratio: Ratio, cpuPct: real, ramPct: real,
                                             cpu: CpuTrack, ram: RamTrack, ghzPerUnit: real)
    requires ratio.cpu > 0.0 && ratio.ram > 0.0 && cpu != PhysicalCpu
    ensures SumPairUnits(hosts, ratio, cpuPct, ramPct, cpu, ram, ghzPerUnit)
            == SumLeast(Headrooms(hosts, cpuPct, ramPct, cpu, ram), InGhz(ratio, ghzPerUnit).cpu, ratio.ram)
  {
    if hosts != [] {
      var init, h := hosts[..|hosts| - 1], hosts[|hosts| - 1];
      PairUnitsAreLeast(init, ratio, cpuPct, ramPct, cpu, ram, ghzPerUnit);
      assert CpuPerUnit(h, ratio, cpu, ghzPerUnit) == InGhz(ratio, ghzPerUnit).cpu;
      var before := Headrooms(init, cpuPct, ramPct, cpu, ram);
      assert Headrooms(hosts, cpuPct, ramPct, cpu, ram)[..|before|] == before;
    }
  }

  ghost function PooledPanel(kind: Kind, raw: real): Panel {
    Panel(kind, raw, 0.0, false, false, None, None, None, None, None, None, None, false, NoReason, None, None)
  }

  /**
   Fragmentation: counting packages host by host never finds more than pooling the hosts' figures
   first and constraining the pool.
   */
  lemma PerHostNeverExceedsPooled(hosts: seq<Host>, ratio: Ratio, cpuPct: real, ramPct: real, cpu: CpuTrack,
                                  ram: RamTrack, ghzPerUnit: real)
    requires ratio.cpu > 0.0 && ratio.ram > 0.0 && cpu != PhysicalCpu
    ensures var raws := Headrooms(hosts, cpuPct, ramPct, cpu, ram);
            EffectiveUnits(hosts, ratio, cpuPct, ramPct, cpu, ram, ghzPerUnit)
            <= PooledUnits([PooledPanel(Cpu, SumFirst(raws)), PooledPanel(Ram, SumSecond(raws))],
                           InGhz(ratio, ghzPerUnit), {})
  {
    var raws := Headrooms(hosts, cpuPct, ramPct, cpu, ram);
    PairUnitsAreLeast(hosts, ratio, cpuPct, ramPct, cpu, ram, ghzPerUnit);
    HeadroomsPool(raws, InGhz(ratio, ghzPerUnit));
  }

  lemma HeadroomsPool(raws: seq<(real, real)>, ratio: Ratio)
    requires ratio.cpu > 0.0 && ratio.ram > 0.0
    ensures SumLeast(raws, ratio.cpu, ratio.ram)
            <= PooledUnits([PooledPanel(Cpu, SumFirst(raws)), PooledPanel(Ram, SumSecond(raws))], ratio, {})
  {
    SumLeastFits(raws, ratio.cpu, ratio.ram);
    PoolHoldsWhatFits(SumFirst(raws), SumSecond(raws), ratio, SumLeast(raws, ratio.cpu, ratio.ram));
  }

  lemma PoolHoldsWhatFits(c: real, r: real, ratio: Ratio, n: real)
    requires ratio.cpu > 0.0 && ratio.ram > 0.0 && n * ratio.cpu <= c && n * ratio.ram <= r
    ensures n <= PooledUnits([PooledPanel(Cpu, c), PooledPanel(Ram, r)], ratio, {})
  {
    var pool := [PooledPanel(Cpu, c), PooledPanel(Ram, r)];
    assert pool[0] in pool && Coupled(pool[0], ratio, {});
    PooledUnitsAreLargest(pool, ratio, {});
    assert Fits(pool, ratio, {}, n);
  }
}
