/**
 Capping storage by the packages that CPU and RAM allow (shared/sellable/computation.py:242-414).
 */
module StorageCaps {
  import opened Prelude
  import opened Gate
  import opened Hosts
  import opened HostSellable
  import opened Panels
  import opened Engines

  // ---------------------------------------------------------------- the ratio cap

  /** Packages a constrained panel comes to, if it takes part. */
  function ConstrainedUnits(panels: seq<Panel>, ratio: Ratio, kind: Kind): Option<real> {
    var p := LastOf(panels, kind);
    if p.Some? && PerUnit(ratio, kind) > 0.0 then Some(Max(p.value.constrained, 0.0) / PerUnit(ratio, kind)) else None
  }

  /** Packages the constrained CPU and RAM allow, and which is the bottleneck; CPU on a tie. */
  datatype Bottleneck = Bottleneck(units: real, kind: Option<Kind>)

  /** computation.py:242-261 */
  function EffectiveBottleneck(panels: seq<Panel>, ratio: Ratio): Bottleneck {
    match (ConstrainedUnits(panels, ratio, Cpu), ConstrainedUnits(panels, ratio, Ram))
    case (None, None) => Bottleneck(0.0, None)
    case (Some(c), None) => Bottleneck(Max(c, 0.0), Some(Cpu))
    case (None, Some(r)) => Bottleneck(Max(r, 0.0), Some(Ram))
    case (Some(c), Some(r)) => Bottleneck(Max(Min(c, r), 0.0), Some(if c <= r then Cpu else Ram))
  }

  function StorageCap(b: Bottleneck, ratio: Ratio): real {
    Max(b.units * ratio.storage, 0.0)
  }

  function MinOption(x: Option<real>, cap: real): Option<real> {
    match x case Some(v) => Some(Min(v, cap)) case None => None
  }

  /** The highest and the lowest figure a storage panel shows. */
  function RawMax(p: Panel): real { if p.max.Some? then p.max.value else p.raw }

  function RawMin(p: Panel): real { if p.min.Some? then p.min.value else p.constrained }

  function CappedConstrained(p: Panel, cap: real): real {
    if p.max.Some? then Min(RawMin(p), cap) else Min(p.constrained, cap)
  }

  /** The cap takes something visible off the panel. */
  predicate Bites(p: Panel, cap: real) {
    || CappedConstrained(p, cap) + QTY_SLACK < p.constrained
    || Min(RawMax(p), cap) + QTY_SLACK < RawMax(p)
    || Min(RawMin(p), cap) + QTY_SLACK < RawMin(p)
  }

  function CapReason(p: Panel, units: real, bites: bool): Reason {
    if p.gateBlocked then GateReason
    else if units <= PCT_SLACK && RawMax(p) > QTY_SLACK then BottleneckReason
    else if bites && p.reason == NoReason then RatioReason
    else p.reason
  }

  /** computation.py:279-319 for one panel. */
  function CapPanel(p: Panel, b: Bottleneck, cap: real): Panel {
    if p.kind != Storage then p
    else
      var bites := Bites(p, cap);
      p.(constrained := CappedConstrained(p, cap), min := MinOption(p.min, cap), max := MinOption(p.max, cap),
         ratioBound := p.ratioBound || bites, reason := CapReason(p, b.units, bites),
         bottleneckKind := if bites then b.kind else p.bottleneckKind,
         bottleneckUnits := if bites then Some(b.units) else p.bottleneckUnits)
  }

  function CapAll(panels: seq<Panel>, ratio: Ratio): (out: seq<Panel>)
    ensures |out| == |panels|
  {
    if LastOf(panels, Storage) == None || ratio.storage <= 0.0 then panels
    else
      var b := EffectiveBottleneck(panels, ratio);
      seq(|panels|, i requires 0 <= i < |panels| => CapPanel(panels[i], b, StorageCap(b, ratio)))
  }

  /** computation.py:264-320 */
  method ApplyStorageRatioCap(panels: seq<Panel>, ratio: Ratio) returns (out: seq<Panel>)
    ensures out == CapAll(panels, ratio)
  {
    var byKind := SplitByKind(panels);
    if Storage !in byKind || ratio.storage <= 0.0 {
      return panels;
    }
    var b := EffectiveBottleneck(panels, ratio);
    var cap := StorageCap(b, ratio);
    out := [];
    for i := 0 to |panels|
      invariant out == CapAll(panels, ratio)[..i]
    {
      var p := panels[i];
      if p.kind != Storage {
        out := out + [p];
        continue;
      }
      p := CapStorage(p, b, cap);
      out := out + [p];
    }
  }

  /** computation.py:284-318 */
  method CapStorage(p: Panel, b: Bottleneck, cap: real) returns (q: Panel)
    requires p.kind == Storage
    ensures q == CapPanel(p, b, cap)
  {
    var rawMax, rawMin := RawMax(p), RawMin(p);
    var newMin, newMax := Min(rawMin, cap), Min(rawMax, cap);
    var newConstrained := if p.max.Some? then newMin else Min(p.constrained, cap);
    var capped := newConstrained + QTY_SLACK < p.constrained || newMax + QTY_SLACK < rawMax
        || newMin + QTY_SLACK < rawMin;
    var reason := p.reason;
    if p.gateBlocked {
      reason := GateReason;
    } else if b.units <= PCT_SLACK && rawMax > QTY_SLACK {
      reason := BottleneckReason;
    } else if capped && reason == NoReason {
      reason := RatioReason;
    }
    q := p.(
      constrained := newConstrained, min := if p.min.Some? then Some(newMin) else None,
      max := if p.max.Some? then Some(newMax) else None, ratioBound := p.ratioBound || capped, reason := reason,
      bottleneckKind := if capped then b.kind else p.bottleneckKind,
      bottleneckUnits := if capped then Some(b.units) else p.bottleneckUnits);
  }

  // ---------------------------------------------------------------- what the cap keeps

  /** Panel by panel the same kind, and the same panel unless it is storage. */
  ghost predicate OnlyStorageDiffers(before: seq<Panel>, after: seq<Panel>) {
    |before| == |after|
    && forall i :: 0 <= i < |before| ==>
                     after[i].kind == before[i].kind && (before[i].kind != Storage ==> after[i] == before[i])
  }

  lemma {:induction false} LastOfCompute(before: seq<Panel>, after: seq<Panel>, kind: Kind)
    requires OnlyStorageDiffers(before, after)
    ensures LastOf(after, kind).Some? <==> LastOf(before, kind).Some?
    ensures kind != Storage ==> LastOf(after, kind) == LastOf(before, kind)
    ensures LastOf(before, kind).Some? ==>
              exists i :: 0 <= i < |before| && before[i] == LastOf(before, kind).value
                  && after[i] == LastOf(after, kind).value
  {
    if before != [] {
      LastOfCompute(before[..|before| - 1], after[..|before| - 1], kind);
    }
  }

  lemma CapAllTouchesStorage(panels: seq<Panel>, ratio: Ratio)
    ensures OnlyStorageDiffers(panels, CapAll(panels, ratio))
    ensures EffectiveBottleneck(CapAll(panels, ratio), ratio) == EffectiveBottleneck(panels, ratio)
    ensures LastOf(CapAll(panels, ratio), Storage).Some? <==> LastOf(panels, Storage).Some?
  {
    var out := CapAll(panels, ratio);
    LastOfCompute(panels, out, Cpu);
    LastOfCompute(panels, out, Ram);
    LastOfCompute(panels, out, Storage);
  }

  lemma CapPanelTwice(p: Panel, b: Bottleneck, cap: real)
    ensures CapPanel(CapPanel(p, b, cap), b, cap) == CapPanel(p, b, cap)
  {
  }

  /** Capping again changes no panel in any field. */
  lemma CapTwice(panels: seq<Panel>, ratio: Ratio)
    ensures CapAll(CapAll(panels, ratio), ratio) == CapAll(panels, ratio)
  {
    CapAllTouchesStorage(panels, ratio);
    var once, b := CapAll(panels, ratio), EffectiveBottleneck(panels, ratio);
    forall i | 0 <= i < |panels| ensures CapAll(once, ratio)[i] == once[i] {
      CapPanelTwice(panels[i], b, StorageCap(b, ratio));
    }
  }

  /** No bound of the shown range rises, its order is kept, and nothing shown passes the cap. */
  lemma CapLowersRange(p: Panel, b: Bottleneck, cap: real)
    requires p.kind == Storage
    ensures var q := CapPanel(p, b, cap);
            && (q.min.Some? <==> p.min.Some?) && (q.max.Some? <==> p.max.Some?)
            && (p.min.Some? ==> q.min.value == Min(p.min.value, cap))
            && (p.max.Some? ==> q.max.value == Min(p.max.value, cap))
            && (p.min.Some? && p.max.Some? && p.min.value <= p.max.value ==> q.min.value <= q.max.value)
            && q.constrained <= cap
  {
  }

  /**
   The constrained figure falls or stays except in one case: with both ends of a range shown, it is
   replaced by the capped lower end, which raises it exactly when that end is above it.
   */
  lemma CapRaisesExactly(p: Panel, b: Bottleneck, cap: real)
    requires p.kind == Storage
    ensures CapPanel(p, b, cap).constrained > p.constrained
            <==> p.max.Some? && p.min.Some? && p.min.value > p.constrained && cap > p.constrained
  {
  }

  /** Such a panel: 5 GB constrained, shown as a range from 8 to 10, under a cap of 100 GB, comes out at 8. */
  lemma CapCanRaise()
    ensures var cpu := Panel(Cpu, 100.0, 100.0, false, false, None, None, None, None, None, None, None, false,
            NoReason, None, None);
            var stor := cpu.(kind := Storage, constrained := 5.0, min := Some(8.0), max := Some(10.0));
            CapAll([cpu, stor], Ratio(1.0, 0.0, 1.0))[1].constrained == 8.0 > stor.constrained
  {
    var cpu := Panel(Cpu, 100.0, 100.0, false, false, None, None, None, None, None, None, None, false, NoReason, None,
        None);
    var stor := cpu.(kind := Storage, constrained := 5.0, min := Some(8.0), max := Some(10.0));
    var ps, ratio := [cpu, stor], Ratio(1.0, 0.0, 1.0);
    assert ps[..1] == [cpu];
    assert LastOf(ps, Cpu) == LastOf([cpu], Cpu) == Some(cpu);
    assert LastOf(ps, Storage) == Some(stor);
  }

  // ---------------------------------------------------------------- the track caps

  /** computation.py:323-336: packages on one track, `None` when neither CPU nor RAM shows it. */
  function TrackUnits(cpu: Option<real>, ram: Option<real>, ratio: Ratio): Option<real> {
    var c := if cpu.Some? && ratio.cpu > 0.0 then Some(Max(cpu.value, 0.0) / ratio.cpu) else None;
    var r := if ram.Some? && ratio.ram > 0.0 then Some(Max(ram.value, 0.0) / ratio.ram) else None;
    var least := Least(c, r);
    if least == None then None else Some(Max(least.value, 0.0))
  }

  datatype Track = Allocation | MaxUtil | AvgUtil

  /** What a panel shows on a track. */
  function Shown(p: Option<Panel>, track: Track): Option<real> {
    if p == None then None
    else match track
      case Allocation => p.value.allocation
      case MaxUtil => p.value.maxUtil
      case AvgUtil => p.value.avgUtil
  }

  function StorageOnTrack(panels: seq<Panel>, ratio: Ratio, track: Track): Option<real> {
    OnTrack(TrackUnits(Shown(LastOf(panels, Cpu), track), Shown(LastOf(panels, Ram), track), ratio), PoolRaw(panels),
        ratio)
  }

  /** computation.py:380-383 */
  function OnTrack(n: Option<real>, raw: real, ratio: Ratio): Option<real> {
    if n == None then None else Some(Min(raw, n.value * ratio.storage))
  }

  /** The storage pool: the last storage panel's raw figure. */
  function PoolRaw(panels: seq<Panel>): real {
    var p := LastOf(panels, Storage);
    if p == None then 0.0 else Max(p.value.raw, 0.0)
  }

  /** There is storage to cap and something on CPU or RAM to cap it by. */
  predicate TracksApply(panels: seq<Panel>, ratio: Ratio) {
    && LastOf(panels, Storage).Some? && ratio.storage > 0.0
    && exists track: Track :: StorageOnTrack(panels, ratio, track).Some?
  }

  function TrackConstrained(panels: seq<Panel>, ratio: Ratio): real
    requires LastOf(panels, Storage).Some?
  {
    match StorageOnTrack(panels, ratio, Allocation)
    case Some(v) => v
    case None => Min(LastOf(panels, Storage).value.constrained, PoolRaw(panels))
  }

  /** computation.py:393-414 for one panel. */
  function TrackPanel(p: Panel, constrained: real, alloc: Option<real>, max: Option<real>, avg: Option<real>): Panel {
    if p.kind != Storage then p
    else p.(constrained := constrained, allocation := alloc, maxUtil := max, avgUtil := avg, ratioBound := true,
            reason := if p.reason in {NoReason, BlankReason, BottleneckReason} then RatioReason else p.reason)
  }

  function TracksAll(panels: seq<Panel>, ratio: Ratio): (out: seq<Panel>)
    ensures |out| == |panels|
  {
    if !TracksApply(panels, ratio) then panels
    else
      seq(|panels|, i requires 0 <= i < |panels| =>
        TrackPanel(panels[i], TrackConstrained(panels, ratio), StorageOnTrack(panels, ratio, Allocation),
                   StorageOnTrack(panels, ratio, MaxUtil), StorageOnTrack(panels, ratio, AvgUtil)))
  }

  /** computation.py:339-414 */
  method ApplyStorageDualTrackRatioCaps(panels: seq<Panel>, ratio: Ratio) returns (out: seq<Panel>)
    ensures out == TracksAll(panels, ratio)
  {
    var byKind := SplitByKind(panels);
    if Storage !in byKind || ratio.storage <= 0.0 {
      return panels;
    }
    if Cpu !in byKind && Ram !in byKind {
      assert forall track: Track :: StorageOnTrack(panels, ratio, track) == None;
      return panels;
    }
    var cpu := if Cpu in byKind then Some(byKind[Cpu]) else None;
    var ram := if Ram in byKind then Some(byKind[Ram]) else None;
    assert cpu == LastOf(panels, Cpu) && ram == LastOf(panels, Ram);
    var raw := Max(byKind[Storage].raw, 0.0);
    var nAlloc := TrackUnits(Shown(cpu, Allocation), Shown(ram, Allocation), ratio);
    var nMax := TrackUnits(Shown(cpu, MaxUtil), Shown(ram, MaxUtil), ratio);
    var nAvg := TrackUnits(Shown(cpu, AvgUtil), Shown(ram, AvgUtil), ratio);
    if nAlloc == None && nMax == None && nAvg == None {
      return panels;
    }
    var alloc, max, avg := OnTrack(nAlloc, raw, ratio), OnTrack(nMax, raw, ratio), OnTrack(nAvg, raw, ratio);
    assert alloc == StorageOnTrack(panels, ratio, Allocation) && max == StorageOnTrack(panels, ratio, MaxUtil);
    assert avg == StorageOnTrack(panels, ratio, AvgUtil);
    var constrained := if alloc.Some? then alloc.value else Min(byKind[Storage].constrained, raw);
    out := [];
    for i := 0 to |panels|
      invariant out == TracksAll(panels, ratio)[..i]
    {
      out := out + [TrackPanel(panels[i], constrained, alloc, max, avg)];
    }
  }

  // ---------------------------------------------------------------- what the track caps keep

  /** Both figures are shown or neither, and the first is no higher. */
  predicate NoHigher(x: Option<real>, y: Option<real>) {
    (x.Some? <==> y.Some?) && (x.Some? ==> x.value <= y.value)
  }

  lemma TrackUnitsMono(c: Option<real>, c': Option<real>, r: Option<real>, r': Option<real>, ratio: Ratio)
    requires NoHigher(c, c') && NoHigher(r, r')
    ensures NoHigher(TrackUnits(c, r, ratio), TrackUnits(c', r', ratio))
  {
    if c.Some? && ratio.cpu > 0.0 { Divide(Max(c.value, 0.0), Max(c'.value, 0.0), ratio.cpu); }
    if r.Some? && ratio.ram > 0.0 { Divide(Max(r.value, 0.0), Max(r'.value, 0.0), ratio.ram); }
  }

  lemma MinMono(raw: real, x: real, y: real)
    requires x <= y
    ensures Min(raw, x) <= Min(raw, y)
  {
  }

  lemma OnTrackMono(n: Option<real>, m: Option<real>, raw: real, ratio: Ratio)
    requires ratio.storage >= 0.0 && NoHigher(n, m)
    ensures NoHigher(OnTrack(n, raw, ratio), OnTrack(m, raw, ratio))
  {
    if n.Some? {
      Scale(n.value, m.value, ratio.storage);
      MinMono(raw, n.value * ratio.storage, m.value * ratio.storage);
      assert OnTrack(n, raw, ratio).value == Min(raw, n.value * ratio.storage);
      assert OnTrack(m, raw, ratio).value == Min(raw, m.value * ratio.storage);
    }
  }

  /** The order of two tracks on CPU and RAM carries over to storage, whichever two they are. */
  lemma TrackOrderCarries(panels: seq<Panel>, ratio: Ratio, low: Track, high: Track)
    requires ratio.storage >= 0.0
    requires forall kind <- [Cpu, Ram] :: NoHigher(Shown(LastOf(panels, kind), low), Shown(LastOf(panels, kind), high))
    ensures NoHigher(StorageOnTrack(panels, ratio, low), StorageOnTrack(panels, ratio, high))
  {
    assert Cpu in [Cpu, Ram] && Ram in [Cpu, Ram];
    var c, r := LastOf(panels, Cpu), LastOf(panels, Ram);
    TrackUnitsMono(Shown(c, low), Shown(c, high), Shown(r, low), Shown(r, high), ratio);
    OnTrackMono(TrackUnits(Shown(c, low), Shown(r, low), ratio), TrackUnits(Shown(c, high), Shown(r, high), ratio),
                PoolRaw(panels), ratio);
  }

  /** Each track of storage lies between 0 and the pool. */
  lemma TracksWithinPool(panels: seq<Panel>, ratio: Ratio, track: Track)
    requires ratio.storage >= 0.0 && StorageOnTrack(panels, ratio, track).Some?
    ensures 0.0 <= StorageOnTrack(panels, ratio, track).value <= PoolRaw(panels)
  {
    var n := TrackUnits(Shown(LastOf(panels, Cpu), track), Shown(LastOf(panels, Ram), track), ratio);
    Scale(0.0, n.value, ratio.storage);
  }

  lemma TracksAllTouchesStorage(panels: seq<Panel>, ratio: Ratio)
    ensures OnlyStorageDiffers(panels, TracksAll(panels, ratio))
    ensures forall k: Kind :: LastOf(TracksAll(panels, ratio), k).Some? <==> LastOf(panels, k).Some?
    ensures forall k: Kind :: k != Storage ==> LastOf(TracksAll(panels, ratio), k) == LastOf(panels, k)
    ensures PoolRaw(TracksAll(panels, ratio)) == PoolRaw(panels)
    ensures forall track: Track ::
              StorageOnTrack(TracksAll(panels, ratio), ratio, track) == StorageOnTrack(panels, ratio, track)
    ensures TracksApply(panels, ratio)
            ==> LastOf(TracksAll(panels, ratio), Storage).value.constrained == TrackConstrained(panels, ratio)
  {
    var out := TracksAll(panels, ratio);
    forall k: Kind
      ensures LastOf(out, k).Some? <==> LastOf(panels, k).Some?
      ensures k != Storage ==> LastOf(out, k) == LastOf(panels, k)
    {
      LastOfCompute(panels, out, k);
    }
    LastOfCompute(panels, out, Storage);
    LastOfMember(panels, Storage);
  }

  /** Projecting the tracks again changes no panel in any field. */
  lemma TracksTwice(panels: seq<Panel>, ratio: Ratio)
    ensures TracksAll(TracksAll(panels, ratio), ratio) == TracksAll(panels, ratio)
  {
    if TracksApply(panels, ratio) {
      TracksAllTouchesStorage(panels, ratio);
      var once := TracksAll(panels, ratio);
      assert TracksApply(once, ratio);
      assert TrackConstrained(once, ratio) == TrackConstrained(panels, ratio);
      forall i | 0 <= i < |panels| ensures TracksAll(once, ratio)[i] == once[i] {
      }
    }
  }

  /**
   Where CPU and RAM panels show the maximum track no higher than the average one, as both engines
   leave them, so does every storage panel once the tracks are projected.
   */
  lemma ProjectedTracksOrdered(panels: seq<Panel>, ratio: Ratio, i: nat)
    requires forall p <- panels :: p.kind == Cpu || p.kind == Ram ==> TracksOrdered(p)
    requires i < |panels| && panels[i].kind == Storage && ratio.storage > 0.0
    requires (ratio.cpu > 0.0 && LastOf(panels, Cpu).Some?) || (ratio.ram > 0.0 && LastOf(panels, Ram).Some?)
    ensures TracksOrdered(TracksAll(panels, ratio)[i])
    ensures TracksAll(panels, ratio)[i].avgUtil.value <= PoolRaw(panels)
  {
    LastOfMember(panels, Cpu);
    LastOfMember(panels, Ram);
    LastOfMember(panels, Storage);
    TrackOrderCarries(panels, ratio, MaxUtil, AvgUtil);
    assert StorageOnTrack(panels, ratio, MaxUtil).Some?;
    TracksWithinPool(panels, ratio, AvgUtil);
  }

  // ---------------------------------------------------------------- after the triple engine

  ghost predicate Positive(ratio: Ratio) {
    ratio.cpu > 0.0 && ratio.ram > 0.0 && ratio.storage > 0.0
  }

  /** What a CPU or RAM panel shows when `n` packages are counted on each track. */
  ghost predicate ShowsCounts(p: Panel, n: TripleCounts, perUnit: real) {
    Is(p.allocation, n.alloc * perUnit) && Is(p.maxUtil, n.max * perUnit) && Is(p.avgUtil, n.avg * perUnit)
  }

  /** The figure is shown and equals `v`. */
  predicate Is(x: Option<real>, v: real) {
    x.Some? && x.value == v
  }

  /** The triple engine's output on panels other than storage, with storage panels put back behind it. */
  ghost predicate PutBehind(host: seq<Panel>, out: seq<Panel>, deferred: seq<Panel>, n: TripleCounts, ratio: Ratio,
                            ramRaw: Option<real>, ramPeak: Option<real>) {
    && |out| == |host|
    && (forall j :: 0 <= j < |host| ==>
                      host[j].kind != Storage && out[j] == TriplePanel(host[j], n, ratio, ramRaw, ramPeak))
    && forall p <- deferred :: p.kind == Storage
  }

  lemma {:induction false} LastOfBehind(x: seq<Panel>, deferred: seq<Panel>, kind: Kind)
    requires kind != Storage && forall p <- deferred :: p.kind == Storage
    ensures LastOf(x + deferred, kind) == LastOf(x, kind)
  {
    if deferred == [] {
      assert x + deferred == x;
    } else {
      LastOfBehind(x, deferred[..|deferred| - 1], kind);
      assert (x + deferred)[..|x + deferred| - 1] == x + deferred[..|deferred| - 1];
    }
  }

  lemma TripleShowsCounts(p: Panel, n: TripleCounts, ratio: Ratio, ramRaw: Option<real>, ramPeak: Option<real>)
    ensures var q := TriplePanel(p, n, ratio, ramRaw, ramPeak);
            q.kind == p.kind && (p.kind == Cpu || p.kind == Ram ==> ShowsCounts(q, n, PerUnit(ratio, p.kind)))
  {
  }

  lemma KindsKeptByEngine(host: seq<Panel>, out: seq<Panel>, deferred: seq<Panel>, n: TripleCounts, ratio: Ratio,
                          ramRaw: Option<real>, ramPeak: Option<real>, kind: Kind)
    requires PutBehind(host, out, deferred, n, ratio, ramRaw, ramPeak) && (kind == Cpu || kind == Ram)
    ensures LastOf(out + deferred, kind).Some? <==> LastOf(host, kind).Some?
    ensures LastOf(out + deferred, kind).Some? ==>
              ShowsCounts(LastOf(out + deferred, kind).value, n, PerUnit(ratio, kind))
  {
    forall j | 0 <= j < |out|
      ensures out[j].kind == host[j].kind
      ensures out[j].kind == kind ==> ShowsCounts(out[j], n, PerUnit(ratio, kind))
    {
      TripleShowsCounts(host[j], n, ratio, ramRaw, ramPeak);
    }
    LastOfBehind(out, deferred, kind);
    LastOfMember(out, kind);
    KindsKept(host, out, kind);
  }

  /** The packages behind quantities that are all multiples of one count. */
  lemma TrackUnitsAre(c: Option<real>, r: Option<real>, ratio: Ratio, n: real)
    requires Positive(ratio) && n >= 0.0 && (c.Some? || r.Some?)
    requires c.Some? ==> c.value == n * ratio.cpu
    requires r.Some? ==> r.value == n * ratio.ram
    ensures TrackUnits(c, r, ratio) == Some(n)
  {
    MultipleOf(n, ratio.cpu);
    MultipleOf(n, ratio.ram);
  }

  lemma MultipleOf(n: real, perUnit: real)
    requires n >= 0.0 && perUnit > 0.0
    ensures n * perUnit >= 0.0 && n * perUnit / perUnit == n
  {
  }

  /** The package count of a track. */
  ghost function CountOn(n: TripleCounts, track: Track): real {
    match track
    case Allocation => n.alloc
    case MaxUtil => n.max
    case AvgUtil => n.avg
  }

  lemma ShownOnTrack(p: Panel, n: TripleCounts, perUnit: real, track: Track)
    requires ShowsCounts(p, n, perUnit)
    ensures Is(Shown(Some(p), track), CountOn(n, track) * perUnit)
  {
  }

  lemma StorageTrackFollows(c: Option<Panel>, r: Option<Panel>, ratio: Ratio, n: TripleCounts, track: Track)
    requires Positive(ratio) && CountOn(n, track) >= 0.0 && (c.Some? || r.Some?)
    requires c.Some? ==> ShowsCounts(c.value, n, ratio.cpu)
    requires r.Some? ==> ShowsCounts(r.value, n, ratio.ram)
    ensures TrackUnits(Shown(c, track), Shown(r, track), ratio) == Some(CountOn(n, track))
  {
    if c.Some? { ShownOnTrack(c.value, n, ratio.cpu, track); }
    if r.Some? { ShownOnTrack(r.value, n, ratio.ram, track); }
    TrackUnitsAre(Shown(c, track), Shown(r, track), ratio, CountOn(n, track));
  }

  lemma PoolKeptByCap(panels: seq<Panel>, ratio: Ratio)
    ensures PoolRaw(CapAll(panels, ratio)) == PoolRaw(panels)
  {
    LastOfCompute(panels, CapAll(panels, ratio), Storage);
  }

  /** The cap leaves the packages of a track where the engine put them. */
  lemma CappedTrackUnits(host: seq<Panel>, out: seq<Panel>, deferred: seq<Panel>, n: TripleCounts, ratio: Ratio,
                         ramRaw: Option<real>, ramPeak: Option<real>, track: Track)
    requires PutBehind(host, out, deferred, n, ratio, ramRaw, ramPeak)
    requires Positive(ratio) && CountOn(n, track) >= 0.0
    requires LastOf(host, Cpu).Some? || LastOf(host, Ram).Some?
    ensures var capped := CapAll(out + deferred, ratio);
            TrackUnits(Shown(LastOf(capped, Cpu), track), Shown(LastOf(capped, Ram), track), ratio)
                == Some(CountOn(n, track))
  {
    var panels := out + deferred;
    KindsKeptByEngine(host, out, deferred, n, ratio, ramRaw, ramPeak, Cpu);
    KindsKeptByEngine(host, out, deferred, n, ratio, ramRaw, ramPeak, Ram);
    CapAllTouchesStorage(panels, ratio);
    LastOfCompute(panels, CapAll(panels, ratio), Cpu);
    LastOfCompute(panels, CapAll(panels, ratio), Ram);
    var capped := CapAll(panels, ratio);
    StorageTrackFollows(LastOf(capped, Cpu), LastOf(capped, Ram), ratio, n, track);
  }

  /** Storage panels behind the engine's output, capped and projected, in terms of the engine's counts. */
  lemma ProjectedBehind(host: seq<Panel>, out: seq<Panel>, deferred: seq<Panel>, n: TripleCounts, ratio: Ratio,
                        ramRaw: Option<real>, ramPeak: Option<real>, i: nat, track: Track)
    requires PutBehind(host, out, deferred, n, ratio, ramRaw, ramPeak)
    requires Positive(ratio) && CountOn(n, track) >= 0.0 && i < |deferred|
    requires LastOf(host, Cpu).Some? || LastOf(host, Ram).Some?
    ensures Shown(Some(TracksAll(CapAll(out + deferred, ratio), ratio)[|out| + i]), track)
            == OnTrack(Some(CountOn(n, track)), PoolRaw(out + deferred), ratio)
  {
    var panels := out + deferred;
    CappedTrackUnits(host, out, deferred, n, ratio, ramRaw, ramPeak, track);
    PoolKeptByCap(panels, ratio);
    CapAllTouchesStorage(panels, ratio);
    assert panels[|out| + i] == deferred[i] && deferred[i] in deferred;
    ProjectedShows(CapAll(panels, ratio), ratio, |out| + i, track);
  }

  lemma ProjectedShows(panels: seq<Panel>, ratio: Ratio, i: nat, track: Track)
    requires i < |panels| && panels[i].kind == Storage && ratio.storage > 0.0
    requires StorageOnTrack(panels, ratio, track).Some?
    ensures Shown(Some(TracksAll(panels, ratio)[i]), track) == StorageOnTrack(panels, ratio, track)
  {
    LastOfMember(panels, Storage);
    assert panels[i] in panels;
  }

  /** The panel shows on each track what its packages take, within the pool, the tracks in order. */
  ghost predicate Follows(p: Panel, n: TripleCounts, pool: real, ratio: Ratio) {
    && Is(p.allocation, Min(pool, n.alloc * ratio.storage))
    && Is(p.maxUtil, Min(pool, n.max * ratio.storage))
    && Is(p.avgUtil, Min(pool, n.avg * ratio.storage))
    && TracksOrdered(p)
  }

  lemma ShownFollows(p: Panel, n: TripleCounts, pool: real, ratio: Ratio)
    requires ratio.storage >= 0.0 && CountsOrdered(n)
    requires forall track: Track :: Shown(Some(p), track) == OnTrack(Some(CountOn(n, track)), pool, ratio)
    ensures Follows(p, n, pool, ratio)
  {
    OnTrackMono(Some(n.max), Some(n.avg), pool, ratio);
    assert Shown(Some(p), Allocation) == OnTrack(Some(n.alloc), pool, ratio);
    assert Shown(Some(p), MaxUtil) == OnTrack(Some(n.max), pool, ratio);
    assert Shown(Some(p), AvgUtil) == OnTrack(Some(n.avg), pool, ratio);
  }

  lemma BehindFollows(host: seq<Panel>, out: seq<Panel>, deferred: seq<Panel>, n: TripleCounts, ratio: Ratio,
                      ramRaw: Option<real>, ramPeak: Option<real>, i: nat)
    requires PutBehind(host, out, deferred, n, ratio, ramRaw, ramPeak)
    requires Positive(ratio) && n.alloc >= 0.0 && CountsOrdered(n) && i < |deferred|
    requires LastOf(host, Cpu).Some? || LastOf(host, Ram).Some?
    ensures Follows(TracksAll(CapAll(out + deferred, ratio), ratio)[|out| + i], n, PoolRaw(out + deferred), ratio)
  {
    var p := TracksAll(CapAll(out + deferred, ratio), ratio)[|out| + i];
    forall track: Track ensures Shown(Some(p), track)
        == OnTrack(Some(CountOn(n, track)), PoolRaw(out + deferred), ratio) {
      ProjectedBehind(host, out, deferred, n, ratio, ramRaw, ramPeak, i, track);
    }
    ShownFollows(p, n, PoolRaw(out + deferred), ratio);
  }

  /**
   The storage of a family whose hosts count CPU and RAM alone: the storage panels wait while the
   triple engine runs, are put back with any figures, capped and projected. Each track then shows
   what the engine's packages of that track take, within the pool, and the maximum track is no higher
   than the average one
   (services/customer-api/app/services/sellable_service.py:2642-2644, 2700-2706, 2820-2825).
   */
  lemma StorageFollowsEngine(host: seq<Panel>, out: seq<Panel>, deferred: seq<Panel>, ratio: Ratio, hosts: seq<Host>,
                             s: Settings, n: TripleCounts, i: nat)
    requires n == TripleCountsOf(hosts, ratio, s)
    requires PutBehind(host, out, deferred, n, ratio, s.ramRaw, s.ramPeak)
    requires Positive(ratio) && i < |deferred|
    requires LastOf(host, Cpu).Some? || LastOf(host, Ram).Some?
    ensures Follows(TracksAll(CapAll(out + deferred, ratio), ratio)[|out| + i], n, PoolRaw(out + deferred), ratio)
  {
    TripleCountsFit(hosts, ratio, s);
    BehindFollows(host, out, deferred, n, ratio, s.ramRaw, s.ramPeak, i);
  }

  lemma TripleCountsFit(hosts: seq<Host>, ratio: Ratio, s: Settings)
    requires NonNegative(ratio)
    ensures TripleCountsOf(hosts, ratio, s).alloc >= 0.0 && CountsOrdered(TripleCountsOf(hosts, ratio, s))
  {
    TripleCountsOrdered(hosts, ratio, s);
    TripleTracksCoupled(hosts, ratio, s);
  }

  lemma {:induction false} KindsKept(before: seq<Panel>, after: seq<Panel>, kind: Kind)
    requires |before| == |after| && forall i :: 0 <= i < |before| ==> after[i].kind == before[i].kind
    ensures LastOf(after, kind).Some? <==> LastOf(before, kind).Some?
  {
    if before != [] {
      KindsKept(before[..|before| - 1], after[..|after| - 1], kind);
    }
  }
}
