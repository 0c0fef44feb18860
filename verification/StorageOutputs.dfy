/**
 What the storage caps leave on the panels, said over the CPU and RAM panels they read
 (shared/sellable/computation.py:242-414).
 */
module StorageOutputs {
  import opened Prelude
  import opened Gate
  import opened Hosts
  import opened HostSellable
  import opened Panels
  import opened Engines
  import opened StorageCaps

  // ---------------------------------------------------------------- the packages that fit

  /** The panel at `j` speaks for its kind: no later one is of that kind. */
  ghost predicate SpeaksFor(panels: seq<Panel>, kind: Kind, j: nat) {
    && j < |panels| && panels[j].kind == kind
    && forall k :: j < k < |panels| ==> panels[k].kind != kind
  }

  /** The CPU or RAM panel at `j` limits packages by its figure `f`. */
  ghost predicate Limits(panels: seq<Panel>, ratio: Ratio, f: Panel -> Option<real>, kind: Kind, j: nat) {
    SpeaksFor(panels, kind, j) && (kind == Cpu || kind == Ram) && PerUnit(ratio, kind) > 0.0 && f(panels[j]).Some?
  }

  /** `n` packages take `x`, or 0 where that is negative. */
  ghost predicate Takes(n: real, perUnit: real, x: real) {
    n * perUnit == Max(x, 0.0)
  }

  ghost predicate FitsIn(n: real, perUnit: real, x: real) {
    n * perUnit <= Max(x, 0.0)
  }

  /** `n` packages fit every limiting panel. */
  ghost predicate FitsCompute(panels: seq<Panel>, ratio: Ratio, f: Panel -> Option<real>, n: real) {
    forall kind: Kind, j: nat ::
      Limits(panels, ratio, f, kind, j) ==> FitsIn(n, PerUnit(ratio, kind), f(panels[j]).value)
  }

  /** `n` packages use up the figure of this kind. */
  ghost predicate UsesUp(panels: seq<Panel>, ratio: Ratio, f: Panel -> Option<real>, kind: Kind, n: real) {
    exists j: nat :: Limits(panels, ratio, f, kind, j) && Takes(n, PerUnit(ratio, kind), f(panels[j]).value)
  }

  /** `n` packages fit and use something up. */
  ghost predicate MostPackages(panels: seq<Panel>, ratio: Ratio, f: Panel -> Option<real>, n: real) {
    && n >= 0.0 && FitsCompute(panels, ratio, f, n)
    && (UsesUp(panels, ratio, f, Cpu, n) || UsesUp(panels, ratio, f, Ram, n))
  }

  ghost predicate NothingLimits(panels: seq<Panel>, ratio: Ratio, f: Panel -> Option<real>) {
    forall kind: Kind, j: nat :: !Limits(panels, ratio, f, kind, j)
  }

  /** No larger number of packages fits, so there is one such number. */
  lemma NoMoreFit(panels: seq<Panel>, ratio: Ratio, f: Panel -> Option<real>, n: real, m: real)
    requires MostPackages(panels, ratio, f, n) && FitsCompute(panels, ratio, f, m)
    ensures m <= n
  {
    var kind := if UsesUp(panels, ratio, f, Cpu, n) then Cpu else Ram;
    var j: nat :| Limits(panels, ratio, f, kind, j) && Takes(n, PerUnit(ratio, kind), f(panels[j]).value);
    TakenIsMost(n, m, PerUnit(ratio, kind), f(panels[j]).value);
  }

  lemma TakenIsMost(n: real, m: real, perUnit: real, x: real)
    requires perUnit > 0.0 && Takes(n, perUnit, x) && FitsIn(m, perUnit, x)
    ensures m <= n
  {
    if m > n { ScaleStrict(n, m, perUnit); }
  }

  lemma {:induction false} LastSpeaks(panels: seq<Panel>, kind: Kind)
    ensures forall j: nat :: SpeaksFor(panels, kind, j) ==> LastOf(panels, kind) == Some(panels[j])
    ensures LastOf(panels, kind).Some? ==> exists j: nat :: SpeaksFor(panels, kind, j)
  {
    if panels != [] {
      var init, n := panels[..|panels| - 1], |panels| - 1;
      LastSpeaks(init, kind);
      if panels[n].kind == kind {
        assert SpeaksFor(panels, kind, n);
        forall j: nat | SpeaksFor(panels, kind, j) ensures j == n {}
      } else {
        forall j: nat ensures SpeaksFor(panels, kind, j) <==> SpeaksFor(init, kind, j) {}
      }
    }
  }

  /** What a kind's figure comes to in packages, if it limits. */
  function Quotient(panels: seq<Panel>, ratio: Ratio, f: Panel -> Option<real>, kind: Kind): Option<real> {
    var p := LastOf(panels, kind);
    if p.Some? && f(p.value).Some? && PerUnit(ratio, kind) > 0.0
    then Some(Max(f(p.value).value, 0.0) / PerUnit(ratio, kind)) else None
  }

  /** The quotient belongs to the panel that limits, and is 0 or more. */
  ghost predicate QuotientOf(panels: seq<Panel>, ratio: Ratio, f: Panel -> Option<real>, kind: Kind, x: Option<real>) {
    && (x.Some? ==> x.value >= 0.0 && UsesUp(panels, ratio, f, kind, x.value))
    && (x == None ==> forall j: nat :: !Limits(panels, ratio, f, kind, j))
    && (forall n: real, j: nat :: n >= 0.0 && x.Some? && n <= x.value && Limits(panels, ratio, f, kind, j) ==>
          FitsIn(n, PerUnit(ratio, kind), f(panels[j]).value))
  }

  lemma QuotientLimits(panels: seq<Panel>, ratio: Ratio, f: Panel -> Option<real>, kind: Kind)
    requires kind == Cpu || kind == Ram
    ensures QuotientOf(panels, ratio, f, kind, Quotient(panels, ratio, f, kind))
  {
    LastSpeaks(panels, kind);
    var x, per := Quotient(panels, ratio, f, kind), PerUnit(ratio, kind);
    if x.Some? {
      var j: nat :| SpeaksFor(panels, kind, j);
      var figure := Max(f(panels[j]).value, 0.0);
      Divide(figure, figure, per);
      assert Limits(panels, ratio, f, kind, j) && Takes(x.value, per, f(panels[j]).value);
      forall n: real, k: nat | 0.0 <= n <= x.value && Limits(panels, ratio, f, kind, k)
        ensures FitsIn(n, per, f(panels[k]).value)
      {
        Scale(n, x.value, per);
      }
    }
  }

  /** The lesser quotient counts the packages that fit. */
  lemma LeastQuotientFits(panels: seq<Panel>, ratio: Ratio, f: Panel -> Option<real>, c: Option<real>, r: Option<real>)
    requires QuotientOf(panels, ratio, f, Cpu, c) && QuotientOf(panels, ratio, f, Ram, r)
    ensures Least(c, r).Some? ==> MostPackages(panels, ratio, f, Least(c, r).value)
    ensures Least(c, r) == None ==> NothingLimits(panels, ratio, f)
  {
  }

  // ---------------------------------------------------------------- the ratio cap

  function Constrained(): Panel -> Option<real> {
    (p: Panel) => Some(p.constrained)
  }

  /** The kind reported: one that `n` packages use up, CPU where both are; none where nothing limits. */
  ghost predicate Names(panels: seq<Panel>, ratio: Ratio, f: Panel -> Option<real>, kind: Option<Kind>, n: real) {
    match kind
    case Some(Cpu) => UsesUp(panels, ratio, f, Cpu, n)
    case Some(Ram) => UsesUp(panels, ratio, f, Ram, n) && !UsesUp(panels, ratio, f, Cpu, n)
    case Some(_) => false
    case None => NothingLimits(panels, ratio, f)
  }

  lemma UsedUpOnce(panels: seq<Panel>, ratio: Ratio, f: Panel -> Option<real>, kind: Kind, n: real, m: real)
    requires UsesUp(panels, ratio, f, kind, n) && UsesUp(panels, ratio, f, kind, m)
    ensures n == m
  {
    var j: nat :| Limits(panels, ratio, f, kind, j) && Takes(n, PerUnit(ratio, kind), f(panels[j]).value);
    var k: nat :| Limits(panels, ratio, f, kind, k) && Takes(m, PerUnit(ratio, kind), f(panels[k]).value);
    assert j == k;
    TakenIsMost(n, m, PerUnit(ratio, kind), f(panels[j]).value);
    TakenIsMost(m, n, PerUnit(ratio, kind), f(panels[j]).value);
  }

  lemma LessNamesRam(panels: seq<Panel>, ratio: Ratio, f: Panel -> Option<real>, c: Option<real>, r: real)
    requires QuotientOf(panels, ratio, f, Cpu, c) && (c.Some? ==> r < c.value)
    ensures !UsesUp(panels, ratio, f, Cpu, r)
  {
    if UsesUp(panels, ratio, f, Cpu, r) && c.Some? { UsedUpOnce(panels, ratio, f, Cpu, r, c.value); }
  }

  /** The bottleneck counts the most packages that fit and names what they use up. */
  ghost predicate RightBottleneck(panels: seq<Panel>, ratio: Ratio, b: Bottleneck) {
    var f := Constrained();
    && b.units >= 0.0 && Names(panels, ratio, f, b.kind, b.units)
    && if NothingLimits(panels, ratio, f) then b.units == 0.0 else MostPackages(panels, ratio, f, b.units)
  }

  lemma ConstrainedIsQuotient(panels: seq<Panel>, ratio: Ratio, kind: Kind)
    ensures ConstrainedUnits(panels, ratio, kind) == Quotient(panels, ratio, Constrained(), kind)
  {
  }

  lemma BottleneckIsRight(panels: seq<Panel>, ratio: Ratio)
    ensures RightBottleneck(panels, ratio, EffectiveBottleneck(panels, ratio))
  {
    var f := Constrained();
    ConstrainedIsQuotient(panels, ratio, Cpu);
    ConstrainedIsQuotient(panels, ratio, Ram);
    QuotientLimits(panels, ratio, f, Cpu);
    QuotientLimits(panels, ratio, f, Ram);
    var c, r := ConstrainedUnits(panels, ratio, Cpu), ConstrainedUnits(panels, ratio, Ram);
    LeastQuotientFits(panels, ratio, f, c, r);
    if r.Some? && (c.Some? ==> r.value < c.value) { LessNamesRam(panels, ratio, f, c, r.value); }
  }

  /** What a storage panel becomes under a cap of `cap`, with `n` packages and `kind` to report. */
  ghost predicate CappedAs(p: Panel, q: Panel, n: real, kind: Option<Kind>, cap: real) {
    var falls := || q.constrained + QTY_SLACK < p.constrained || cap + QTY_SLACK < OrElse(p.max, p.raw)
                 || cap + QTY_SLACK < OrElse(p.min, p.constrained);
    && q == p.(constrained := q.constrained, min := q.min, max := q.max, ratioBound := q.ratioBound,
               reason := q.reason, bottleneckKind := q.bottleneckKind, bottleneckUnits := q.bottleneckUnits)
    && (if p.min.Some? then Is(q.min, Min(p.min.value, cap)) else q.min == None)
    && (if p.max.Some? then Is(q.max, Min(p.max.value, cap)) else q.max == None)
    && q.constrained == Min(if p.max.Some? then OrElse(p.min, p.constrained) else p.constrained, cap)
    && (q.ratioBound <==> p.ratioBound || falls)
    && q.bottleneckKind == (if falls then kind else p.bottleneckKind)
    && q.bottleneckUnits == (if falls then Some(n) else p.bottleneckUnits)
    && q.reason == (if p.gateBlocked then GateReason
                    else if n <= PCT_SLACK && OrElse(p.max, p.raw) > QTY_SLACK then BottleneckReason
                    else if falls && p.reason == NoReason then RatioReason
                    else p.reason)
  }

  lemma CapPanelIs(p: Panel, b: Bottleneck, cap: real)
    requires p.kind == Storage
    ensures CappedAs(p, CapPanel(p, b, cap), b.units, b.kind, cap)
  {
  }

  /** `cap` is the storage of `n` packages. */
  ghost predicate StorageOf(cap: real, n: real, ratio: Ratio) {
    cap == n * ratio.storage
  }

  lemma CapOfUnits(b: Bottleneck, ratio: Ratio)
    requires b.units >= 0.0 && ratio.storage > 0.0
    ensures StorageOf(StorageCap(b, ratio), b.units, ratio)
  {
    Scale(0.0, b.units, ratio.storage);
  }

  /** Storage panels are capped at `cap`, all others are as they were. */
  ghost predicate CappedBy(panels: seq<Panel>, out: seq<Panel>, b: Bottleneck, cap: real) {
    && |out| == |panels|
    && forall i :: 0 <= i < |panels| ==>
                     if panels[i].kind == Storage then CappedAs(panels[i], out[i], b.units, b.kind, cap)
                     else out[i] == panels[i]
  }

  lemma CapAllIs(panels: seq<Panel>, ratio: Ratio, b: Bottleneck)
    requires ratio.storage > 0.0 && b == EffectiveBottleneck(panels, ratio)
    ensures CappedBy(panels, CapAll(panels, ratio), b, StorageCap(b, ratio))
  {
    LastOfMember(panels, Storage);
    forall i | 0 <= i < |panels| && panels[i].kind == Storage
      ensures CappedAs(panels[i], CapAll(panels, ratio)[i], b.units, b.kind, StorageCap(b, ratio))
    {
      CapPanelIs(panels[i], b, StorageCap(b, ratio));
    }
  }

  /**
   The cap is the storage of the most packages that the constrained CPU and RAM figures allow, no
   storage where neither takes part. Every storage panel comes under it and reports those packages
   and what they use up when something visible falls; every other panel stays.
   */
  lemma CapExactly(panels: seq<Panel>, ratio: Ratio) returns (b: Bottleneck, cap: real)
    requires ratio.storage > 0.0
    ensures RightBottleneck(panels, ratio, b) && StorageOf(cap, b.units, ratio)
    ensures CappedBy(panels, CapAll(panels, ratio), b, cap)
  {
    b := EffectiveBottleneck(panels, ratio);
    cap := StorageCap(b, ratio);
    BottleneckIsRight(panels, ratio);
    CapOfUnits(b, ratio);
    CapAllIs(panels, ratio, b);
  }

  /** A package size of zero leaves all panels as they were. */
  lemma NoStorageNoCap(panels: seq<Panel>, ratio: Ratio)
    requires ratio.storage <= 0.0
    ensures CapAll(panels, ratio) == panels && TracksAll(panels, ratio) == panels
  {
  }

  /** No figure of the storage panel is more than `figure` of a resource allows at `perUnit` a package. */
  ghost predicate StaysWithin(q: Panel, perUnit: real, figure: real, ratio: Ratio) {
    var room := Max(figure, 0.0) * ratio.storage;
    && q.constrained * perUnit <= room && (q.min.Some? ==> q.min.value * perUnit <= room)
    && (q.max.Some? ==> q.max.value * perUnit <= room)
  }

  lemma WithinByPackages(x: real, cap: real, n: real, perUnit: real, figure: real, ratio: Ratio)
    requires x <= cap && StorageOf(cap, n, ratio) && FitsIn(n, perUnit, figure) && perUnit > 0.0 && ratio.storage > 0.0
    ensures x * perUnit <= Max(figure, 0.0) * ratio.storage
  {
    Scale(x, cap, perUnit);
    Scale(n * perUnit, Max(figure, 0.0), ratio.storage);
    assert cap * perUnit == n * perUnit * ratio.storage;
  }

  lemma CappedUnder(p: Panel, q: Panel, n: real, kind: Option<Kind>, cap: real)
    requires CappedAs(p, q, n, kind, cap)
    ensures q.constrained <= cap && (q.min.Some? ==> q.min.value <= cap) && (q.max.Some? ==> q.max.value <= cap)
  {
  }

  lemma CappedStaysWithin(p: Panel, q: Panel, n: real, kind: Option<Kind>, cap: real, perUnit: real, figure: real,
                          ratio: Ratio)
    requires CappedAs(p, q, n, kind, cap) && StorageOf(cap, n, ratio)
    requires FitsIn(n, perUnit, figure) && perUnit > 0.0 && ratio.storage > 0.0
    ensures StaysWithin(q, perUnit, figure, ratio)
  {
    CappedUnder(p, q, n, kind, cap);
    UnderStaysWithin(q, n, cap, perUnit, figure, ratio);
  }

  lemma UnderStaysWithin(q: Panel, n: real, cap: real, perUnit: real, figure: real, ratio: Ratio)
    requires q.constrained <= cap && (q.min.Some? ==> q.min.value <= cap) && (q.max.Some? ==> q.max.value <= cap)
    requires StorageOf(cap, n, ratio) && FitsIn(n, perUnit, figure) && perUnit > 0.0 && ratio.storage > 0.0
    ensures StaysWithin(q, perUnit, figure, ratio)
  {
    WithinByPackages(q.constrained, cap, n, perUnit, figure, ratio);
    if q.min.Some? { WithinByPackages(q.min.value, cap, n, perUnit, figure, ratio); }
    if q.max.Some? { WithinByPackages(q.max.value, cap, n, perUnit, figure, ratio); }
  }

  /**
   After the cap, every storage panel's headline, minimum and maximum, times the size of CPU or RAM in
   a package, is at most that resource's constrained figure times the storage size; where neither takes
   part, none of them is above zero.
   */
  lemma CapStaysWithin(panels: seq<Panel>, ratio: Ratio, i: nat, kind: Kind, j: nat)
    requires ratio.storage > 0.0 && i < |panels| && panels[i].kind == Storage
    ensures Limits(panels, ratio, Constrained(), kind, j) ==>
              StaysWithin(CapAll(panels, ratio)[i], PerUnit(ratio, kind), panels[j].constrained, ratio)
    ensures NothingLimits(panels, ratio, Constrained()) ==> StaysWithin(CapAll(panels, ratio)[i], 1.0, 0.0, ratio)
  {
    var b, cap := CapExactly(panels, ratio);
    if Limits(panels, ratio, Constrained(), kind, j) {
      CappedStaysWithin(panels[i], CapAll(panels, ratio)[i], b.units, b.kind, cap, PerUnit(ratio, kind),
                        panels[j].constrained, ratio);
    }
    if NothingLimits(panels, ratio, Constrained()) {
      CappedStaysWithin(panels[i], CapAll(panels, ratio)[i], b.units, b.kind, cap, 1.0, 0.0, ratio);
    }
  }

  // ---------------------------------------------------------------- the track caps

  /** What a panel shows on a track. */
  function OnTheTrack(track: Track): Panel -> Option<real> {
    (p: Panel) => match track
      case Allocation => p.allocation
      case MaxUtil => p.maxUtil
      case AvgUtil => p.avgUtil
  }

  lemma TrackUnitsAreQuotients(panels: seq<Panel>, ratio: Ratio, track: Track)
    ensures var f := OnTheTrack(track);
            TrackUnits(Shown(LastOf(panels, Cpu), track), Shown(LastOf(panels, Ram), track), ratio)
            == Least(Quotient(panels, ratio, f, Cpu), Quotient(panels, ratio, f, Ram))
  {
    var f := OnTheTrack(track);
    QuotientLimits(panels, ratio, f, Cpu);
    QuotientLimits(panels, ratio, f, Ram);
  }

  /** A track of storage: nothing where nothing limits, else the most packages' storage within the pool. */
  ghost predicate RightTrack(panels: seq<Panel>, ratio: Ratio, track: Track, pool: real, shown: Option<real>) {
    var f := OnTheTrack(track);
    if NothingLimits(panels, ratio, f) then shown == None
    else exists n, cap :: MostPackages(panels, ratio, f, n) && StorageOf(cap, n, ratio) && Is(shown, Min(pool, cap))
  }

  lemma OnTrackIsRight(panels: seq<Panel>, ratio: Ratio, track: Track, n: Option<real>, pool: real)
    requires n.Some? ==> MostPackages(panels, ratio, OnTheTrack(track), n.value)
    requires n == None ==> NothingLimits(panels, ratio, OnTheTrack(track))
    ensures RightTrack(panels, ratio, track, pool, OnTrack(n, pool, ratio))
  {
    if n.Some? {
      var cap := n.value * ratio.storage;
      assert StorageOf(cap, n.value, ratio);
      SomethingLimits(panels, ratio, OnTheTrack(track), n.value);
    }
  }

  lemma SomethingLimits(panels: seq<Panel>, ratio: Ratio, f: Panel -> Option<real>, n: real)
    requires MostPackages(panels, ratio, f, n)
    ensures !NothingLimits(panels, ratio, f)
  {
  }

  lemma StorageTrackIsRight(panels: seq<Panel>, ratio: Ratio, track: Track)
    ensures RightTrack(panels, ratio, track, PoolRaw(panels), StorageOnTrack(panels, ratio, track))
  {
    var f := OnTheTrack(track);
    TrackUnitsAreQuotients(panels, ratio, track);
    QuotientLimits(panels, ratio, f, Cpu);
    QuotientLimits(panels, ratio, f, Ram);
    var c, r := Quotient(panels, ratio, f, Cpu), Quotient(panels, ratio, f, Ram);
    LeastQuotientFits(panels, ratio, f, c, r);
    OnTrackIsRight(panels, ratio, track, Least(c, r), PoolRaw(panels));
  }

  /** A storage panel shows its tracks, the allocation track as headline, or the old headline within the pool. */
  ghost predicate ProjectedAs(panels: seq<Panel>, ratio: Ratio, p: Panel, q: Panel, storage: Panel) {
    var pool := Max(storage.raw, 0.0);
    && q == p.(constrained := q.constrained, allocation := q.allocation, maxUtil := q.maxUtil, avgUtil := q.avgUtil,
               ratioBound := true, reason := q.reason)
    && (forall track: Track :: RightTrack(panels, ratio, track, pool, OnTheTrack(track)(q)))
    && q.constrained == OrElse(q.allocation, Min(storage.constrained, pool))
    && q.reason == (if p.reason in {NoReason, BlankReason, BottleneckReason} then RatioReason else p.reason)
  }

  lemma TrackPanelIs(panels: seq<Panel>, ratio: Ratio, p: Panel, storage: Panel)
    requires p.kind == Storage && LastOf(panels, Storage) == Some(storage)
    ensures ProjectedAs(panels, ratio, p,
                        TrackPanel(p, TrackConstrained(panels, ratio), StorageOnTrack(panels, ratio, Allocation),
                                   StorageOnTrack(panels, ratio, MaxUtil), StorageOnTrack(panels, ratio, AvgUtil)),
                        storage)
  {
    var q := TrackPanel(p, TrackConstrained(panels, ratio), StorageOnTrack(panels, ratio, Allocation),
                        StorageOnTrack(panels, ratio, MaxUtil), StorageOnTrack(panels, ratio, AvgUtil));
    forall track: Track
      ensures RightTrack(panels, ratio, track, Max(storage.raw, 0.0), OnTheTrack(track)(q))
    {
      StorageTrackIsRight(panels, ratio, track);
    }
  }

  /**
   Projecting the tracks: where some CPU or RAM panel shows one, every storage panel shows on each track
   the storage of the most packages that CPU and RAM show on it, within the pool; every other panel
   stays. Where none does, all stay.
   */
  lemma TracksExactly(panels: seq<Panel>, ratio: Ratio, i: nat, k: nat)
    requires ratio.storage > 0.0 && i < |panels| && SpeaksFor(panels, Storage, k)
    ensures if panels[i].kind == Storage && exists t: Track :: !NothingLimits(panels, ratio, OnTheTrack(t))
            then ProjectedAs(panels, ratio, panels[i], TracksAll(panels, ratio)[i], panels[k])
            else TracksAll(panels, ratio)[i] == panels[i]
  {
    LastSpeaks(panels, Storage);
    forall t: Track ensures StorageOnTrack(panels, ratio, t).Some? <==> !NothingLimits(panels, ratio, OnTheTrack(t)) {
      StorageTrackIsRight(panels, ratio, t);
    }
    if panels[i].kind == Storage { TrackPanelIs(panels, ratio, panels[i], panels[k]); }
  }
}
