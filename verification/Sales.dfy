/**
 Selling packages on the allocation track (shared/sellable/computation.py:53-90, 480-576): what a
 sale takes off the packages left, over one host and over any run of sales.
 */
module Sales {
  import opened Prelude
  import opened Gate
  import opened Hosts
  import opened Panels

  /** The settings of one family: package sizes, thresholds, and GHz a CPU unit. */
  datatype Family = Family(ratio: Ratio, cpuPct: real, ramPct: real, ghzPerUnit: real) {
    ghost predicate Valid() { ratio.cpu > 0.0 && ratio.ram > 0.0 }

    function CpuSize(): real { InGhz(ratio, ghzPerUnit).cpu }
  }

  /** Packages left on a host. */
  function Left(h: Host, f: Family): real
    requires f.Valid()
  {
    PairUnits(h, f.ratio, f.cpuPct, f.ramPct, Effective, PhysicalRam, f.ghzPerUnit)
  }

  /** The host once `k` packages are allocated to somebody. */
  function Sell(h: Host, f: Family, k: real): Host {
    h.(figures := h.figures[CpuAlloc := h.At(CpuAlloc) + k * f.CpuSize()][RamAlloc := h.At(RamAlloc) + k * f.ratio.ram])
  }

  predicate Recorded(h: Host) {
    h.At(CpuAlloc) >= 0.0 && h.At(RamAlloc) >= 0.0
  }

  /** Share of a total that may be allocated. */
  function Ceiling(total: real, pct: real): real {
    total * (Max(pct, 0.0) / 100.0)
  }

  function CpuLeft(h: Host, f: Family): real { Headroom(h.At(CpuTotal), h.At(CpuAlloc), h.At(CpuUtilPct), f.cpuPct) }

  function RamLeft(h: Host, f: Family): real { Headroom(h.At(RamTotal), h.At(RamAlloc), h.At(RamUtilPct), f.ramPct) }

  /** Packages in so much CPU and RAM. */
  function PackagesIn(c: real, r: real, f: Family): real
    requires f.Valid()
  {
    Min(c / f.CpuSize(), r / f.ratio.ram)
  }

  lemma FewerPackages(c: real, r: real, f: Family, k: real)
    requires f.Valid()
    ensures PackagesIn(c - k * f.CpuSize(), r - k * f.ratio.ram, f) == PackagesIn(c, r, f) - k
  {
  }

  lemma LeftIs(h: Host, f: Family)
    requires f.Valid()
    ensures f.CpuSize() > 0.0
    ensures Left(h, f) == PackagesIn(CpuLeft(h, f), RamLeft(h, f), f)
  {
  }

  lemma FitsIn(c: real, r: real, f: Family, k: real)
    requires f.Valid()
    ensures k <= PackagesIn(c, r, f) <==> k * f.CpuSize() <= c && k * f.ratio.ram <= r
  {
    FitsAsLimit(c, f.CpuSize(), k);
    FitsAsLimit(r, f.ratio.ram, k);
  }

  lemma FitsBoth(h: Host, f: Family, k: real)
    requires f.Valid()
    ensures k <= Left(h, f) <==> k * f.CpuSize() <= CpuLeft(h, f) && k * f.ratio.ram <= RamLeft(h, f)
  {
    LeftIs(h, f);
    FitsIn(CpuLeft(h, f), RamLeft(h, f), f, k);
  }

  lemma SaleInFigures(h: Host, f: Family, k: real)
    requires f.Valid() && k >= 0.0
    ensures Sell(h, f, k).At(CpuAlloc) == h.At(CpuAlloc) + k * f.CpuSize() >= h.At(CpuAlloc)
    ensures Sell(h, f, k).At(RamAlloc) == h.At(RamAlloc) + k * f.ratio.ram >= h.At(RamAlloc)
    ensures forall key :: key != CpuAlloc && key != RamAlloc ==> Sell(h, f, k).At(key) == h.At(key)
  {
  }

  lemma LeftAfterSale(h: Host, f: Family, k: real)
    requires f.Valid() && Recorded(h) && 0.0 <= k <= Left(h, f)
    ensures CpuLeft(Sell(h, f, k), f) == CpuLeft(h, f) - k * f.CpuSize()
    ensures RamLeft(Sell(h, f, k), f) == RamLeft(h, f) - k * f.ratio.ram
  {
    FitsBoth(h, f, k);
    SaleInFigures(h, f, k);
    HeadroomAfterSale(h.At(CpuTotal), h.At(CpuAlloc), h.At(CpuUtilPct), f.cpuPct, k * f.CpuSize());
    HeadroomAfterSale(h.At(RamTotal), h.At(RamAlloc), h.At(RamUtilPct), f.ramPct, k * f.ratio.ram);
  }

  /** Selling `k` of the packages left on a host leaves exactly `k` fewer. */
  lemma SaleComesOffExactly(h: Host, f: Family, k: real)
    requires f.Valid() && Recorded(h) && 0.0 <= k <= Left(h, f)
    ensures Left(Sell(h, f, k), f) == Left(h, f) - k
    ensures Recorded(Sell(h, f, k))
  {
    LeftAfterSale(h, f, k);
    LeftIs(h, f);
    LeftIs(Sell(h, f, k), f);
    FewerPackages(CpuLeft(h, f), RamLeft(h, f), f, k);
    SaleInFigures(h, f, k);
  }

  /** A quantity fits the headroom exactly when taking it stays under the ceiling. */
  lemma FitsUnderCeiling(total: real, taken: real, utilPct: real, pct: real, q: real)
    requires taken >= 0.0 && q > 0.0 && Max(utilPct, 0.0) <= pct + PCT_SLACK
    ensures q <= Headroom(total, taken, utilPct, pct) <==> taken + q <= Ceiling(total, pct)
  {
  }

  /**
   On a host not gated by its utilisation, a sale keeps CPU and RAM within their ceilings exactly
   when it sells no more than the packages left.
   */
  lemma SaleStaysWithinExactly(h: Host, f: Family, k: real)
    requires f.Valid() && Recorded(h) && k > 0.0
    requires Max(h.At(CpuUtilPct), 0.0) <= f.cpuPct + PCT_SLACK && Max(h.At(RamUtilPct), 0.0) <= f.ramPct + PCT_SLACK
    ensures var after := Sell(h, f, k);
            k <= Left(h, f)
            <==> (&& after.At(CpuAlloc) <= Ceiling(h.At(CpuTotal), f.cpuPct)
                  && after.At(RamAlloc) <= Ceiling(h.At(RamTotal), f.ramPct))
  {
    FitsBoth(h, f, k);
    SaleInFigures(h, f, k);
    ScaleStrict(0.0, k, f.CpuSize());
    ScaleStrict(0.0, k, f.ratio.ram);
    FitsUnderCeiling(h.At(CpuTotal), h.At(CpuAlloc), h.At(CpuUtilPct), f.cpuPct, k * f.CpuSize());
    FitsUnderCeiling(h.At(RamTotal), h.At(RamAlloc), h.At(RamUtilPct), f.ramPct, k * f.ratio.ram);
  }

  // ---------------------------------------------------------------- runs of sales

  datatype Sale = Sale(host: nat, units: real)

  predicate CanSell(hosts: seq<Host>, f: Family, sale: Sale)
    requires f.Valid()
  {
    sale.host < |hosts| && 0.0 <= sale.units <= Left(hosts[sale.host], f)
  }

  function AfterSale(hosts: seq<Host>, f: Family, sale: Sale): (after: seq<Host>)
    ensures |after| == |hosts|
  {
    if sale.host < |hosts| then hosts[sale.host := Sell(hosts[sale.host], f, sale.units)] else hosts
  }

  /** Every sale is within the packages left when it is made. */
  predicate Legal(hosts: seq<Host>, f: Family, sales: seq<Sale>)
    requires f.Valid()
    decreases |sales|
  {
    sales == [] || (CanSell(hosts, f, sales[0]) && Legal(AfterSale(hosts, f, sales[0]), f, sales[1..]))
  }

  function After(hosts: seq<Host>, f: Family, sales: seq<Sale>): (after: seq<Host>)
    ensures |after| == |hosts|
    decreases |sales|
  {
    if sales == [] then hosts else After(AfterSale(hosts, f, sales[0]), f, sales[1..])
  }

  function Sold(sales: seq<Sale>): real {
    if sales == [] then 0.0 else sales[0].units + Sold(sales[1..])
  }

  function TotalLeft(hosts: seq<Host>, f: Family): real {
    EffectiveUnits(hosts, f.ratio, f.cpuPct, f.ramPct, Effective, PhysicalRam, f.ghzPerUnit)
  }

  lemma {:induction false} TotalChangesByOne(hosts: seq<Host>, f: Family, i: nat, h: Host)
    requires f.Valid() && i < |hosts|
    ensures TotalLeft(hosts[i := h], f) == TotalLeft(hosts, f) - Left(hosts[i], f) + Left(h, f)
  {
    var last := |hosts| - 1;
    if i == last {
      assert hosts[i := h][..last] == hosts[..last];
    } else {
      TotalChangesByOne(hosts[..last], f, i, h);
      assert hosts[i := h][..last] == hosts[..last][i := h];
    }
  }

  /** A legal sale takes no resource past its ceiling, unless it was past it before and nothing is added. */
  lemma SaleUnderCeiling(h: Host, f: Family, k: real)
    requires f.Valid() && Recorded(h) && 0.0 <= k <= Left(h, f)
    ensures Sell(h, f, k).At(CpuAlloc) <= Max(h.At(CpuAlloc), Ceiling(h.At(CpuTotal), f.cpuPct))
    ensures Sell(h, f, k).At(RamAlloc) <= Max(h.At(RamAlloc), Ceiling(h.At(RamTotal), f.ramPct))
  {
    FitsBoth(h, f, k);
    SaleInFigures(h, f, k);
    HeadroomBounds(h.At(CpuTotal), h.At(CpuAlloc), h.At(CpuUtilPct), f.cpuPct);
    HeadroomBounds(h.At(RamTotal), h.At(RamAlloc), h.At(RamUtilPct), f.ramPct);
  }

  ghost predicate AllRecorded(hosts: seq<Host>) {
    forall h <- hosts :: Recorded(h)
  }

  /** `after` is `h` with no more allocated than its ceilings, or than it had, allow. */
  ghost predicate UnderCeilings(h: Host, after: Host, f: Family) {
    && after.At(CpuTotal) == h.At(CpuTotal) && after.At(RamTotal) == h.At(RamTotal)
    && after.At(CpuAlloc) <= Max(h.At(CpuAlloc), Ceiling(h.At(CpuTotal), f.cpuPct))
    && after.At(RamAlloc) <= Max(h.At(RamAlloc), Ceiling(h.At(RamTotal), f.ramPct))
  }

  lemma SoldUnderCeilings(h: Host, f: Family, k: real)
    requires f.Valid() && Recorded(h) && 0.0 <= k <= Left(h, f)
    ensures UnderCeilings(h, Sell(h, f, k), f)
  {
    SaleUnderCeiling(h, f, k);
    SaleInFigures(h, f, k);
  }

  lemma OneSale(hosts: seq<Host>, f: Family, sale: Sale)
    requires f.Valid() && AllRecorded(hosts) && CanSell(hosts, f, sale)
    ensures AllRecorded(AfterSale(hosts, f, sale))
    ensures TotalLeft(AfterSale(hosts, f, sale), f) == TotalLeft(hosts, f) - sale.units
    ensures forall i :: 0 <= i < |hosts| ==> UnderCeilings(hosts[i], AfterSale(hosts, f, sale)[i], f)
  {
    var h := hosts[sale.host];
    SaleComesOffExactly(h, f, sale.units);
    SoldUnderCeilings(h, f, sale.units);
    TotalChangesByOne(hosts, f, sale.host, Sell(h, f, sale.units));
  }

  /** Over any legal run, what was sold and what is left add up to what there was. */
  lemma {:induction false} SoldPlusLeftIsConstant(hosts: seq<Host>, f: Family, sales: seq<Sale>)
    requires f.Valid() && AllRecorded(hosts) && Legal(hosts, f, sales)
    ensures Sold(sales) + TotalLeft(After(hosts, f, sales), f) == TotalLeft(hosts, f)
    decreases |sales|
  {
    if sales != [] {
      OneSale(hosts, f, sales[0]);
      SoldPlusLeftIsConstant(AfterSale(hosts, f, sales[0]), f, sales[1..]);
    }
  }

  /** No legal run takes a host past its ceilings; a host that started past one is not sold further. */
  lemma {:induction false} NoHostPassesItsCeiling(hosts: seq<Host>, f: Family, sales: seq<Sale>, i: nat)
    requires f.Valid() && AllRecorded(hosts) && Legal(hosts, f, sales) && i < |hosts|
    ensures UnderCeilings(hosts[i], After(hosts, f, sales)[i], f)
    decreases |sales|
  {
    if sales != [] {
      OneSale(hosts, f, sales[0]);
      NoHostPassesItsCeiling(AfterSale(hosts, f, sales[0]), f, sales[1..], i);
    }
  }
}
