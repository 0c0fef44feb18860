/**
 Splitting a customer's licences over the datacenters it occupies (shared/licensing/dc_breakdown.py:118-151):
 the shares of all datacenters add back up to what was sold.
 */
module Licences {
  import opened Prelude
  import opened Text

  /** VM counts by tenant name, in dictionary order. */
  type Counts = seq<(string, int)>

  /** What a tenant bought of each product family. */
  datatype Sold = Sold(tenant: string, families: seq<(string, real)>)

  const FAMILIES: set<string> := {"windows", "rhel", "suse"}

  /** `str(name or "").strip().lower()` */
  function NameKey(a: Alphabet, name: string): string {
    a.Lower(a.Strip(name))
  }

  /** The count under a key; of names that fold to the same key the last one wins. */
  function CountOf(a: Alphabet, counts: Counts, key: string): int {
    if counts == [] then 0
    else if NameKey(a, counts[|counts| - 1].0) == key then counts[|counts| - 1].1
    else CountOf(a, counts[..|counts| - 1], key)
  }

  /** Python's `round`: to the nearest integer, a half to the even one. */
  function Round(v: real): int {
    var low := v.Floor;
    if v - low as real < 0.5 || (v - low as real == 0.5 && low % 2 == 0) then low else low + 1
  }

  /** The share of a tenant's licences that falls to a datacenter. */
  function Share(here: int, everywhere: int): real {
    if here <= 0 || everywhere <= 0 then 0.0 else Min(here as real / everywhere as real, 1.0)
  }

  function QtyOf(families: seq<(string, real)>, family: string): real {
    if families == [] then 0.0
    else
      var last := families[|families| - 1];
      QtyOf(families[..|families| - 1], family) + if last.0 == family then last.1 else 0.0
  }

  /** A share of what a tenant bought of a family. */
  function Portion(families: seq<(string, real)>, family: string, share: real): real {
    QtyOf(families, family) * share
  }

  function TenantShare(a: Alphabet, here: Counts, totals: Counts, s: Sold): real {
    Share(CountOf(a, here, NameKey(a, s.tenant)), CountOf(a, totals, NameKey(a, s.tenant)))
  }

  /** Licences of a family that fall to a datacenter, before rounding. */
  function Attributed(a: Alphabet, here: Counts, totals: Counts, sold: seq<Sold>, family: string): real {
    if sold == [] then 0.0
    else
      var s := sold[|sold| - 1];
      Attributed(a, here, totals, sold[..|sold| - 1], family)
          + Portion(s.families, family, TenantShare(a, here, totals, s))
  }

  // ---------------------------------------------------------------- the loops

  method Normalise(a: Alphabet, counts: Counts) returns (byKey: map<string, int>)
    ensures forall k :: (if k in byKey then byKey[k] else 0) == CountOf(a, counts, k)
  {
    byKey := map[];
    for i := 0 to |counts|
      invariant forall k :: (if k in byKey then byKey[k] else 0) == CountOf(a, counts[..i], k)
    {
      assert counts[..i + 1][..i] == counts[..i];
      byKey := byKey[NameKey(a, counts[i].0) := counts[i].1];
    }
    assert counts[..|counts|] == counts;
  }

  method AddTenant(out: map<string, real>, families: seq<(string, real)>, share: real) returns (more: map<string, real>)
    requires out.Keys == FAMILIES
    ensures more.Keys == FAMILIES && forall f <- FAMILIES :: more[f] == out[f] + Portion(families, f, share)
  {
    more := out;
    NothingOfAny(families);
    for i := 0 to |families|
      invariant more.Keys == FAMILIES && forall f <- FAMILIES :: more[f] == out[f] + Portion(families[..i], f, share)
    {
      var (family, qty) := families[i];
      forall f | f in FAMILIES
        ensures Portion(families[..i + 1], f, share) == Portion(families[..i], f, share) 
                + if f == family then qty * share else 0.0
      {
        OneMoreLine(families, i, f, share);
      }
      if family in more {
        more := more[family := more[family] + qty * share];
      }
    }
    assert families[..|families|] == families;
  }

  lemma OneMoreLine(families: seq<(string, real)>, i: nat, family: string, share: real)
    requires i < |families|
    ensures Portion(families[..i + 1], family, share)
            == Portion(families[..i], family, share) + if family == families[i].0 then families[i].1 * share else 0.0
  {
    assert families[..i + 1][..i] == families[..i];
    Distribute(share, QtyOf(families[..i], family), families[i].1);
  }

  lemma NothingOfAny(families: seq<(string, real)>)
    ensures forall f :: Portion(families, f, 0.0) == 0.0
    ensures forall f, share :: Portion(families[..0], f, share) == 0.0
  {
  }

  /** shared/licensing/dc_breakdown.py:118-151 */
  method AttributeLicencesToDc(a: Alphabet, dcCounts: Counts, totalCounts: Counts, sold: seq<Sold>)
    returns (rounded: map<string, int>)
    ensures rounded.Keys == FAMILIES
    ensures forall f <- FAMILIES :: rounded[f] == Round(Attributed(a, dcCounts, totalCounts, sold, f))
  {
    var here := Normalise(a, dcCounts);
    var all := Normalise(a, totalCounts);
    var out: map<string, real> := map["windows" := 0.0, "rhel" := 0.0, "suse" := 0.0];
    for i := 0 to |sold|
      invariant out.Keys == FAMILIES
      invariant forall f <- FAMILIES :: out[f] == Attributed(a, dcCounts, totalCounts, sold[..i], f)
    {
      assert sold[..i + 1][..i] == sold[..i];
      var key := NameKey(a, sold[i].tenant);
      var n := if key in here then here[key] else 0;
      var total := if key in all then all[key] else 0;
      assert TenantShare(a, dcCounts, totalCounts, sold[i]) == Share(n, total);
      NothingOfAny(sold[i].families);
      if n <= 0 {
        continue;
      }
      if total <= 0 {
        continue;
      }
      out := AddTenant(out, sold[i].families, Min(n as real / total as real, 1.0));
    }
    assert sold[..|sold|] == sold;
    rounded := map f | f in out :: Round(out[f]);
  }

  // ---------------------------------------------------------------- rounding

  /** No integer is nearer, and a tie goes to the even one. */
  lemma RoundIsNearest(v: real, k: int)
    ensures Distance(v, Round(v) as real) <= 0.5 && Distance(v, Round(v) as real) <= Distance(v, k as real)
    ensures Distance(v, k as real) == Distance(v, Round(v) as real) && k != Round(v) ==> Round(v) % 2 == 0
  {
    var low := v.Floor;
    if k <= low {
      assert k as real <= low as real;
    } else {
      assert k as real >= (low + 1) as real;
    }
  }

  function Distance(x: real, y: real): real {
    if x >= y then x - y else y - x
  }

  // ---------------------------------------------------------------- counts and shares

  /** Names that differ in case or in white space around them are one tenant. */
  lemma NamesFold(a: Alphabet, lead: string, name: string, trail: string, other: string)
    requires (forall c <- lead :: a.space(c)) && forall c <- trail :: a.space(c)
    requires name != [] && !a.space(name[0]) && !a.space(name[|name| - 1]) && a.Lower(name) == a.Lower(other)
    requires other != [] && !a.space(other[0]) && !a.space(other[|other| - 1])
    ensures NameKey(a, lead + name + trail) == NameKey(a, other) == a.Lower(name)
  {
    StripExactly(a, lead, name, trail);
    StripExactly(a, "", other, "");
    assert "" + other + "" == other;
  }

  /** Of entries whose names fold to the same key the last one counts; a name not listed counts nothing. */
  lemma {:induction false} LastCounts(a: Alphabet, counts: Counts, key: string, i: nat)
    ensures i < |counts| && NameKey(a, counts[i].0) == key
            && (forall j :: i < j < |counts| ==> NameKey(a, counts[j].0) != key) ==>
              CountOf(a, counts, key) == counts[i].1
    ensures (forall e <- counts :: NameKey(a, e.0) != key) ==> CountOf(a, counts, key) == 0
  {
    if counts != [] {
      assert counts == counts[..|counts| - 1] + [counts[|counts| - 1]];
      LastCounts(a, counts[..|counts| - 1], key, i);
    }
  }

  /** A share is the part of the machines here, never more than all, and none where none are known. */
  lemma ShareExactly(here: int, everywhere: int)
    ensures here <= 0 || everywhere <= 0 ==> Share(here, everywhere) == 0.0
    ensures 0 < everywhere <= here ==> Share(here, everywhere) == 1.0
    ensures 0 < here < everywhere ==>
              0.0 < Share(here, everywhere) < 1.0
              && Share(here, everywhere) * everywhere as real == here as real
  {
    if 0 < everywhere <= here { AtLeastOne(here as real, everywhere as real); }
    if 0 < here < everywhere { BelowOne(here as real, everywhere as real); }
  }

  lemma AtLeastOne(x: real, y: real)
    requires 0.0 < y <= x
    ensures x / y >= 1.0
  {
  }

  lemma BelowOne(x: real, y: real)
    requires 0.0 < x < y
    ensures 0.0 < x / y < 1.0 && x / y * y == x
  {
    Undivided(x, y);
    LessByFactor(x / y, 1.0, y);
    LessByFactor(0.0, x / y, y);
  }

  lemma Undivided(x: real, y: real)
    requires y > 0.0
    ensures x / y * y == x
  {
  }

  lemma LessByFactor(q: real, r: real, y: real)
    requires y > 0.0 && q * y < r * y
    ensures q < r
  {
  }

  /** Every tenant adds its quantity times its share; a datacenter without its machines gets nothing. */
  lemma {:induction false} TenantsAddUp(a: Alphabet, here: Counts, totals: Counts, x: seq<Sold>, y: seq<Sold>,
                                        family: string)
    ensures Attributed(a, here, totals, x + y, family)
            == Attributed(a, here, totals, x, family) + Attributed(a, here, totals, y, family)
  {
    if y == [] {
      assert x + y == x;
    } else {
      TenantsAddUp(a, here, totals, x, y[..|y| - 1], family);
      assert (x + y)[..|x + y| - 1] == x + y[..|y| - 1];
    }
  }

  /** What one tenant with one line for a family adds. */
  lemma OneTenantAdds(a: Alphabet, here: Counts, totals: Counts, s: Sold, i: nat)
    requires i < |s.families| && forall j :: 0 <= j < |s.families| && j != i ==> s.families[j].0 != s.families[i].0
    ensures var key := NameKey(a, s.tenant);
            Attributed(a, here, totals, [s], s.families[i].0)
            == Times(s.families[i].1, Share(CountOf(a, here, key), CountOf(a, totals, key)))
  {
    assert [s][..0] == [];
    OneLineCounts(s.families, i);
    PortionIs(s.families, s.families[i].0, s.families[i].1, TenantShare(a, here, totals, s));
  }

  function Times(x: real, y: real): real {
    x * y
  }

  lemma PortionIs(families: seq<(string, real)>, family: string, qty: real, share: real)
    requires QtyOf(families, family) == qty
    ensures Portion(families, family, share) == Times(qty, share)
  {
  }

  lemma {:induction false} OneLineCounts(families: seq<(string, real)>, i: nat)
    requires i < |families| && forall j :: 0 <= j < |families| && j != i ==> families[j].0 != families[i].0
    ensures QtyOf(families, families[i].0) == families[i].1
  {
    var last := |families| - 1;
    if i < last {
      OneLineCounts(families[..last], i);
    } else {
      NoLineCounts(families[..last], families[last].0);
    }
  }

  lemma {:induction false} NoLineCounts(families: seq<(string, real)>, family: string)
    requires forall f <- families :: f.0 != family
    ensures QtyOf(families, family) == 0.0
  {
    if families != [] {
      assert families == families[..|families| - 1] + [families[|families| - 1]];
      NoLineCounts(families[..|families| - 1], family);
    }
  }

  // ---------------------------------------------------------------- conservation

  /** A tenant's count over all datacenters. */
  function CountOver(a: Alphabet, dcs: seq<Counts>, key: string): int {
    if dcs == [] then 0 else CountOver(a, dcs[..|dcs| - 1], key) + CountOf(a, dcs[|dcs| - 1], key)
  }

  /** The datacenters' counts are counts, and make up the totals. */
  ghost predicate Partition(a: Alphabet, dcs: seq<Counts>, totals: Counts) {
    && (forall d, key :: d in dcs ==> CountOf(a, d, key) >= 0)
    && (forall key :: CountOver(a, dcs, key) == CountOf(a, totals, key))
  }

  function SumAttributed(a: Alphabet, dcs: seq<Counts>, totals: Counts, sold: seq<Sold>, family: string): real {
    if dcs == [] then 0.0
    else SumAttributed(a, dcs[..|dcs| - 1], totals, sold, family) + Attributed(a, dcs[|dcs| - 1], totals, sold, family)
  }

  function SumRounded(a: Alphabet, dcs: seq<Counts>, totals: Counts, sold: seq<Sold>, family: string): int {
    if dcs == [] then 0
    else
      SumRounded(a, dcs[..|dcs| - 1], totals, sold, family)
      + Round(Attributed(a, dcs[|dcs| - 1], totals, sold, family))
  }

  /** What was sold to tenants that run anything anywhere. */
  function SoldInUse(a: Alphabet, totals: Counts, sold: seq<Sold>, family: string): real {
    if sold == [] then 0.0
    else
      var s := sold[|sold| - 1];
      SoldInUse(a, totals, sold[..|sold| - 1], family)
      + if CountOf(a, totals, NameKey(a, s.tenant)) > 0 then QtyOf(s.families, family) else 0.0
  }

  function SumShares(a: Alphabet, dcs: seq<Counts>, totals: Counts, s: Sold): real {
    if dcs == [] then 0.0 else SumShares(a, dcs[..|dcs| - 1], totals, s) + TenantShare(a, dcs[|dcs| - 1], totals, s)
  }

  /** Counts that are no more than the total give shares in proportion. */
  lemma {:induction false} SharesInProportion(a: Alphabet, dcs: seq<Counts>, totals: Counts, s: Sold)
    requires var key := NameKey(a, s.tenant);
             CountOf(a, totals, key) > 0 && forall d <- dcs :: 0 <= CountOf(a, d, key) <= CountOf(a, totals, key)
    ensures var key := NameKey(a, s.tenant);
            SumShares(a, dcs, totals, s) == CountOver(a, dcs, key) as real / CountOf(a, totals, key) as real
  {
    if dcs != [] {
      var key := NameKey(a, s.tenant);
      var last := dcs[|dcs| - 1];
      SharesInProportion(a, dcs[..|dcs| - 1], totals, s);
      OneShare(CountOver(a, dcs[..|dcs| - 1], key), CountOf(a, last, key), CountOf(a, totals, key));
    }
  }

  lemma OneShare(before: int, here: int, everywhere: int)
    requires 0 <= here <= everywhere && everywhere > 0
    ensures Share(here, everywhere) == here as real / everywhere as real
    ensures before as real / everywhere as real + Share(here, everywhere)
            == (before + here) as real / everywhere as real
  {
  }

  /** One tenant's shares make up its whole quantity exactly when its counts make up its total. */
  lemma SharesMakeOneExactly(a: Alphabet, dcs: seq<Counts>, totals: Counts, s: Sold)
    requires var key := NameKey(a, s.tenant);
             CountOf(a, totals, key) > 0 && forall d <- dcs :: 0 <= CountOf(a, d, key) <= CountOf(a, totals, key)
    ensures SumShares(a, dcs, totals, s) == 1.0
            <==> CountOver(a, dcs, NameKey(a, s.tenant)) == CountOf(a, totals, NameKey(a, s.tenant))
  {
    SharesInProportion(a, dcs, totals, s);
    WholeExactly(CountOver(a, dcs, NameKey(a, s.tenant)), CountOf(a, totals, NameKey(a, s.tenant)));
  }

  lemma WholeExactly(n: int, e: int)
    requires e > 0
    ensures n as real / e as real == 1.0 <==> n == e
  {
  }

  lemma {:induction false} NoShareNoTotal(a: Alphabet, dcs: seq<Counts>, totals: Counts, s: Sold)
    requires CountOf(a, totals, NameKey(a, s.tenant)) <= 0
    ensures SumShares(a, dcs, totals, s) == 0.0
  {
    if dcs != [] { NoShareNoTotal(a, dcs[..|dcs| - 1], totals, s); }
  }

  lemma {:induction false} CountWithin(a: Alphabet, dcs: seq<Counts>, key: string, i: nat)
    requires i < |dcs| && forall d <- dcs :: CountOf(a, d, key) >= 0
    ensures 0 <= CountOf(a, dcs[i], key) <= CountOver(a, dcs, key)
  {
    var last := |dcs| - 1;
    if i < last {
      CountWithin(a, dcs[..last], key, i);
    } else if last > 0 {
      CountWithin(a, dcs[..last], key, 0);
    }
  }

  /** One more tenant adds its quantity once for each share. */
  lemma {:induction false} OneMoreTenant(a: Alphabet, dcs: seq<Counts>, totals: Counts, sold: seq<Sold>, family: string)
    requires sold != []
    ensures SumAttributed(a, dcs, totals, sold, family)
            == SumAttributed(a, dcs, totals, sold[..|sold| - 1], family)
               + Portion(sold[|sold| - 1].families, family, SumShares(a, dcs, totals, sold[|sold| - 1]))
  {
    if dcs != [] {
      var init, s := dcs[..|dcs| - 1], sold[|sold| - 1];
      OneMoreTenant(a, init, totals, sold, family);
      PortionSplits(s.families, family, SumShares(a, init, totals, s), TenantShare(a, dcs[|dcs| - 1], totals, s));
    } else {
      NothingOfAny(sold[|sold| - 1].families);
    }
  }

  lemma PortionSplits(families: seq<(string, real)>, family: string, x: real, y: real)
    ensures Portion(families, family, x + y) == Portion(families, family, x) + Portion(families, family, y)
  {
  }

  lemma Distribute(q: real, x: real, y: real)
    ensures q * (x + y) == q * x + q * y
  {
  }

  lemma {:induction false} NothingSold(a: Alphabet, dcs: seq<Counts>, totals: Counts, family: string)
    ensures SumAttributed(a, dcs, totals, [], family) == 0.0
  {
    if dcs != [] { NothingSold(a, dcs[..|dcs| - 1], totals, family); }
  }

  /** When the datacenters' counts make up the totals, their licences add back up to what was sold in use. */
  lemma {:induction false} LicencesAddBackUp(a: Alphabet, dcs: seq<Counts>, totals: Counts, sold: seq<Sold>,
                                             family: string)
    requires Partition(a, dcs, totals)
    ensures SumAttributed(a, dcs, totals, sold, family) == SoldInUse(a, totals, sold, family)
  {
    if sold == [] {
      NothingSold(a, dcs, totals, family);
    } else {
      var s := sold[|sold| - 1];
      var key := NameKey(a, s.tenant);
      LicencesAddBackUp(a, dcs, totals, sold[..|sold| - 1], family);
      OneMoreTenant(a, dcs, totals, sold, family);
      if CountOf(a, totals, key) > 0 {
        forall d | d in dcs ensures 0 <= CountOf(a, d, key) <= CountOf(a, totals, key) {
          var i :| 0 <= i < |dcs| && dcs[i] == d;
          CountWithin(a, dcs, key, i);
        }
        SharesMakeOneExactly(a, dcs, totals, s);
      } else {
        NoShareNoTotal(a, dcs, totals, s);
      }
    }
  }

  lemma {:induction false} RoundingDrift(a: Alphabet, dcs: seq<Counts>, totals: Counts, sold: seq<Sold>, family: string)
    ensures Distance(SumRounded(a, dcs, totals, sold, family) as real, SumAttributed(a, dcs, totals, sold, family))
            <= 0.5 * |dcs| as real
  {
    if dcs != [] {
      var init := dcs[..|dcs| - 1];
      RoundingDrift(a, init, totals, sold, family);
      RoundIsNearest(Attributed(a, dcs[|dcs| - 1], totals, sold, family), 0);
    }
  }

  /** Rounded for display, they are off by at most a half for each datacenter. */
  lemma RoundedLicencesStayClose(a: Alphabet, dcs: seq<Counts>, totals: Counts, sold: seq<Sold>, family: string)
    requires Partition(a, dcs, totals)
    ensures Distance(SumRounded(a, dcs, totals, sold, family) as real, SoldInUse(a, totals, sold, family))
            <= 0.5 * |dcs| as real
  {
    RoundingDrift(a, dcs, totals, sold, family);
    LicencesAddBackUp(a, dcs, totals, sold, family);
  }
}
