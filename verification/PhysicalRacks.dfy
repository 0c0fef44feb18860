/**
 Which rows make one physical rack, and what is made of them, said over names and sites
 (shared/colocation/occupancy.py:222-296).
 */
module PhysicalRacks {
  import opened Prelude
  import opened Text
  import opened Sorting
  import opened Allocation
  import opened Occupancy
  import opened OccupancyLaws

  /** Two rows tell of one physical rack. */
  predicate SamePlace(x: Rack, y: Rack) {
    x.name == y.name && SameSite(x.site, y.site)
  }

  /** The rows at the place of `m`, in order. */
  function AtPlace(rows: seq<Rack>, m: Rack): seq<Rack> {
    if rows == [] then []
    else AtPlace(rows[..|rows| - 1], m) + if SamePlace(rows[|rows| - 1], m) then [rows[|rows| - 1]] else []
  }

  lemma KeyIsPlace(x: Rack, y: Rack)
    ensures KeyOf(x) == KeyOf(y) <==> SamePlace(x, y)
  {
  }

  lemma {:induction false} GroupIsPlace(rows: seq<Rack>, m: Rack)
    ensures Group(rows, KeyOf(m)) == AtPlace(rows, m)
  {
    if rows != [] {
      GroupIsPlace(rows[..|rows| - 1], m);
      KeyIsPlace(rows[|rows| - 1], m);
    }
  }

  lemma {:induction false} AtPlaceMembers(rows: seq<Rack>, m: Rack)
    ensures forall r :: r in AtPlace(rows, m) <==> r in rows && SamePlace(r, m)
  {
    if rows != [] {
      AtPlaceMembers(rows[..|rows| - 1], m);
      assert rows == rows[..|rows| - 1] + [rows[|rows| - 1]];
    }
  }

  /** `x` is the greatest figure of the rows, 0 where there is none above it. */
  ghost predicate Greatest(rows: seq<Rack>, m: Rack, f: Rack -> int, x: int) {
    && x >= 0 && (forall r <- rows :: SamePlace(r, m) ==> f(r) <= x)
    && (x == 0 || exists r <- rows :: SamePlace(r, m) && f(r) == x)
  }

  lemma GreatestAtPlace(rows: seq<Rack>, m: Rack, f: Rack -> int)
    ensures Greatest(rows, m, f, MaxOf(AtPlace(rows, m), f))
  {
    AtPlaceMembers(rows, m);
    MaxOfBounds(AtPlace(rows, m), f);
  }

  lemma {:induction false} AddNewMembers(acc: seq<string>, more: seq<string>)
    ensures forall t :: t in AddNew(acc, more) <==> t in acc || t in more
  {
    if more != [] {
      AddNewMembers(acc, more[..|more| - 1]);
      assert more == more[..|more| - 1] + [more[|more| - 1]];
    }
  }

  lemma {:induction false} AllTenantsMembers(rows: seq<Rack>, t: string)
    ensures t in AllTenants(rows) <==> exists r <- rows :: t in r.tenants
  {
    if rows != [] {
      var init, last := rows[..|rows| - 1], rows[|rows| - 1];
      AllTenantsMembers(init, t);
      AddNewMembers(AllTenants(init), last.tenants);
      assert rows == init + [last];
    }
  }

  /** The rows at the place of `m` that carry the data-centre label `dc`, by position. */
  function Labelled(rows: seq<Rack>, m: Rack, dc: string): set<nat> {
    set i: nat | i < |rows| && SamePlace(rows[i], m) && rows[i].dc == Some(dc)
  }

  lemma {:induction false} VotesCountLabels(rows: seq<Rack>, m: Rack, dc: string)
    ensures Votes(AtPlace(rows, m), dc) == |Labelled(rows, m, dc)|
  {
    if rows != [] {
      var n := |rows| - 1;
      var init, last := rows[..n], rows[n];
      VotesCountLabels(init, m, dc);
      VotesConcat(AtPlace(init, m), if SamePlace(last, m) then [last] else [], dc);
      VotesOfOne(last, dc);
      LabelledLast(rows, m, dc);
    }
  }

  lemma LabelledLast(rows: seq<Rack>, m: Rack, dc: string)
    requires rows != []
    ensures var n := |rows| - 1;
            |Labelled(rows, m, dc)|
            == |Labelled(rows[..n], m, dc)| + if SamePlace(rows[n], m) && rows[n].dc == Some(dc) then 1 else 0
  {
    var n := |rows| - 1;
    assert Labelled(rows, m, dc)
        == Labelled(rows[..n], m, dc) + if SamePlace(rows[n], m) && rows[n].dc == Some(dc) then {n} else {};
  }

  lemma VotesOfOne(r: Rack, dc: string)
    ensures Votes([r], dc) == if r.dc == Some(dc) then 1 else 0
    ensures Votes([], dc) == 0
  {
    var none: seq<Rack> := [];
    assert [r][..0] == none;
  }

  /** The label most rows of the place carry, the first by name on a tie; none only where no row has one. */
  ghost predicate MostCommonLabel(rows: seq<Rack>, m: Rack) {
    if OrBlank(m.dc) == "" then forall r <- rows :: SamePlace(r, m) ==> OrBlank(r.dc) == ""
    else
      var dc := m.dc.value;
      && Labelled(rows, m, dc) != {}
      && forall r <- rows :: SamePlace(r, m) && OrBlank(r.dc) != "" && r.dc != m.dc ==>
           || |Labelled(rows, m, dc)| > |Labelled(rows, m, r.dc.value)|
           || (|Labelled(rows, m, dc)| == |Labelled(rows, m, r.dc.value)| && LexLe(dc, r.dc.value))
  }

  lemma LabelAtPlace(rows: seq<Rack>, m: Rack)
    requires AtPlace(rows, m) != [] && m.dc == MergedDc(AtPlace(rows, m))
    ensures MostCommonLabel(rows, m)
  {
    var group := AtPlace(rows, m);
    AtPlaceMembers(rows, m);
    forall d ensures Votes(group, d) == |Labelled(rows, m, d)| { VotesCountLabels(rows, m, d); }
    if d :| WinsVote(group, d) {
      var dc := m.dc.value;
      assert WinsVote(group, dc);
      forall r | r in rows && SamePlace(r, m) && OrBlank(r.dc) != "" ensures Beats(group, dc, r.dc.value) {
        assert r in group;
        VotesPositive(group, r.dc.value);
      }
      assert |Labelled(rows, m, dc)| > 0;
    } else {
      NoWinnerMeansNoLabel(group);
      assert group[0] in group;
    }
  }

  /** What one merged rack is, over the rows at its place. */
  ghost predicate Combines(rows: seq<Rack>, m: Rack) {
    && (exists r <- rows :: SamePlace(r, m))
    && Greatest(rows, m, (r: Rack) => r.capacity, m.capacity) && Greatest(rows, m, (r: Rack) => r.used, m.used)
    && m.free == MaxInt(m.capacity - m.used, 0)
    && (forall t :: t in m.tenants <==> exists r <- rows :: SamePlace(r, m) && t in r.tenants)
    && MostCommonLabel(rows, m)
  }

  lemma TenantsAtPlace(rows: seq<Rack>, m: Rack, t: string)
    ensures t in AllTenants(AtPlace(rows, m)) <==> exists r <- rows :: SamePlace(r, m) && t in r.tenants
  {
    AtPlaceMembers(rows, m);
    AllTenantsMembers(AtPlace(rows, m), t);
  }

  lemma FiguresCombine(rows: seq<Rack>, m: Rack)
    requires AtPlace(rows, m) != []
    requires m.capacity == MaxOf(AtPlace(rows, m), Capacity) && m.used == MaxOf(AtPlace(rows, m), Used)
    requires m.free == MaxInt(m.capacity - m.used, 0)
    requires m.tenants == AllTenants(AtPlace(rows, m)) && m.dc == MergedDc(AtPlace(rows, m))
    ensures Combines(rows, m)
  {
    AtPlaceMembers(rows, m);
    assert AtPlace(rows, m)[0] in AtPlace(rows, m);
    GreatestAtPlace(rows, m, Capacity);
    GreatestAtPlace(rows, m, Used);
    LabelAtPlace(rows, m);
    forall t ensures t in m.tenants <==> exists r <- rows :: SamePlace(r, m) && t in r.tenants {
      TenantsAtPlace(rows, m, t);
    }
  }

  lemma MergedPlace(a: Alphabet, rows: seq<Rack>, i: nat)
    requires i < |Dedupe(a, rows)|
    ensures var m := Dedupe(a, rows)[i]; AtPlace(rows, m) != [] && m == Merge(a, AtPlace(rows, m))
  {
    DedupeAt(a, rows, i);
    GroupIsPlace(rows, Dedupe(a, rows)[i]);
  }

  lemma PlaceKept(a: Alphabet, rows: seq<Rack>, r: Rack)
    requires r in rows
    ensures exists m <- Dedupe(a, rows) :: SamePlace(r, m)
  {
    KeysMembers(rows);
    assert KeyOf(r) in Keys(rows);
    var i :| 0 <= i < |Keys(rows)| && Keys(rows)[i] == KeyOf(r);
    DedupeAt(a, rows, i);
    KeyIsPlace(r, Dedupe(a, rows)[i]);
    assert Dedupe(a, rows)[i] in Dedupe(a, rows);
  }

  /** Merging leaves one rack a place: no two have name and site in common, and every row's place is there. */
  lemma OneRackAPlace(a: Alphabet, rows: seq<Rack>)
    ensures var out := Dedupe(a, rows);
            && (forall i, j :: 0 <= i < j < |out| ==> !SamePlace(out[i], out[j]))
            && (forall r <- rows :: exists m <- out :: SamePlace(r, m))
  {
    var out := Dedupe(a, rows);
    DedupeKeysDistinct(a, rows);
    forall i, j | 0 <= i < j < |out| ensures !SamePlace(out[i], out[j]) { KeyIsPlace(out[i], out[j]); }
    forall r | r in rows ensures exists m <- out :: SamePlace(r, m) { PlaceKept(a, rows, r); }
  }

  /**
   Each merged rack combines exactly the rows at its place: the greatest capacity and use, all their
   tenants, the most common label, and the role and identity that merging resolves from them.
   */
  lemma EachRackCombinesItsPlace(a: Alphabet, rows: seq<Rack>, m: Rack)
    requires m in Dedupe(a, rows)
    ensures AtPlace(rows, m) != [] && m == Merge(a, AtPlace(rows, m)) && Combines(rows, m)
  {
    var i :| 0 <= i < |Dedupe(a, rows)| && Dedupe(a, rows)[i] == m;
    MergedPlace(a, rows, i);
    MergeFigures(a, AtPlace(rows, m));
    FiguresCombine(rows, m);
  }
}
