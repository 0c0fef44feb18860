/**
 Whether a merged rack may be sold, under any role rules an operator configures: when the most
 restrictive duplicate decides, and when the order of the rows does not (shared/colocation/role_rules.py:24-90,
 shared/colocation/occupancy.py:187-256).
 */
module OccupancyRules {
  import opened Prelude
  import opened Text
  import opened Sorting
  import opened Allocation
  import opened AllocationLaws
  import opened Occupancy
  import opened OccupancyLaws
  import Grouping

  // ---------------------------------------------------------------- the most restrictive duplicate decides

  /** The merged rack may be sold exactly when every duplicate may. */
  ghost predicate MostRestrictiveWins(a: Alphabet, rules: RoleRules, group: seq<Rack>)
    requires group != []
  {
    rules.IsSellable(a, Merge(a, group).role) <==> forall r :: r in group ==> rules.IsSellable(a, r.role)
  }

  /** A role as it is looked up: without white space around it. */
  ghost predicate Trimmed(a: Alphabet, key: string) {
    a.Strip(key) == key
  }

  /** A role that is neither blank nor one the merge treats specially. */
  ghost predicate OtherRole(a: Alphabet, key: string) {
    Trimmed(a, key) && key != "" && key !in {"1", "3", "4"}
  }

  /** No role is ruled out. */
  ghost predicate AllOpen(a: Alphabet, rules: RoleRules) {
    forall key :: Trimmed(a, key) ==> KeySellable(rules, key)
  }

  /** Among the other roles, one that may be sold never comes before one that may not. */
  ghost predicate ClosedFirst(a: Alphabet, rules: RoleRules) {
    forall m, n :: OtherRole(a, m) && OtherRole(a, n) && LexLe(m, n) && KeySellable(rules, m) ==> KeySellable(rules, n)
  }

  /**
   The rules fit the precedence of the merge, colocation roles before role 1 before the smallest:
   everything is open; or both colocation roles are closed and the blank one open, role 1 is open
   only if all other roles are, and of these the closed ones come first.
   */
  ghost predicate FitPrecedence(a: Alphabet, rules: RoleRules) {
    || AllOpen(a, rules)
    || (&& !KeySellable(rules, "3") && !KeySellable(rules, "4") && BlankRoleOpen(rules)
        && (KeySellable(rules, "1") ==> forall key :: OtherRole(a, key) ==> KeySellable(rules, key))
        && ClosedFirst(a, rules))
  }

  lemma KeyTrimmed(a: Alphabet, r: Rack)
    ensures Trimmed(a, RoleKey(a, r))
  {
    if r.role.Some? { StripTwice(a, r.role.value); }
  }

  lemma FitRulesRestrict(a: Alphabet, rules: RoleRules, group: seq<Rack>)
    requires DigitsVisible(a) && group != [] && FitPrecedence(a, rules)
    ensures MostRestrictiveWins(a, rules, group)
  {
    var m := Merge(a, group);
    MergedKeyShape(a, group);
    RolesHold(a, group);
    forall r { SellableKey(a, rules, r); }
    forall r { KeyTrimmed(a, r); }
    assert group[0] in group;
    if AllOpen(a, rules) {
      assert forall r: Rack :: KeySellable(rules, RoleKey(a, r));
    } else {
      SellableKey(a, rules, m);
      if Colocated(a, group) == [] && Roles(a, group) != {} {
        var r :| r in group && RoleKey(a, r) == RoleKey(a, m);
        PlainGroupRestricts(a, rules, group, r);
      }
    }
  }

  /** Without a colocation duplicate: `r` is the duplicate whose role the merge takes. */
  lemma PlainGroupRestricts(a: Alphabet, rules: RoleRules, group: seq<Rack>, r: Rack)
    requires BlankRoleOpen(rules) && ClosedFirst(a, rules) && r in group && RoleKey(a, r) in Roles(a, group)
    requires forall x <- group :: RoleKey(a, x) !in {"3", "4"}
    requires KeySellable(rules, "1") ==> forall key :: OtherRole(a, key) ==> KeySellable(rules, key)
    requires if "1" in Roles(a, group) then RoleKey(a, r) == "1" else Smallest(Roles(a, group), RoleKey(a, r))
    ensures KeySellable(rules, RoleKey(a, r)) <==> forall x <- group :: KeySellable(rules, RoleKey(a, x))
  {
    RolesHold(a, group);
    forall x | x in group && KeySellable(rules, RoleKey(a, r)) ensures KeySellable(rules, RoleKey(a, x)) {
      KeyTrimmed(a, r);
      KeyTrimmed(a, x);
      var m, n := RoleKey(a, r), RoleKey(a, x);
      if n != "" && n != "1" {
        assert OtherRole(a, n);
        if "1" !in Roles(a, group) { assert OtherRole(a, m) && LexLe(m, n); }
      }
    }
  }

  // ---------------------------------------------------------------- two duplicates that tell

  /** One unit of space, and a role. */
  function Probe(role: Option<string>): Rack {
    Rack(0, None, None, None, 1, 0, 1, [], None, role, [], None, None)
  }

  lemma PairColocated(a: Alphabet, p: Rack, q: Rack)
    ensures Colocated(a, [p, q])
            == (if IsColocation(a, p.role) then [p] else []) + (if IsColocation(a, q.role) then [q] else [])
  {
    var none: seq<Rack> := [];
    assert [p, q][..1] == [p] && [p][..0] == none;
    assert Colocated(a, none) == [];
  }

  lemma PairRoles(a: Alphabet, m: string, n: string)
    requires Trimmed(a, m) && Trimmed(a, n)
    ensures var group := [Probe(Some(m)), Probe(Some(n))];
            && Roles(a, group) == {m, n} - {""}
            && (m in {"3", "4"} ==> Colocated(a, group) != [] && Colocated(a, group)[0] == group[0])
            && (m !in {"3", "4"} && n !in {"3", "4"} ==> Colocated(a, group) == [])
  {
    var p, q := Probe(Some(m)), Probe(Some(n));
    PairColocated(a, p, q);
    SellableByKey(a, p);
    SellableByKey(a, q);
    assert p in [p, q] && q in [p, q];
  }

  /** Which of two roles the merge takes. */
  lemma PairKey(a: Alphabet, m: string, n: string)
    requires DigitsVisible(a) && Trimmed(a, m) && Trimmed(a, n)
    ensures var key := RoleKey(a, Merge(a, [Probe(Some(m)), Probe(Some(n))]));
            && (m in {"3", "4"} ==> key == m)
            && (m == "1" && n !in {"3", "4"} ==> key == "1")
            && (OtherRole(a, m) && OtherRole(a, n) && LexLe(m, n) ==> key == m)
  {
    var group := [Probe(Some(m)), Probe(Some(n))];
    PairRoles(a, m, n);
    MergedKeyShape(a, group);
    if OtherRole(a, m) && OtherRole(a, n) && LexLe(m, n) {
      LexLeTotal(m, m);
      SmallestUnique({m, n}, m, RoleKey(a, Merge(a, group)));
    }
  }

  /** Of a pair with these roles the merge takes `m`. */
  ghost predicate TakesFirst(a: Alphabet, m: string, n: string) {
    && Trimmed(a, m) && Trimmed(a, n)
    && (m in {"3", "4"} || (m == "1" && n !in {"3", "4"}) || (OtherRole(a, m) && OtherRole(a, n) && LexLe(m, n)))
  }

  lemma PairRestricts(a: Alphabet, rules: RoleRules, m: string, n: string)
    requires DigitsVisible(a) && TakesFirst(a, m, n)
    requires MostRestrictiveWins(a, rules, [Probe(Some(m)), Probe(Some(n))])
    ensures KeySellable(rules, m) ==> KeySellable(rules, n)
  {
    var p, q := Probe(Some(m)), Probe(Some(n));
    var group := [p, q];
    PairKey(a, m, n);
    assert p in group && q in group;
    MergedHasRole(a, group);
    SellableKey(a, rules, Merge(a, group));
    SellableKey(a, rules, p);
    SellableKey(a, rules, q);
    if KeySellable(rules, m) { assert rules.IsSellable(a, Merge(a, group).role); }
  }

  lemma MergedHasRole(a: Alphabet, group: seq<Rack>)
    requires group != []
    ensures RoleKey(a, Merge(a, group)) != "" ==> Merge(a, group).role.Some?
  {
  }

  /** An absent and a blank role, in two orders: the merge takes the first. */
  lemma BlankPair(a: Alphabet, rules: RoleRules)
    requires DigitsVisible(a)
    ensures rules.IsSellable(a, Merge(a, [Probe(None), Probe(Some(""))]).role)
    ensures rules.IsSellable(a, Merge(a, [Probe(Some("")), Probe(None)]).role) <==> BlankRoleOpen(rules)
  {
    var p, q := Probe(None), Probe(Some(""));
    assert a.Strip("") == "";
    PairColocated(a, p, q);
    PairColocated(a, q, p);
    MergedKeyShape(a, [p, q]);
    MergedKeyShape(a, [q, p]);
    assert Roles(a, [p, q]) == {} && Roles(a, [q, p]) == {};
  }

  lemma DigitsTrimmed(a: Alphabet)
    requires DigitsVisible(a)
    ensures Trimmed(a, "1") && Trimmed(a, "3") && Trimmed(a, "4") && Trimmed(a, "")
  {
  }

  ghost predicate AlwaysMostRestrictive(a: Alphabet, rules: RoleRules) {
    forall group: seq<Rack> :: group != [] ==> MostRestrictiveWins(a, rules, group)
  }

  /** The blank role is open, and what the merge takes is open only if the other is. */
  ghost predicate OpenDownwards(a: Alphabet, rules: RoleRules) {
    BlankRoleOpen(rules) && forall m, n :: TakesFirst(a, m, n) && KeySellable(rules, m) ==> KeySellable(rules, n)
  }

  lemma BlankMustBeOpen(a: Alphabet, rules: RoleRules)
    requires DigitsVisible(a) && MostRestrictiveWins(a, rules, [Probe(None), Probe(Some(""))])
    ensures BlankRoleOpen(rules)
  {
    BlankPair(a, rules);
    var blanks := [Probe(None), Probe(Some(""))];
    assert blanks[1] in blanks;
    SellableKey(a, rules, blanks[1]);
    assert a.Strip("") == "";
  }

  lemma RestrictingRulesOpenDownwards(a: Alphabet, rules: RoleRules)
    requires DigitsVisible(a) && AlwaysMostRestrictive(a, rules)
    ensures OpenDownwards(a, rules)
  {
    forall m, n | TakesFirst(a, m, n) && KeySellable(rules, m) ensures KeySellable(rules, n) {
      assert MostRestrictiveWins(a, rules, [Probe(Some(m)), Probe(Some(n))]);
      PairRestricts(a, rules, m, n);
    }
    assert MostRestrictiveWins(a, rules, [Probe(None), Probe(Some(""))]);
    BlankMustBeOpen(a, rules);
  }

  lemma OpenDownwardsFits(a: Alphabet, rules: RoleRules)
    requires DigitsVisible(a) && OpenDownwards(a, rules)
    ensures FitPrecedence(a, rules)
  {
    DigitsTrimmed(a);
    forall n, c | Trimmed(a, n) && c in {"3", "4"} && KeySellable(rules, c) ensures KeySellable(rules, n) {
      assert TakesFirst(a, c, n);
    }
    forall n | OtherRole(a, n) && KeySellable(rules, "1") ensures KeySellable(rules, n) {
      assert TakesFirst(a, "1", n);
    }
    forall m, n | OtherRole(a, m) && OtherRole(a, n) && LexLe(m, n) && KeySellable(rules, m)
      ensures KeySellable(rules, n)
    {
      assert TakesFirst(a, m, n);
    }
  }

  /**
   The most restrictive duplicate decides in every group exactly when the rules fit the precedence
   of the merge.
   */
  lemma MostRestrictiveWinsExactly(a: Alphabet, rules: RoleRules)
    requires DigitsVisible(a)
    ensures AlwaysMostRestrictive(a, rules) <==> FitPrecedence(a, rules)
  {
    if FitPrecedence(a, rules) {
      forall group: seq<Rack> | group != [] ensures MostRestrictiveWins(a, rules, group) {
        FitRulesRestrict(a, rules, group);
      }
    }
    if AlwaysMostRestrictive(a, rules) {
      RestrictingRulesOpenDownwards(a, rules);
      OpenDownwardsFits(a, rules);
    }
  }

  /** The default rules fit, so under them a merged rack may be sold exactly when every duplicate may. */
  lemma SellableExactlyWhenAllAre(a: Alphabet, group: seq<Rack>)
    requires DigitsVisible(a) && group != []
    ensures DEFAULT_RULES.IsSellable(a, Merge(a, group).role)
            <==> forall r <- group :: DEFAULT_RULES.IsSellable(a, r.role)
  {
    FitRulesRestrict(a, DEFAULT_RULES, group);
  }

  // ---------------------------------------------------------------- the order of the rows

  /** Two arrangements of the same rows. */
  ghost predicate Shuffled(x: seq<Rack>, y: seq<Rack>) {
    x != [] && y != [] && multiset(x) == multiset(y)
  }

  /** What a list of rows may be sold for, duplicates merged. */
  ghost function SellableTotal(a: Alphabet, rules: RoleRules, rows: seq<Rack>, f: Rack -> int): int {
    SumSellable(a, rules, Dedupe(a, rows), f)
  }

  /** What one physical rack adds. */
  ghost function AddsOf(a: Alphabet, rules: RoleRules, rows: seq<Rack>, f: Rack -> int): Key -> int {
    k => if Group(rows, k) == [] then 0 else Adds(a, rules, Merge(a, Group(rows, k)), f)
  }

  function Adds(a: Alphabet, rules: RoleRules, m: Rack, f: Rack -> int): int {
    if rules.IsSellable(a, m.role) then f(m) else 0
  }

  lemma SumSellableAppend(a: Alphabet, rules: RoleRules, rows: seq<Rack>, m: Rack, f: Rack -> int)
    ensures SumSellable(a, rules, rows + [m], f) == SumSellable(a, rules, rows, f) + Adds(a, rules, m, f)
  {
    assert (rows + [m])[..|rows|] == rows;
  }

  lemma MergeAllLast(a: Alphabet, rows: seq<Rack>, keys: seq<Key>)
    requires keys != [] && forall k <- keys :: Group(rows, k) != []
    ensures var init, k := keys[..|keys| - 1], keys[|keys| - 1];
            MergeAll(a, rows, keys) == MergeAll(a, rows, init) + [Merge(a, Group(rows, k))]
  {
  }

  lemma {:induction false} SellableByRack(a: Alphabet, rules: RoleRules, rows: seq<Rack>, keys: seq<Key>,
                                          f: Rack -> int)
    requires forall k <- keys :: Group(rows, k) != []
    ensures SumSellable(a, rules, MergeAll(a, rows, keys), f) == Total(AddsOf(a, rules, rows, f), keys)
  {
    if keys != [] {
      var init, k := keys[..|keys| - 1], keys[|keys| - 1];
      SellableByRack(a, rules, rows, init, f);
      MergeAllLast(a, rows, keys);
      SumSellableAppend(a, rules, MergeAll(a, rows, init), Merge(a, Group(rows, k)), f);
    }
  }

  /** `f` reads what `SameFigures` compares. */
  ghost predicate Priced(f: Rack -> int) {
    forall x: Rack, y: Rack :: x.capacity == y.capacity && x.used == y.used && x.free == y.free ==> f(x) == f(y)
  }

  lemma SameAdds(a: Alphabet, rules: RoleRules, x: seq<Rack>, y: seq<Rack>, f: Rack -> int, k: Key)
    requires DigitsVisible(a) && OrderFree(rules) && Priced(f) && multiset(x) == multiset(y)
    ensures AddsOf(a, rules, x, f)(k) == AddsOf(a, rules, y, f)(k)
  {
    GroupIgnoresOrder(x, y, k);
    var g, h := Group(x, k), Group(y, k);
    SameMembers(g, h);
    if g != [] {
      SellableIgnoresOrder(a, rules, g, h);
      MergeFigures(a, g);
      MergeFigures(a, h);
      MaxIgnoresOrder(g, h, Capacity);
      MaxIgnoresOrder(g, h, Used);
    }
  }

  lemma TotalIgnoresOrder(a: Alphabet, rules: RoleRules, x: seq<Rack>, y: seq<Rack>, f: Rack -> int)
    requires DigitsVisible(a) && OrderFree(rules) && Priced(f) && multiset(x) == multiset(y)
    ensures SellableTotal(a, rules, x, f) == SellableTotal(a, rules, y, f)
  {
    KeysHaveGroups(x);
    KeysHaveGroups(y);
    SellableByRack(a, rules, x, Keys(x), f);
    SellableByRack(a, rules, y, Keys(y), f);
    forall k ensures AddsOf(a, rules, x, f)(k) == AddsOf(a, rules, y, f)(k) { SameAdds(a, rules, x, y, f, k); }
    forall k ensures k in Keys(x) <==> k in Keys(y) {
      GroupIgnoresOrder(x, y, k);
      SameMembers(Group(x, k), Group(y, k));
    }
    DistinctSameMembers(Keys(x), Keys(y));
    TotalReordered(AddsOf(a, rules, x, f), Keys(x), Keys(y));
    TotalSame(AddsOf(a, rules, x, f), AddsOf(a, rules, y, f), Keys(y));
  }

  lemma PairIsOneRack(a: Alphabet, p: Option<string>, q: Option<string>)
    ensures Dedupe(a, [Probe(p), Probe(q)]) == [Merge(a, [Probe(p), Probe(q)])]
  {
    var x, y := Probe(p), Probe(q);
    var rows, none: seq<Rack> := [x, y], [];
    var k := KeyOf(x);
    assert rows[..1] == [x] && [x][..0] == none;
    assert Grouping.Keys(KeyOf, none) == [] && Grouping.Keys(KeyOf, [x]) == [k] && Keys(rows) == [k];
    assert Grouping.Group(KeyOf, none, k) == [] && Grouping.Group(KeyOf, [x], k) == [x] && Group(rows, k) == rows;
    KeysHaveGroups(rows);
  }

  lemma OneRackTotal(a: Alphabet, rules: RoleRules, m: Rack, f: Rack -> int)
    ensures SumSellable(a, rules, [m], f) == Adds(a, rules, m, f)
  {
    var none: seq<Rack> := [];
    SumSellableAppend(a, rules, none, m, f);
    assert none + [m] == [m];
  }

  lemma PairCapacity(p: Option<string>, q: Option<string>)
    ensures MaxOf([Probe(p), Probe(q)], Capacity) == 1
  {
    var none: seq<Rack> := [];
    assert [Probe(p), Probe(q)][..1] == [Probe(p)] && [Probe(p)][..0] == none;
    assert MaxOf(none, Capacity) == 0;
  }

  /** Two probes are one physical rack, which counts one unit when it may be sold. */
  lemma PairTotal(a: Alphabet, rules: RoleRules, p: Option<string>, q: Option<string>)
    ensures SellableTotal(a, rules, [Probe(p), Probe(q)], Capacity)
            == if rules.IsSellable(a, Merge(a, [Probe(p), Probe(q)]).role) then 1 else 0
  {
    var rows := [Probe(p), Probe(q)];
    PairIsOneRack(a, p, q);
    OneRackTotal(a, rules, Merge(a, rows), Capacity);
    MergeFigures(a, rows);
    PairCapacity(p, q);
  }

  /** Roles 3 and 4 in two orders: the merge takes the first. */
  lemma ColocationPairFlips(a: Alphabet, rules: RoleRules)
    requires DigitsVisible(a)
    ensures var x, y := [Probe(Some("3")), Probe(Some("4"))], [Probe(Some("4")), Probe(Some("3"))];
            && Shuffled(x, y)
            && SellableTotal(a, rules, x, Capacity) == (if KeySellable(rules, "3") then 1 else 0)
            && SellableTotal(a, rules, y, Capacity) == (if KeySellable(rules, "4") then 1 else 0)
  {
    var x, y := [Probe(Some("3")), Probe(Some("4"))], [Probe(Some("4")), Probe(Some("3"))];
    DigitsTrimmed(a);
    PairKey(a, "3", "4");
    PairKey(a, "4", "3");
    PairTotal(a, rules, Some("3"), Some("4"));
    PairTotal(a, rules, Some("4"), Some("3"));
    MergedHasRole(a, x);
    MergedHasRole(a, y);
    SellableKey(a, rules, Merge(a, x));
    SellableKey(a, rules, Merge(a, y));
  }

  lemma BlankPairFlips(a: Alphabet, rules: RoleRules)
    requires DigitsVisible(a) && !BlankRoleOpen(rules)
    ensures var x, y := [Probe(None), Probe(Some(""))], [Probe(Some("")), Probe(None)];
            && Shuffled(x, y)
            && SellableTotal(a, rules, x, Capacity) == 1 && SellableTotal(a, rules, y, Capacity) == 0
  {
    BlankPair(a, rules);
    PairTotal(a, rules, None, Some(""));
    PairTotal(a, rules, Some(""), None);
  }

  /** The three sellable totals of the rows agree, whichever way round they come. */
  ghost predicate SameTotals(a: Alphabet, rules: RoleRules, x: seq<Rack>, y: seq<Rack>) {
    && SellableTotal(a, rules, x, Capacity) == SellableTotal(a, rules, y, Capacity)
    && SellableTotal(a, rules, x, Used) == SellableTotal(a, rules, y, Used)
    && SellableTotal(a, rules, x, Free) == SellableTotal(a, rules, y, Free)
  }

  lemma SameTotalsWhenOrderFree(a: Alphabet, rules: RoleRules, x: seq<Rack>, y: seq<Rack>)
    requires DigitsVisible(a) && OrderFree(rules) && Shuffled(x, y)
    ensures SameTotals(a, rules, x, y)
  {
    TotalIgnoresOrder(a, rules, x, y, Capacity);
    TotalIgnoresOrder(a, rules, x, y, Used);
    TotalIgnoresOrder(a, rules, x, y, Free);
  }

  lemma OrderShows(a: Alphabet, rules: RoleRules) returns (x: seq<Rack>, y: seq<Rack>)
    requires DigitsVisible(a) && !OrderFree(rules)
    ensures Shuffled(x, y) && !SameTotals(a, rules, x, y)
  {
    if BlankRoleOpen(rules) {
      ColocationPairFlips(a, rules);
      x, y := [Probe(Some("3")), Probe(Some("4"))], [Probe(Some("4")), Probe(Some("3"))];
    } else {
      BlankPairFlips(a, rules);
      x, y := [Probe(None), Probe(Some(""))], [Probe(Some("")), Probe(None)];
    }
  }

  /**
   The sellable totals of every list of rows are free of their order exactly when the rules give
   roles 3 and 4 the same flag and leave the blank role open.
   */
  lemma SellableTotalsIgnoreOrderExactly(a: Alphabet, rules: RoleRules)
    requires DigitsVisible(a)
    ensures (forall x, y :: Shuffled(x, y) ==> SameTotals(a, rules, x, y)) <==> OrderFree(rules)
  {
    if OrderFree(rules) {
      forall x, y | Shuffled(x, y) ensures SameTotals(a, rules, x, y) { SameTotalsWhenOrderFree(a, rules, x, y); }
    } else {
      var x, y := OrderShows(a, rules);
    }
  }
}
