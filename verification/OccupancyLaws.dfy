/**
 What merging duplicate rack rows promises: the merged figures do not depend on row order, merging
 twice changes nothing, and a customer is named only when every duplicate names it.
 */
module OccupancyLaws {
  import opened Prelude
  import opened Text
  import opened Sorting
  import opened Allocation
  import opened AllocationLaws
  import opened Occupancy

  // ---------------------------------------------------------------- role and customer of a merged rack

  /** Trimming "1" to "4" leaves them as they are, for digits are not white space. */
  ghost predicate DigitsVisible(a: Alphabet) {
    forall c: char :: '0' <= c <= '9' ==> !a.space(c)
  }

  /** Without a colocation duplicate the merged role is one of the duplicates', up to trimming. */
  lemma NonColocationRoleShape(a: Alphabet, group: seq<Rack>)
    requires DigitsVisible(a) && group != [] && Colocated(a, group) == []
    ensures var role, roles := NonColocationRole(a, group), Roles(a, group);
            if roles == {} then role == group[0].role
            else role.Some? && role.value in roles && a.Strip(role.value) == role.value
                 && ("1" in roles ==> role.value == "1")
  {
    var roles := Roles(a, group);
    if roles != {} {
      SmallestExists(roles);
      forall r | r in roles ensures a.Strip(r) == r {
        var x :| x in group && RoleKey(a, x) != "" && RoleKey(a, x) == r;
        StripTwice(a, x.role.value);
      }
    }
  }

  lemma {:induction false} SmallestExists(roles: set<string>)
    requires roles != {}
    ensures exists r :: Smallest(roles, r)
  {
    var x :| x in roles;
    LexLeTotal(x, x);
    if roles == {x} {
      assert Smallest(roles, x);
    } else {
      assert roles - {x} != {};
      SmallestExists(roles - {x});
      var y :| Smallest(roles - {x}, y);
      LexLeTotal(x, y);
      if LexLe(y, x) {
        assert Smallest(roles, y);
      } else {
        forall z | z in roles ensures LexLe(x, z) { if z != x { LexLeTransitive(x, y, z); } }
        assert Smallest(roles, x);
      }
    }
  }

  lemma MergedRole(a: Alphabet, group: seq<Rack>)
    requires group != []
    ensures Colocated(a, group) == [] ==> Merge(a, group).role == NonColocationRole(a, group)
    ensures Colocated(a, group) != [] ==> Merge(a, group).role == Colocated(a, group)[0].role
    ensures Colocated(a, group) != [] ==> IsColocation(a, Merge(a, group).role)
    ensures Colocated(a, group) != [] ==> Colocated(a, group)[0] in group
  {
  }

  lemma SellableByKey(a: Alphabet, r: Rack)
    ensures DEFAULT_RULES.IsSellable(a, r.role) <==> RoleKey(a, r) !in {"1", "3", "4"}
    ensures IsColocation(a, r.role) <==> RoleKey(a, r) in {"3", "4"}
  {
  }

  /** The role key of the merged rack, by what its duplicates hold. */
  lemma MergedKeyShape(a: Alphabet, group: seq<Rack>)
    requires DigitsVisible(a) && group != []
    ensures var key, colo, roles := RoleKey(a, Merge(a, group)), Colocated(a, group), Roles(a, group);
            if colo != [] then colo[0] in group && key == RoleKey(a, colo[0]) && key in {"3", "4"}
            else if roles == {} then Merge(a, group).role == group[0].role
            else if "1" in roles then key == "1"
            else Smallest(roles, key)
    ensures Colocated(a, group) != [] <==> exists r :: r in group && RoleKey(a, r) in {"3", "4"}
  {
    MergedRole(a, group);
    ColocatedMembers(a, group);
    forall r { SellableByKey(a, r); }
    if Colocated(a, group) != [] {
      assert Colocated(a, group)[0] in Colocated(a, group);
    } else {
      assert forall r <- group :: r !in Colocated(a, group);
      NonColocationRoleShape(a, group);
      if Roles(a, group) != {} { SmallestExists(Roles(a, group)); }
    }
  }

  /** The rules give roles 3 and 4 the same flag and do not mark the blank role unsellable. */
  predicate OrderFree(rules: RoleRules) {
    (KeySellable(rules, "3") <==> KeySellable(rules, "4")) && BlankRoleOpen(rules)
  }

  lemma SellableKey(a: Alphabet, rules: RoleRules, r: Rack)
    ensures rules.IsSellable(a, r.role) <==> r.role == None || KeySellable(rules, RoleKey(a, r))
    ensures BlankRoleOpen(rules) ==> (rules.IsSellable(a, r.role) <==> KeySellable(rules, RoleKey(a, r)))
  {
  }

  /** The rack has colocation duplicates, and every one of them names `customer`. */
  ghost predicate AllResolveTo(a: Alphabet, group: seq<Rack>, customer: string) {
    && (exists r :: r in group && IsColocation(a, r.role))
    && forall r :: r in group && IsColocation(a, r.role) ==> CustomerLabel(a, r) == customer
  }

  /**
   A merged rack goes to a named customer exactly when it has colocation duplicates and every one of
   them resolves to that customer; any other colocation rack goes to the unattributed bucket.
   */
  lemma CustomerNamedOnlyByAll(a: Alphabet, group: seq<Rack>, customer: string)
    requires a.UpperHasNoLower() && group != []
    ensures customer != UNATTRIBUTED ==> (HeldBy(a, Merge(a, group), customer) <==> AllResolveTo(a, group, customer))
    ensures HeldBy(a, Merge(a, group), UNATTRIBUTED)
            <==> (exists r :: r in group && IsColocation(a, r.role))
                 && forall c :: c != UNATTRIBUTED ==> !AllResolveTo(a, group, c)
  {
    ColocatedMembers(a, group);
    MergedRole(a, group);
    var colo, m := Colocated(a, group), Merge(a, group);
    if colo == [] {
      assert forall r <- group :: r !in colo;
      NonColocationStaysSo(a, group);
    } else {
      var first := colo[0];
      assert first in colo;
      if Agree(a, colo) {
        assert CustomerLabel(a, m) == CustomerLabel(a, first);
        assert AllResolveTo(a, group, CustomerLabel(a, first)) by {
          assert forall r <- group :: IsColocation(a, r.role) ==> r in colo;
        }
      } else {
        assert a.Strip("") == "";
        assert CustomerLabel(a, m) == UNATTRIBUTED;
        var x, y :| x in colo && y in colo && CustomerLabel(a, x) != CustomerLabel(a, y);
        assert x in group && y in group;
      }
    }
  }

  lemma NonColocationStaysSo(a: Alphabet, group: seq<Rack>)
    requires group != [] && Colocated(a, group) == []
    ensures !IsColocation(a, Merge(a, group).role)
  {
    ColocatedMembers(a, group);
    var roles := Roles(a, group);
    forall r | r in group ensures RoleKey(a, r) !in {"3", "4"} {
      SellableByKey(a, r);
      assert r !in Colocated(a, group);
    }
    assert "3" !in roles && "4" !in roles;
    if "1" in roles {
      var x :| x in group && RoleKey(a, x) != "" && RoleKey(a, x) == "1";
      StripTwice(a, x.role.value);
    } else if r :| Smallest(roles, r) {
      var s := NonColocationRole(a, group).value;
      assert Smallest(roles, s);
      var x :| x in group && RoleKey(a, x) != "" && RoleKey(a, x) == s;
      StripTwice(a, x.role.value);
    } else {
      assert group[0] in group;
    }
  }

  // ---------------------------------------------------------------- row order

  lemma {:induction false} VotesConcat(x: seq<Rack>, y: seq<Rack>, dc: string)
    ensures Votes(x + y, dc) == Votes(x, dc) + Votes(y, dc)
  {
    if y == [] {
      assert x + y == x;
    } else {
      VotesConcat(x, y[..|y| - 1], dc);
      assert (x + y)[..|x + y| - 1] == x + y[..|y| - 1];
    }
  }

  lemma VotesWithout(y: seq<Rack>, i: nat, dc: string)
    requires i < |y|
    ensures Votes(y, dc) == Votes(y[..i] + y[i + 1..], dc) + Votes([y[i]], dc)
  {
    assert y == y[..i] + ([y[i]] + y[i + 1..]);
    VotesConcat(y[..i], [y[i]] + y[i + 1..], dc);
    VotesConcat([y[i]], y[i + 1..], dc);
    VotesConcat(y[..i], y[i + 1..], dc);
  }

  lemma {:induction false} VotesIgnoreOrder(x: seq<Rack>, y: seq<Rack>, dc: string)
    requires multiset(x) == multiset(y)
    ensures Votes(x, dc) == Votes(y, dc)
  {
    SameMembers(x, y);
    if x != [] {
      var n := |x| - 1;
      assert x[n] in y;
      var i :| 0 <= i < |y| && y[i] == x[n];
      MultisetWithout(x, n);
      MultisetWithout(y, i);
      assert x[..n] + x[n + 1..] == x[..n];
      VotesIgnoreOrder(x[..n], y[..i] + y[i + 1..], dc);
      VotesWithout(x, n, dc);
      VotesWithout(y, i, dc);
    }
  }

  lemma {:induction false} GroupCounts(rows: seq<Rack>, key: Key, r: Rack)
    ensures multiset(Group(rows, key))[r] == if KeyOf(r) == key then multiset(rows)[r] else 0
  {
    if rows != [] {
      GroupCounts(rows[..|rows| - 1], key, r);
      assert rows == rows[..|rows| - 1] + [rows[|rows| - 1]];
    }
  }

  lemma GroupIgnoresOrder(x: seq<Rack>, y: seq<Rack>, key: Key)
    requires multiset(x) == multiset(y)
    ensures multiset(Group(x, key)) == multiset(Group(y, key))
  {
    forall r ensures multiset(Group(x, key))[r] == multiset(Group(y, key))[r] {
      GroupCounts(x, key, r);
      GroupCounts(y, key, r);
    }
  }

  lemma SameMembers<T>(x: seq<T>, y: seq<T>)
    requires multiset(x) == multiset(y)
    ensures |x| == |y| && forall e :: e in x <==> e in y
  {
    assert |multiset(x)| == |multiset(y)|;
    forall e ensures e in x <==> e in y {
      assert e in x <==> e in multiset(x);
      assert e in y <==> e in multiset(y);
    }
  }

  lemma MaxIgnoresOrder(x: seq<Rack>, y: seq<Rack>, f: Rack -> int)
    requires forall r :: r in x <==> r in y
    ensures MaxOf(x, f) == MaxOf(y, f)
  {
    MaxOfBounds(x, f);
    MaxOfBounds(y, f);
  }

  /**
   Two merged racks that agree on all that is priced, shown by data centre or attributed; on whether
   they may be sold, where the rules are free of order.
   */
  ghost predicate SameFigures(a: Alphabet, rules: RoleRules, x: Rack, y: Rack) {
    && x.capacity == y.capacity && x.used == y.used && x.free == y.free
    && OrBlank(x.dc) == OrBlank(y.dc)
    && (OrderFree(rules) ==> (rules.IsSellable(a, x.role) <==> rules.IsSellable(a, y.role)))
    && (forall customer :: HeldBy(a, x, customer) <==> HeldBy(a, y, customer))
  }

  lemma DcIgnoresOrder(x: seq<Rack>, y: seq<Rack>)
    requires x != [] && y != [] && multiset(x) == multiset(y)
    ensures OrBlank(MergedDc(x)) == OrBlank(MergedDc(y))
  {
    forall d ensures Votes(x, d) == Votes(y, d) { VotesIgnoreOrder(x, y, d); }
    assert forall d :: WinsVote(x, d) <==> WinsVote(y, d) by {
      forall d, e ensures Beats(x, d, e) <==> Beats(y, d, e) {}
    }
    if d :| WinsVote(x, d) {
      forall e | WinsVote(x, e) ensures e == d { BeatsTotal(x, d, e); }
      assert WinsVote(y, d);
    } else {
      NoWinnerMeansNoLabel(x);
      NoWinnerMeansNoLabel(y);
      assert x[0] in x && y[0] in y;
    }
  }

  lemma NoWinnerMeansNoLabel(x: seq<Rack>)
    requires forall d :: !WinsVote(x, d)
    ensures forall r <- x :: OrBlank(r.dc) == ""
  {
    if first :| first in x && OrBlank(first.dc) != "" {
      var voted := set r | r in x && OrBlank(r.dc) != "" :: OrBlank(r.dc);
      assert OrBlank(first.dc) in voted;
      var best := BestOf(x, voted);
      VotesPositive(x, best);
      forall other | other != "" && Votes(x, other) > 0 ensures Beats(x, best, other) {
        VotesPositive(x, other);
        var r :| r in x && r.dc == Some(other);
        assert other in voted;
      }
      assert WinsVote(x, best);
    }
  }

  lemma {:induction false} BestOf(x: seq<Rack>, names: set<string>) returns (best: string)
    requires names != {}
    ensures best in names && forall n :: n in names ==> Beats(x, best, n)
  {
    best :| best in names;
    BeatsTotal(x, best, best);
    if names != {best} {
      assert names - {best} != {};
      var other := BestOf(x, names - {best});
      BeatsTotal(x, best, other);
      if Beats(x, other, best) {
        best := other;
      } else {
        forall n | n in names ensures Beats(x, best, n) { if n != best { BeatsTransitive(x, best, other, n); } }
      }
    }
  }

  /** The figures of a merged rack, whatever its identity. */
  lemma MergeFigures(a: Alphabet, group: seq<Rack>)
    requires group != []
    ensures var m := Merge(a, group);
            && m.capacity == MaxOf(group, Capacity) && m.used == MaxOf(group, Used)
            && m.free == MaxInt(m.capacity - m.used, 0)
            && m.tenants == AllTenants(group) && m.dc == MergedDc(group) && KeyOf(m) == KeyOf(group[0])
  {
  }

  lemma HolderIgnoresOrder(a: Alphabet, x: seq<Rack>, y: seq<Rack>, customer: string)
    requires a.UpperHasNoLower() && x != [] && y != [] && forall r :: r in x <==> r in y
    ensures HeldBy(a, Merge(a, x), customer) <==> HeldBy(a, Merge(a, y), customer)
  {
    CustomerNamedOnlyByAll(a, x, customer);
    CustomerNamedOnlyByAll(a, y, customer);
    forall c ensures AllResolveTo(a, x, c) <==> AllResolveTo(a, y, c) {
    }
    if r :| r in x && IsColocation(a, r.role) { assert r in y; }
    if r :| r in y && IsColocation(a, r.role) { assert r in x; }
  }

  /** The merged figures do not depend on the order the duplicates come in. */
  lemma MergeIgnoresOrder(a: Alphabet, rules: RoleRules, x: seq<Rack>, y: seq<Rack>)
    requires DigitsVisible(a) && a.UpperHasNoLower()
    requires x != [] && y != [] && multiset(x) == multiset(y)
    ensures SameFigures(a, rules, Merge(a, x), Merge(a, y))
  {
    SameMembers(x, y);
    MergeFigures(a, x);
    MergeFigures(a, y);
    MaxIgnoresOrder(x, y, Capacity);
    MaxIgnoresOrder(x, y, Used);
    DcIgnoresOrder(x, y);
    if OrderFree(rules) { SellableIgnoresOrder(a, rules, x, y); }
    forall customer ensures HeldBy(a, Merge(a, x), customer) <==> HeldBy(a, Merge(a, y), customer) {
      HolderIgnoresOrder(a, x, y, customer);
    }
  }

  lemma SellableIgnoresOrder(a: Alphabet, rules: RoleRules, x: seq<Rack>, y: seq<Rack>)
    requires DigitsVisible(a) && OrderFree(rules) && x != [] && y != [] && forall r :: r in x <==> r in y
    ensures rules.IsSellable(a, Merge(a, x).role) <==> rules.IsSellable(a, Merge(a, y).role)
  {
    MergedKeyShape(a, x);
    MergedKeyShape(a, y);
    SellableKey(a, rules, Merge(a, x));
    SellableKey(a, rules, Merge(a, y));
    assert Roles(a, x) == Roles(a, y);
    if Colocated(a, x) == [] && Colocated(a, y) == [] {
      if Roles(a, x) == {} {
        RolesHold(a, x);
        RolesHold(a, y);
        assert x[0] in x && y[0] in y;
        assert RoleKey(a, Merge(a, x)) == RoleKey(a, x[0]) == "";
        assert RoleKey(a, Merge(a, y)) == RoleKey(a, y[0]) == "";
      } else if "1" !in Roles(a, x) {
        SmallestUnique(Roles(a, x), RoleKey(a, Merge(a, x)), RoleKey(a, Merge(a, y)));
      }
    }
  }

  lemma RolesHold(a: Alphabet, group: seq<Rack>)
    ensures forall r <- group :: RoleKey(a, r) == "" || RoleKey(a, r) in Roles(a, group)
  {
  }

  /** Shuffling the rows of the query gives the same racks with the same figures. */
  lemma DedupeIgnoresOrder(a: Alphabet, rules: RoleRules, x: seq<Rack>, y: seq<Rack>, key: Key)
    requires DigitsVisible(a) && a.UpperHasNoLower() && multiset(x) == multiset(y)
    ensures key in Keys(x) <==> key in Keys(y)
    ensures key in Keys(x) ==> Group(x, key) != [] && Group(y, key) != []
                               && SameFigures(a, rules, Merge(a, Group(x, key)), Merge(a, Group(y, key)))
  {
    SameMembers(x, y);
    KeysMembers(x);
    KeysMembers(y);
    if key in Keys(x) {
      KeysHaveGroups(x);
      KeysHaveGroups(y);
      GroupIgnoresOrder(x, y, key);
      MergeIgnoresOrder(a, rules, Group(x, key), Group(y, key));
    }
  }

  // ---------------------------------------------------------------- merging twice

  ghost predicate MergedAt(a: Alphabet, rows: seq<Rack>, key: Key, m: Rack) {
    Group(rows, key) != [] && m == Merge(a, Group(rows, key)) && KeyOf(m) == key
  }

  lemma GroupMerges(a: Alphabet, rows: seq<Rack>, key: Key)
    requires Group(rows, key) != []
    ensures MergedAt(a, rows, key, Merge(a, Group(rows, key)))
  {
    GroupMembers(rows, key);
    assert Group(rows, key)[0] in Group(rows, key);
    MergeFigures(a, Group(rows, key));
  }

  /** The merged racks, one a key, in the order of the keys. */
  lemma DedupeAt(a: Alphabet, rows: seq<Rack>, i: nat)
    ensures |Dedupe(a, rows)| == |Keys(rows)|
    ensures i < |Keys(rows)| ==> MergedAt(a, rows, Keys(rows)[i], Dedupe(a, rows)[i])
  {
    KeysHaveGroups(rows);
    if i < |Keys(rows)| { GroupMerges(a, rows, Keys(rows)[i]); }
  }

  lemma {:induction false} DistinctRows(rows: seq<Rack>, i: nat)
    requires i < |rows| && forall p, q :: 0 <= p < q < |rows| ==> KeyOf(rows[p]) != KeyOf(rows[q])
    ensures Group(rows, KeyOf(rows[i])) == [rows[i]]
    ensures |Keys(rows)| == |rows| && forall p :: 0 <= p < |rows| ==> Keys(rows)[p] == KeyOf(rows[p])
  {
    var init, last := rows[..|rows| - 1], rows[|rows| - 1];
    if init == [] {
      assert Keys(init) == [] && Group(init, KeyOf(last)) == [];
    } else {
      DistinctRows(init, if i < |init| then i else 0);
      KeysMembers(init);
      KeysHaveGroups(init);
      assert KeyOf(last) !in Keys(init);
    }
  }

  lemma {:induction false} AddNewNothing(tenants: seq<string>, more: seq<string>)
    requires forall i, j :: 0 <= i < j < |more| ==> more[i] != more[j]
    requires tenants == []
    ensures AddNew(tenants, more) == more
  {
    if more != [] {
      AddNewNothing(tenants, more[..|more| - 1]);
      assert more[|more| - 1] !in more[..|more| - 1];
    }
  }

  lemma {:induction false} AddNewDistinct(acc: seq<string>, more: seq<string>)
    requires forall i, j :: 0 <= i < j < |acc| ==> acc[i] != acc[j]
    ensures forall i, j :: 0 <= i < j < |AddNew(acc, more)| ==> AddNew(acc, more)[i] != AddNew(acc, more)[j]
  {
    if more != [] { AddNewDistinct(acc, more[..|more| - 1]); }
  }

  lemma {:induction false} TenantsDistinct(rows: seq<Rack>)
    ensures forall i, j :: 0 <= i < j < |AllTenants(rows)| ==> AllTenants(rows)[i] != AllTenants(rows)[j]
  {
    if rows != [] {
      TenantsDistinct(rows[..|rows| - 1]);
      AddNewDistinct(AllTenants(rows[..|rows| - 1]), rows[|rows| - 1].tenants);
    }
  }

  lemma MergeSingleFigures(a: Alphabet, m: Rack)
    requires m.capacity >= 0 && m.used >= 0 && m.free == MaxInt(m.capacity - m.used, 0)
    requires forall i, j :: 0 <= i < j < |m.tenants| ==> m.tenants[i] != m.tenants[j]
    ensures MaxOf([m], Capacity) == m.capacity && MaxOf([m], Used) == m.used
    ensures AllTenants([m]) == m.tenants && MergedDc([m]) == m.dc
  {
    var none: seq<Rack> := [];
    assert [m][..0] == none;
    assert AllTenants(none) == [];
    AddNewNothing([], m.tenants);
    assert forall d :: Votes([m], d) == if m.dc == Some(d) then 1 else 0 by {
      forall d ensures Votes([m], d) == if m.dc == Some(d) then 1 else 0 { assert Votes(none, d) == 0; }
    }
  }

  lemma MergeSingle(a: Alphabet, m: Rack)
    requires m.capacity >= 0 && m.used >= 0 && m.free == MaxInt(m.capacity - m.used, 0)
    requires forall i, j :: 0 <= i < j < |m.tenants| ==> m.tenants[i] != m.tenants[j]
    ensures Merge(a, [m]) == Identified(a, m, [m])
  {
    MergeSingleFigures(a, m);
    assert m == m.(capacity := m.capacity, used := m.used, free := MaxInt(m.capacity - m.used, 0),
        tenants := m.tenants, dc := m.dc);
  }

  /** A merged role is a colocation role, blank, or already trimmed. */
  lemma MergedRoleTrimmed(a: Alphabet, group: seq<Rack>)
    requires group != []
    ensures var role := Merge(a, group).role;
            IsColocation(a, role) || role == None || a.Strip(role.value) == "" || a.Strip(role.value) == role.value
  {
    MergedRole(a, group);
    if Colocated(a, group) == [] {
      var roles, role := Roles(a, group), NonColocationRole(a, group);
      assert group[0] in group;
      if roles == {} {
        assert forall r <- group :: RoleKey(a, r) == "" || RoleKey(a, r) in roles;
      } else {
        SmallestExists(roles);
        assert role.Some? && role.value in roles;
        var x :| x in group && RoleKey(a, x) != "" && RoleKey(a, x) == role.value;
        StripTwice(a, x.role.value);
      }
    }
  }

  lemma MergeSingleIdentity(a: Alphabet, m: Rack)
    requires IsColocation(a, m.role) || m.role == None || a.Strip(m.role.value) == ""
            || a.Strip(m.role.value) == m.role.value
    ensures Identified(a, m, [m]) == m
  {
    var none: seq<Rack> := [];
    assert [m][..0] == none;
    if IsColocation(a, m.role) {
      assert Colocated(a, [m]) == [m];
      assert Agree(a, [m]);
    } else {
      assert Colocated(a, [m]) == [];
      var roles := Roles(a, [m]);
      if m.role.Some? && a.Strip(m.role.value) != "" {
        assert m in [m];
        assert roles == {m.role.value};
        LexLeTotal(m.role.value, m.role.value);
        assert Smallest(roles, m.role.value);
      } else {
        assert roles == {};
      }
    }
  }

  lemma MergeTwice(a: Alphabet, group: seq<Rack>)
    requires group != []
    ensures Merge(a, [Merge(a, group)]) == Merge(a, group)
  {
    MaxOfBounds(group, Capacity);
    MaxOfBounds(group, Used);
    TenantsDistinct(group);
    MergeFigures(a, group);
    MergedRoleTrimmed(a, group);
    MergeSingle(a, Merge(a, group));
    MergeSingleIdentity(a, Merge(a, group));
  }

  lemma DedupeKeysDistinct(a: Alphabet, rows: seq<Rack>)
    ensures var once := Dedupe(a, rows);
            forall p, q :: 0 <= p < q < |once| ==> KeyOf(once[p]) != KeyOf(once[q])
  {
    KeysMembers(rows);
    DedupeAt(a, rows, 0);
    forall i | 0 <= i < |Keys(rows)| ensures KeyOf(Dedupe(a, rows)[i]) == Keys(rows)[i] { DedupeAt(a, rows, i); }
  }

  lemma DedupeTwiceAt(a: Alphabet, rows: seq<Rack>, i: nat)
    requires i < |Dedupe(a, rows)|
    ensures |Dedupe(a, Dedupe(a, rows))| == |Dedupe(a, rows)|
    ensures Dedupe(a, Dedupe(a, rows))[i] == Dedupe(a, rows)[i]
  {
    var once := Dedupe(a, rows);
    DedupeAt(a, rows, i);
    DedupeKeysDistinct(a, rows);
    DistinctRows(once, i);
    DedupeAt(a, once, i);
    MergeTwice(a, Group(rows, Keys(rows)[i]));
  }

  /** Merging already merged racks changes nothing, in content or in order. */
  lemma DedupeTwice(a: Alphabet, rows: seq<Rack>)
    ensures Dedupe(a, Dedupe(a, rows)) == Dedupe(a, rows)
  {
    var once := Dedupe(a, rows);
    if once == [] {
      assert Dedupe(a, once) == [];
    } else {
      DedupeTwiceAt(a, rows, 0);
      forall i | 0 <= i < |once| ensures Dedupe(a, once)[i] == once[i] { DedupeTwiceAt(a, rows, i); }
    }
  }

  // ---------------------------------------------------------------- from duplicates to a customer's total

  /**
   Whose a physical rack is: a customer's that all its colocation duplicates name, or nobody's when
   it has such duplicates and they name no one customer.
   */
  ghost predicate BelongsTo(a: Alphabet, group: seq<Rack>, customer: string) {
    if customer != UNATTRIBUTED then AllResolveTo(a, group, customer)
    else
      && (exists r :: r in group && IsColocation(a, r.role))
      && forall c :: c != UNATTRIBUTED ==> !AllResolveTo(a, group, c)
  }

  /** The physical racks that belong to `customer`, at full capacity. */
  ghost function ResolvedCapacity(a: Alphabet, rows: seq<Rack>, keys: seq<Key>, customer: string): int {
    if keys == [] then 0
    else
      var g := Group(rows, keys[|keys| - 1]);
      ResolvedCapacity(a, rows, keys[..|keys| - 1], customer)
      + if BelongsTo(a, g, customer) then MaxOf(g, Capacity) else 0
  }

  /** The last key adds the merge of its group. */
  lemma MergeAllLast(a: Alphabet, rows: seq<Rack>, keys: seq<Key>)
    requires keys != [] && forall k <- keys :: Group(rows, k) != []
    ensures forall k <- keys[..|keys| - 1] :: Group(rows, k) != []
    ensures MergeAll(a, rows, keys)
            == MergeAll(a, rows, keys[..|keys| - 1]) + [Merge(a, Group(rows, keys[|keys| - 1]))]
  {
  }

  lemma HeldAppend(a: Alphabet, racks: seq<Rack>, m: Rack, customer: string)
    ensures SumHeld(a, racks + [m], customer, Capacity)
            == SumHeld(a, racks, customer, Capacity) + if HeldBy(a, m, customer) then m.capacity else 0
  {
    assert (racks + [m])[..|racks|] == racks;
  }

  lemma {:induction false} HeldAfterMerge(a: Alphabet, rows: seq<Rack>, keys: seq<Key>, customer: string)
    requires a.UpperHasNoLower()
    requires forall k <- keys :: Group(rows, k) != []
    ensures SumHeld(a, MergeAll(a, rows, keys), customer, Capacity) == ResolvedCapacity(a, rows, keys, customer)
  {
    if keys != [] {
      var init, g := keys[..|keys| - 1], Group(rows, keys[|keys| - 1]);
      MergeAllLast(a, rows, keys);
      HeldAfterMerge(a, rows, init, customer);
      HeldAppend(a, MergeAll(a, rows, init), Merge(a, g), customer);
      CustomerNamedOnlyByAll(a, g, customer);
      MergeFigures(a, g);
    }
  }

  ghost predicate HasEntry(customers: seq<Entry>, customer: string) {
    exists e :: e in customers && e.customer == customer
  }

  /** Some physical rack belongs to `customer`. */
  ghost predicate HasRack(a: Alphabet, rows: seq<Rack>, customer: string) {
    exists k :: k in Keys(rows) && BelongsTo(a, Group(rows, k), customer)
  }

  lemma HolderAt(a: Alphabet, rows: seq<Rack>, customer: string, i: nat)
    requires a.UpperHasNoLower() && i < |Dedupe(a, rows)|
    ensures i < |Keys(rows)|
    ensures HeldBy(a, Dedupe(a, rows)[i], customer) <==> BelongsTo(a, Group(rows, Keys(rows)[i]), customer)
  {
    DedupeAt(a, rows, i);
    CustomerNamedOnlyByAll(a, Group(rows, Keys(rows)[i]), customer);
  }

  lemma HolderHasRack(a: Alphabet, rows: seq<Rack>, customer: string, m: Rack)
    requires a.UpperHasNoLower() && m in Dedupe(a, rows) && HeldBy(a, m, customer)
    ensures HasRack(a, rows, customer)
  {
    var i :| 0 <= i < |Dedupe(a, rows)| && Dedupe(a, rows)[i] == m;
    HolderAt(a, rows, customer, i);
    assert Keys(rows)[i] in Keys(rows);
  }

  lemma RackHasHolder(a: Alphabet, rows: seq<Rack>, customer: string)
    requires a.UpperHasNoLower() && HasRack(a, rows, customer)
    ensures exists m :: m in Dedupe(a, rows) && HeldBy(a, m, customer)
  {
    var k :| k in Keys(rows) && BelongsTo(a, Group(rows, k), customer);
    var i :| 0 <= i < |Keys(rows)| && Keys(rows)[i] == k;
    DedupeAt(a, rows, i);
    HolderAt(a, rows, customer, i);
    assert Dedupe(a, rows)[i] in Dedupe(a, rows);
  }

  lemma HoldersAfterMerge(a: Alphabet, rows: seq<Rack>, customer: string)
    requires a.UpperHasNoLower()
    ensures (exists m :: m in Dedupe(a, rows) && HeldBy(a, m, customer)) <==> HasRack(a, rows, customer)
  {
    if m :| m in Dedupe(a, rows) && HeldBy(a, m, customer) { HolderHasRack(a, rows, customer, m); }
    if HasRack(a, rows, customer) { RackHasHolder(a, rows, customer); }
  }

  /**
   The customer list has one entry for each customer, the unattributed one included, that some
   physical rack belongs to, and allots it the capacity of exactly those racks.
   */
  lemma AllotmentFollowsDuplicates(a: Alphabet, rows: seq<Rack>, rules: RoleRules)
    requires a.UpperHasNoLower()
    ensures var customers := Aggregated(a, Dedupe(a, rows), rules).customers;
            && Distinct(customers)
            && (forall e <- customers :: e.allotted == ResolvedCapacity(a, rows, Keys(rows), e.customer))
            && forall c :: HasEntry(customers, c) <==> HasRack(a, rows, c)
  {
    var once := Dedupe(a, rows);
    var customers := Aggregated(a, once, rules).customers;
    CustomersAreHolders(a, once, rules);
    KeysHaveGroups(rows);
    forall e | e in customers ensures e.allotted == ResolvedCapacity(a, rows, Keys(rows), e.customer) {
      HeldAfterMerge(a, rows, Keys(rows), e.customer);
    }
    forall c ensures HasEntry(customers, c) <==> HasRack(a, rows, c) {
      HoldersAfterMerge(a, rows, c);
      assert EntryOf(a, once, c).customer == c;
      assert EntryOf(a, once, c) in customers <==> exists m :: m in once && HeldBy(a, m, c);
    }
  }
}
