/**
 The figures of the allocation aggregate, each said over the racks that stand behind it, and the names
 customers go by (shared/colocation/allocation.py, shared/colocation/role_rules.py).
 */
module AllocationOutputs {
  import opened Prelude
  import opened Text
  import opened Sorting
  import opened Allocation
  import opened AllocationLaws

  // ---------------------------------------------------------------- role rules

  /** The last rule given for a role is the one that holds; blank and absent roles have none. */
  lemma {:induction false} RulesExactly(a: Alphabet, rows: seq<(Option<string>, bool)>, key: string, i: nat)
    ensures key in RulesOf(a, rows) <==> key != "" && exists row <- rows :: row.0.Some? && a.Strip(row.0.value) == key
    ensures i < |rows| && key != "" && rows[i].0.Some? && a.Strip(rows[i].0.value) == key
            && (forall j :: i < j < |rows| ==> rows[j].0.Some? ==> a.Strip(rows[j].0.value) != key) ==>
              key in RulesOf(a, rows) && RulesOf(a, rows)[key] == rows[i].1
  {
    if rows != [] {
      var init, last := rows[..|rows| - 1], rows[|rows| - 1];
      assert rows == init + [last];
      RulesExactly(a, init, key, i);
    }
  }

  // ---------------------------------------------------------------- figures

  /** The racks that satisfy `p`, in order. */
  function Where(p: Rack -> bool, rows: seq<Rack>): seq<Rack> {
    if rows == [] then []
    else Where(p, rows[..|rows| - 1]) + if p(rows[|rows| - 1]) then [rows[|rows| - 1]] else []
  }

  lemma {:induction false} WhereMembers(p: Rack -> bool, rows: seq<Rack>)
    ensures forall r :: r in Where(p, rows) <==> r in rows && p(r)
  {
    if rows != [] {
      WhereMembers(p, rows[..|rows| - 1]);
      assert rows == rows[..|rows| - 1] + [rows[|rows| - 1]];
    }
  }

  lemma SumAppend(rows: seq<Rack>, r: Rack, f: Rack -> int)
    ensures Sum(rows + [r], f) == Sum(rows, f) + f(r)
  {
    assert (rows + [r])[..|rows|] == rows;
  }

  /** Racks behind a figure: how many, and their summed capacity, use and free space. */
  ghost predicate Adds(rows: seq<Rack>, racks: int, capacity: int, used: int, free: int) {
    && racks == |rows|
    && capacity == Sum(rows, (r: Rack) => r.capacity) && used == Sum(rows, (r: Rack) => r.used)
    && free == Sum(rows, (r: Rack) => r.free)
  }

  /** One rack more, where it counts. */
  lemma AddsStep(before: seq<Rack>, r: Rack, counts: bool, racks: int, capacity: int, used: int, free: int)
    requires Adds(before, racks, capacity, used, free)
    ensures Adds(before + if counts then [r] else [], racks + if counts then 1 else 0,
                 capacity + if counts then r.capacity else 0, used + if counts then r.used else 0,
                 free + if counts then r.free else 0)
  {
    if counts {
      SumAppend(before, r, (x: Rack) => x.capacity);
      SumAppend(before, r, (x: Rack) => x.used);
      SumAppend(before, r, (x: Rack) => x.free);
    } else {
      assert before + [] == before;
    }
  }

  lemma AddsNothing()
    ensures Adds([], 0, 0, 0, 0)
  {
  }

  /** Racks of a role. */
  function OfRole(a: Alphabet, key: string): Rack -> bool {
    (r: Rack) => (if r.role.Some? then a.Strip(r.role.value) else "") == key
  }

  function MaySell(a: Alphabet, rules: RoleRules): Rack -> bool {
    (r: Rack) => rules.IsSellable(a, r.role)
  }

  /** Network racks that may not be sold. */
  function ClosedNetwork(a: Alphabet, rules: RoleRules): Rack -> bool {
    (r: Rack) => !rules.IsSellable(a, r.role) && r.role.Some? && a.Strip(r.role.value) == "1"
  }

  /** Racks of the colocation roles. */
  function Colocation(a: Alphabet): Rack -> bool {
    (r: Rack) => r.role.Some? && (a.Strip(r.role.value) == "3" || a.Strip(r.role.value) == "4")
  }

  function HeldFor(a: Alphabet, customer: string): Rack -> bool {
    (r: Rack) => Colocation(a)(r) && CustomerLabel(a, r) == customer
  }

  lemma ColocationExactly(a: Alphabet, r: Rack)
    ensures Colocation(a)(r) <==> IsColocation(a, r.role)
    ensures forall c :: HeldFor(a, c)(r) <==> HeldBy(a, r, c)
  {
  }

  lemma {:induction false} RoleAdds(a: Alphabet, rows: seq<Rack>, key: string)
    ensures Adds(Where(OfRole(a, key), rows), SumRole(a, rows, key, One), SumRole(a, rows, key, Capacity),
                 SumRole(a, rows, key, Used), SumRole(a, rows, key, Free))
  {
    if rows == [] {
      AddsNothing();
    } else {
      var init, r := rows[..|rows| - 1], rows[|rows| - 1];
      RoleAdds(a, init, key);
      AddsStep(Where(OfRole(a, key), init), r, OfRole(a, key)(r), SumRole(a, init, key, One),
               SumRole(a, init, key, Capacity), SumRole(a, init, key, Used), SumRole(a, init, key, Free));
    }
  }

  lemma {:induction false} SellableAdds(a: Alphabet, rules: RoleRules, rows: seq<Rack>)
    ensures Adds(Where(MaySell(a, rules), rows), SumSellable(a, rules, rows, One),
                 SumSellable(a, rules, rows, Capacity), SumSellable(a, rules, rows, Used),
                 SumSellable(a, rules, rows, Free))
  {
    if rows == [] {
      AddsNothing();
    } else {
      var init, r := rows[..|rows| - 1], rows[|rows| - 1];
      SellableAdds(a, rules, init);
      AddsStep(Where(MaySell(a, rules), init), r, MaySell(a, rules)(r), SumSellable(a, rules, init, One),
                 SumSellable(a, rules, init, Capacity), SumSellable(a, rules, init, Used),
                 SumSellable(a, rules, init, Free));
    }
  }

  lemma {:induction false} NetworkAdds(a: Alphabet, rules: RoleRules, rows: seq<Rack>)
    ensures Adds(Where(ClosedNetwork(a, rules), rows), SumNetwork(a, rules, rows, One),
                 SumNetwork(a, rules, rows, Capacity), SumNetwork(a, rules, rows, Used),
                 SumNetwork(a, rules, rows, Free))
  {
    if rows == [] {
      AddsNothing();
    } else {
      var init, r := rows[..|rows| - 1], rows[|rows| - 1];
      NetworkAdds(a, rules, init);
      AddsStep(Where(ClosedNetwork(a, rules), init), r, ClosedNetwork(a, rules)(r), SumNetwork(a, rules, init, One),
                 SumNetwork(a, rules, init, Capacity), SumNetwork(a, rules, init, Used),
                 SumNetwork(a, rules, init, Free));
    }
  }

  lemma {:induction false} ColocationAdds(a: Alphabet, rows: seq<Rack>)
    ensures Adds(Where(Colocation(a), rows), SumColocation(a, rows, One), SumColocation(a, rows, Capacity),
                 SumColocation(a, rows, Used), SumColocation(a, rows, Free))
  {
    if rows == [] {
      AddsNothing();
    } else {
      var init, r := rows[..|rows| - 1], rows[|rows| - 1];
      ColocationAdds(a, init);
      ColocationExactly(a, r);
      AddsStep(Where(Colocation(a), init), r, Colocation(a)(r), SumColocation(a, init, One),
               SumColocation(a, init, Capacity),
                 SumColocation(a, init, Used), SumColocation(a, init, Free));
    }
  }

  lemma {:induction false} HeldAdds(a: Alphabet, rows: seq<Rack>, customer: string)
    ensures Adds(Where(HeldFor(a, customer), rows), SumHeld(a, rows, customer, One),
                 SumHeld(a, rows, customer, Capacity), SumHeld(a, rows, customer, Used),
                 SumHeld(a, rows, customer, Free))
  {
    if rows == [] {
      AddsNothing();
    } else {
      var init, r := rows[..|rows| - 1], rows[|rows| - 1];
      HeldAdds(a, init, customer);
      ColocationExactly(a, r);
      AddsStep(Where(HeldFor(a, customer), init), r, HeldFor(a, customer)(r), SumHeld(a, init, customer, One),
                 SumHeld(a, init, customer, Capacity), SumHeld(a, init, customer, Used),
                 SumHeld(a, init, customer, Free));
    }
  }

  /** The sellable totals count exactly the racks that may be sold; the network totals the closed network racks. */
  lemma TotalsExactly(a: Alphabet, rows: seq<Rack>, rules: RoleRules)
    ensures var agg := Aggregated(a, rows, rules);
            && (exists n :: Adds(Where(MaySell(a, rules), rows), n, agg.sellableCapacity, agg.sellableUsed,
                                 agg.sellableFree))
            && (exists u :: Adds(Where(ClosedNetwork(a, rules), rows), agg.networkRacks, agg.networkCapacity, u,
                                 agg.networkFree))
            && (exists n, u, f :: Adds(Where(Colocation(a), rows), n, agg.colocationAllocated, u, f))
  {
    SellableAdds(a, rules, rows);
    NetworkAdds(a, rules, rows);
    ColocationAdds(a, rows);
  }

  // ---------------------------------------------------------------- the role breakdown

  lemma {:induction false} BucketsMembers(a: Alphabet, rules: RoleRules, rows: seq<Rack>, keys: seq<string>)
    ensures forall b :: b in Buckets(a, rules, rows, keys)
                        <==> b.roleId in keys && b == BucketOf(a, rules, rows, b.roleId)
    ensures |Buckets(a, rules, rows, keys)| == |keys|
    ensures forall i :: 0 <= i < |keys| ==> Buckets(a, rules, rows, keys)[i].roleId == keys[i]
  {
    if keys != [] {
      BucketsMembers(a, rules, rows, keys[..|keys| - 1]);
      assert keys == keys[..|keys| - 1] + [keys[|keys| - 1]];
    }
  }

  /** A bucket counts exactly the racks of its role. */
  ghost predicate CountsRole(a: Alphabet, rows: seq<Rack>, b: Bucket) {
    Adds(Where(OfRole(a, b.roleId), rows), b.rackCount, b.capacity, b.used, b.free)
  }

  lemma KeyOccurs(a: Alphabet, rows: seq<Rack>, key: string)
    ensures key in RoleKeys(a, rows) <==> exists r <- rows :: OfRole(a, key)(r)
  {
    RoleKeysMembers(a, rows, key);
    if i :| 0 <= i < |rows| && RoleKey(a, rows[i]) == key { assert rows[i] in rows && OfRole(a, key)(rows[i]); }
    if r :| r in rows && OfRole(a, key)(r) {
      var i :| 0 <= i < |rows| && rows[i] == r;
      assert RoleKey(a, rows[i]) == key;
    }
  }

  lemma BreakdownMembers(a: Alphabet, rows: seq<Rack>, rules: RoleRules)
    ensures var breakdown := Aggregated(a, rows, rules).roleBreakdown;
            && Distinct(breakdown)
            && forall b :: b in breakdown <==> b.roleId in RoleKeys(a, rows) && b == BucketOf(a, rules, rows, b.roleId)
  {
    var bs := Buckets(a, rules, rows, RoleKeys(a, rows));
    RoleKeysDistinct(a, rows);
    BucketsMembers(a, rules, rows, RoleKeys(a, rows));
    SortKeeps(BucketOrder, bs);
    SortMembers(BucketOrder, bs);
    DistinctReordered(bs, SortBy(BucketOrder, bs));
  }

  lemma BucketCounts(a: Alphabet, rules: RoleRules, rows: seq<Rack>, key: string)
    ensures BucketOf(a, rules, rows, key).roleId == key && CountsRole(a, rows, BucketOf(a, rules, rows, key))
  {
    RoleAdds(a, rows, key);
  }

  /** The breakdown has one bucket for each role that occurs, and each counts exactly its racks. */
  lemma BucketsExactly(a: Alphabet, rows: seq<Rack>, rules: RoleRules)
    ensures var breakdown := Aggregated(a, rows, rules).roleBreakdown;
            && Distinct(breakdown)
            && (forall b <- breakdown :: CountsRole(a, rows, b))
            && (forall b, c :: b in breakdown && c in breakdown && b.roleId == c.roleId ==> b == c)
            && forall key :: (exists b <- breakdown :: b.roleId == key) <==> exists r <- rows :: OfRole(a, key)(r)
  {
    var breakdown := Aggregated(a, rows, rules).roleBreakdown;
    BreakdownMembers(a, rows, rules);
    forall b | b in breakdown ensures CountsRole(a, rows, b) { BucketCounts(a, rules, rows, b.roleId); }
    forall key ensures (exists b <- breakdown :: b.roleId == key) <==> exists r <- rows :: OfRole(a, key)(r) {
      KeyOccurs(a, rows, key);
      BucketCounts(a, rules, rows, key);
      assert BucketOf(a, rules, rows, key) in breakdown <==> key in RoleKeys(a, rows);
    }
  }

  /** A bucket takes its flag from the first rack of its role. */
  lemma {:induction false} FlagOfFirst(a: Alphabet, rules: RoleRules, rows: seq<Rack>, key: string, i: nat)
    requires i < |rows| && OfRole(a, key)(rows[i]) && forall j :: 0 <= j < i ==> !OfRole(a, key)(rows[j])
    ensures BucketOf(a, rules, rows, key).sellable <==> rules.IsSellable(a, rows[i].role)
  {
    if i > 0 {
      assert rows[1..][i - 1] == rows[i];
      forall j | 0 <= j < i - 1 ensures !OfRole(a, key)(rows[1..][j]) { assert rows[1..][j] == rows[j + 1]; }
      FlagOfFirst(a, rules, rows[1..], key, i - 1);
    }
  }

  /** Sellable roles come first, larger free space first among them, then the roles in order. */
  lemma BreakdownSorted(a: Alphabet, rows: seq<Rack>, rules: RoleRules, i: nat, j: nat)
    requires i < j < |Aggregated(a, rows, rules).roleBreakdown|
    ensures var x, y := Aggregated(a, rows, rules).roleBreakdown[i], Aggregated(a, rows, rules).roleBreakdown[j];
            && (y.sellable ==> x.sellable)
            && (x.sellable == y.sellable ==> x.free >= y.free && (x.free == y.free ==> LexLe(x.roleId, y.roleId)))
  {
    BucketOrderTotal();
    SortBySorts(BucketOrder, Buckets(a, rules, rows, RoleKeys(a, rows)));
  }

  lemma BucketOrderTotal()
    ensures TotalPreorder(BucketOrder)
  {
    forall x: Bucket, y: Bucket ensures BucketOrder(x, y) || BucketOrder(y, x) { LexLeTotal(x.roleId, y.roleId); }
    forall x: Bucket, y: Bucket, z: Bucket | BucketOrder(x, y) && BucketOrder(y, z) ensures BucketOrder(x, z) {
      if LexLe(x.roleId, y.roleId) && LexLe(y.roleId, z.roleId) { LexLeTransitive(x.roleId, y.roleId, z.roleId); }
    }
  }

  // ---------------------------------------------------------------- customers

  lemma {:induction false} RackNamesExactly(a: Alphabet, rows: seq<Rack>, customer: string)
    ensures Distinct(RackNames(a, rows, customer))
    ensures forall n :: n in RackNames(a, rows, customer)
                        <==> n != "" && exists r <- rows :: HeldFor(a, customer)(r) && r.name == Some(n)
  {
    if rows != [] {
      RackNamesExactly(a, rows[..|rows| - 1], customer);
      ColocationExactly(a, rows[|rows| - 1]);
      assert rows == rows[..|rows| - 1] + [rows[|rows| - 1]];
    }
  }

  /** An entry counts exactly the racks its customer holds, and names each of them that has a name, once. */
  ghost predicate CountsCustomer(a: Alphabet, rows: seq<Rack>, e: Entry) {
    var held := Where(HeldFor(a, e.customer), rows);
    && held != [] && (exists free :: Adds(held, e.rackCount, e.allotted, e.used, free))
    && Distinct(e.racks) && forall n :: n in e.racks <==> n != "" && exists r <- held :: r.name == Some(n)
  }

  lemma EntryCounts(a: Alphabet, rows: seq<Rack>, customer: string)
    requires exists r :: r in rows && HeldBy(a, r, customer)
    ensures CountsCustomer(a, rows, EntryOf(a, rows, customer))
  {
    WhereMembers(HeldFor(a, customer), rows);
    RackNamesExactly(a, rows, customer);
    HeldAdds(a, rows, customer);
    var r :| r in rows && HeldBy(a, r, customer);
    ColocationExactly(a, r);
    assert r in Where(HeldFor(a, customer), rows);
  }

  /** The customers are those that hold a colocation rack, one entry each, counting exactly their racks. */
  lemma EntriesExactly(a: Alphabet, rows: seq<Rack>, rules: RoleRules)
    ensures var customers := Aggregated(a, rows, rules).customers;
            && (forall e <- customers :: CountsCustomer(a, rows, e))
            && (forall d, e :: d in customers && e in customers && d.customer == e.customer ==> d == e)
            && forall c :: (exists e <- customers :: e.customer == c) <==> exists r <- rows :: HeldFor(a, c)(r)
  {
    var customers := Aggregated(a, rows, rules).customers;
    CustomersAreHolders(a, rows, rules);
    forall e | e in customers ensures CountsCustomer(a, rows, e) { EntryCounts(a, rows, e.customer); }
    forall c ensures (exists e <- customers :: e.customer == c) <==> exists r <- rows :: HeldFor(a, c)(r) {
      assert EntryOf(a, rows, c).customer == c;
      assert EntryOf(a, rows, c) in customers <==> exists r :: r in rows && HeldBy(a, r, c);
      forall r ensures HeldFor(a, c)(r) <==> HeldBy(a, r, c) { ColocationExactly(a, r); }
    }
  }

  /** Larger allocations come first, then the customers by name. */
  lemma CustomersSorted(a: Alphabet, rows: seq<Rack>, rules: RoleRules, i: nat, j: nat)
    requires i < j < |Aggregated(a, rows, rules).customers|
    ensures var x, y := Aggregated(a, rows, rules).customers[i], Aggregated(a, rows, rules).customers[j];
            x.allotted >= y.allotted && (x.allotted == y.allotted ==> LexLe(x.customer, y.customer))
  {
    EntryOrderTotal();
    SortBySorts(EntryOrder, Entries(a, rows, Labels(a, rows)));
  }

  lemma EntryOrderTotal()
    ensures TotalPreorder(EntryOrder)
  {
    forall x: Entry, y: Entry ensures EntryOrder(x, y) || EntryOrder(y, x) { LexLeTotal(x.customer, y.customer); }
    forall x: Entry, y: Entry, z: Entry | EntryOrder(x, y) && EntryOrder(y, z) ensures EntryOrder(x, z) {
      if LexLe(x.customer, y.customer) && LexLe(y.customer, z.customer) {
        LexLeTransitive(x.customer, y.customer, z.customer);
      }
    }
  }

  // ---------------------------------------------------------------- names

  /** All of it is white space. */
  ghost predicate Spaces(a: Alphabet, s: string) {
    forall c <- s :: a.space(c)
  }

  lemma {:induction false} AllSpaceExactly(a: Alphabet, s: string)
    ensures AllSpace(a, s) <==> Spaces(a, s)
  {
    if s != [] {
      AllSpaceExactly(a, s[1..]);
      assert s == [s[0]] + s[1..];
    }
  }

  lemma {:induction false} SkipSpaceExactly(a: Alphabet, lead: string, rest: string)
    requires Spaces(a, lead) && (rest != "" ==> !a.space(rest[0]))
    ensures SkipSpace(a, lead + rest) == rest
  {
    if lead == [] {
      assert lead + rest == rest;
    } else {
      assert (lead + rest)[1..] == lead[1..] + rest;
      SkipSpaceExactly(a, lead[1..], rest);
    }
  }

  lemma {:induction false} SkipSpaceShape(a: Alphabet, s: string)
    ensures exists lead :: Spaces(a, lead) && s == lead + SkipSpace(a, s)
    ensures SkipSpace(a, s) != "" ==> !a.space(SkipSpace(a, s)[0])
  {
    if s != [] && a.space(s[0]) {
      SkipSpaceShape(a, s[1..]);
      var lead :| Spaces(a, lead) && s[1..] == lead + SkipSpace(a, s[1..]);
      assert s == ([s[0]] + lead) + SkipSpace(a, s);
      assert Spaces(a, [s[0]] + lead);
    } else {
      assert s == "" + s && Spaces(a, "");
    }
  }

  /** The parts of CO LOCATION in any case: white space or none between the words, and behind them. */
  ghost predicate Spells(a: Alphabet, co: string, gap: string, location: string, trail: string) {
    a.Lower(co) == "co" && a.Lower(location) == "location" && Spaces(a, gap) && Spaces(a, trail)
  }

  ghost predicate ReadsMarker(a: Alphabet, s: string) {
    exists co, gap, location, trail :: Spells(a, co, gap, location, trail) && s == co + gap + location + trail
  }

  lemma MarkerHasParts(a: Alphabet, s: string)
    requires IsMarker(a, s)
    ensures ReadsMarker(a, s)
  {
    SkipSpaceShape(a, s[2..]);
    var rest := SkipSpace(a, s[2..]);
    var gap :| Spaces(a, gap) && s[2..] == gap + rest;
    AllSpaceExactly(a, rest[8..]);
    assert s == s[..2] + gap + rest[..8] + rest[8..];
    assert Spells(a, s[..2], gap, rest[..8], rest[8..]);
  }

  lemma LowerLength(a: Alphabet, s: string)
    ensures |a.Lower(s)| == |s|
  {
  }

  lemma PartsMakeMarker(a: Alphabet, co: string, gap: string, location: string, trail: string)
    requires a.LowerKeepsSpace() && a.KeepsKeywords() && Spells(a, co, gap, location, trail)
    ensures IsMarker(a, co + gap + location + trail)
  {
    var s := co + gap + location + trail;
    LowerLength(a, co);
    LowerLength(a, location);
    VisibleStart(a, location);
    assert s[..2] == co && s[2..] == gap + (location + trail);
    assert (location + trail)[0] == location[0];
    SkipSpaceExactly(a, gap, location + trail);
    assert (location + trail)[..8] == location && (location + trail)[8..] == trail;
    AllSpaceExactly(a, trail);
  }

  lemma VisibleStart(a: Alphabet, s: string)
    requires a.LowerKeepsSpace() && a.KeepsKeywords() && s != [] && a.Lower(s)[0] == 'l'
    ensures !a.space(s[0])
  {
    assert a.lower(s[0]) == 'l';
  }

  lemma MarkerExactly(a: Alphabet, s: string)
    requires a.LowerKeepsSpace() && a.KeepsKeywords()
    ensures IsMarker(a, s) <==> ReadsMarker(a, s)
  {
    if IsMarker(a, s) { MarkerHasParts(a, s); }
    if co, gap, location, trail :| Spells(a, co, gap, location, trail) && s == co + gap + location + trail {
      PartsMakeMarker(a, co, gap, location, trail);
    }
  }

  /** Where the marker starts: the first place from which the rest reads as one. */
  lemma {:induction false} MarkerStartExactly(a: Alphabet, s: string)
    requires a.LowerKeepsSpace() && a.KeepsKeywords()
    ensures var i := MarkerStart(a, s);
            && (forall j :: 0 <= j < i ==> !ReadsMarker(a, s[j..])) && (i < |s| ==> ReadsMarker(a, s[i..]))
  {
    MarkerExactly(a, s);
    assert s[0..] == s;
    if s != [] && !IsMarker(a, s) {
      MarkerStartExactly(a, s[1..]);
      var i := MarkerStart(a, s[1..]);
      forall j | 0 <= j < i + 1 ensures !ReadsMarker(a, s[j..]) { if j > 0 { assert s[1..][j - 1..] == s[j..]; } }
      if i < |s[1..]| { assert s[1..][i..] == s[i + 1..]; }
    }
  }

  /** The tag names a customer: it ends in the marker, and something is left before its first start. */
  ghost predicate TagNames(a: Alphabet, tag: Option<string>, name: string) {
    && name != "" && tag.Some?
    && exists i :: 0 <= i < |tag.value| && ReadsMarker(a, tag.value[i..]) && a.Strip(tag.value[..i]) == name
                   && forall j :: 0 <= j < i ==> !ReadsMarker(a, tag.value[j..])
  }

  lemma OneTag(a: Alphabet, tag: string, name: string)
    requires a.LowerKeepsSpace() && a.KeepsKeywords()
    ensures TagNames(a, Some(tag), name)
            <==> MarkerStart(a, tag) < |tag| && name != "" && a.Strip(tag[..MarkerStart(a, tag)]) == name
  {
    MarkerStartExactly(a, tag);
  }

  ghost predicate NamesNobody(a: Alphabet, tag: Option<string>) {
    forall name :: !TagNames(a, tag, name)
  }

  lemma OneTagDecides(a: Alphabet, tag: Option<string>, rest: seq<Option<string>>, name: string)
    requires a.LowerKeepsSpace() && a.KeepsKeywords()
    ensures TagNames(a, tag, name) ==> TagCustomerName(a, [tag] + rest) == Some(name)
    ensures NamesNobody(a, tag) ==> TagCustomerName(a, [tag] + rest) == TagCustomerName(a, rest)
  {
    assert ([tag] + rest)[1..] == rest;
    if tag.Some? {
      OneTag(a, tag.value, name);
      OneTag(a, tag.value, a.Strip(tag.value[..MarkerStart(a, tag.value)]));
    }
  }

  /** The first tag that names a customer gives the name; nobody is named when none does. */
  lemma {:induction false} TagCustomerExactly(a: Alphabet, before: seq<Option<string>>, tag: Option<string>,
                                              after: seq<Option<string>>, name: string)
    requires a.LowerKeepsSpace() && a.KeepsKeywords() && forall t <- before :: NamesNobody(a, t)
    ensures TagNames(a, tag, name) ==> TagCustomerName(a, before + [tag] + after) == Some(name)
    ensures TagCustomerName(a, before) == None
  {
    if before == [] {
      OneTagDecides(a, tag, after, name);
      assert before + [tag] + after == [tag] + after;
    } else {
      var rest := before[1..];
      TagCustomerExactly(a, rest, tag, after, name);
      OneTagDecides(a, before[0], rest + [tag] + after, name);
      OneTagDecides(a, before[0], rest, name);
      assert before + [tag] + after == [before[0]] + (rest + [tag] + after) && before == [before[0]] + rest;
    }
  }

  /** The tenant names the customer, failing that the tags, failing that the description; all trimmed. */
  lemma CustomerExactly(a: Alphabet, r: Rack)
    ensures var tenant, described := a.Strip(OrBlank(r.tenant)), a.Strip(OrBlank(r.description));
            var tagged := TagCustomerName(a, r.tags);
            CustomerLabel(a, r)
            == if tenant != "" then NormalizeCustomerName(a, tenant)
               else if tagged.Some? then NormalizeCustomerName(a, tagged.value)
               else if described != "" then NormalizeCustomerName(a, described)
               else "Unattributed"
  {
  }

  lemma {:induction false} CollapseWord(a: Alphabet, word: string, rest: string)
    requires forall c <- word :: !a.space(c)
    ensures Collapse(a, word + rest) == word + Collapse(a, rest)
  {
    if word == [] {
      assert word + rest == rest;
    } else {
      assert (word + rest)[1..] == word[1..] + rest;
      CollapseWord(a, word[1..], rest);
    }
  }

  lemma CollapseGap(a: Alphabet, gap: string, rest: string)
    requires gap != "" && Spaces(a, gap) && (rest != "" ==> !a.space(rest[0]))
    ensures Collapse(a, gap + rest) == [' '] + Collapse(a, rest)
  {
    assert (gap + rest)[1..] == gap[1..] + rest && (gap + rest)[0] == gap[0];
    SkipSpaceExactly(a, gap[1..], rest);
  }

  lemma CollapseWordAlone(a: Alphabet, word: string)
    requires forall c <- word :: !a.space(c)
    ensures Collapse(a, word) == word
  {
    CollapseWord(a, word, "");
    assert word + "" == word;
  }

  /** Any white space between two words becomes one blank, and words are kept. */
  lemma CollapseExactly(a: Alphabet, word: string, gap: string, rest: string)
    requires (forall c <- word :: !a.space(c)) && gap != "" && Spaces(a, gap) && (rest != "" ==> !a.space(rest[0]))
    ensures Collapse(a, word + gap + rest) == word + [' '] + Collapse(a, rest)
  {
    assert word + gap + rest == word + (gap + rest);
    CollapseWord(a, word, gap + rest);
    CollapseGap(a, gap, rest);
  }

  lemma {:induction false} UpperConcat(a: Alphabet, x: string, y: string)
    ensures a.Upper(x + y) == a.Upper(x) + a.Upper(y)
  {
    if x == [] {
      assert x + y == y;
    } else {
      assert (x + y)[1..] == x[1..] + y;
      UpperConcat(a, x[1..], y);
    }
  }

  lemma UpperOfTwo(a: Alphabet, word: string, other: string)
    ensures a.Upper(word + [' '] + other) == a.Upper(word) + a.upper(' ') + a.Upper(other)
  {
    UpperConcat(a, word + [' '], other);
    UpperConcat(a, word, [' ']);
    UpperOfOne(a, ' ');
  }

  lemma UpperOfOne(a: Alphabet, c: char)
    ensures a.Upper([c]) == a.upper(c)
  {
    assert [c][1..] == [];
  }

  lemma CollapseTwo(a: Alphabet, word: string, gap: string, other: string)
    requires gap != "" && Spaces(a, gap) && (forall c <- word :: !a.space(c)) && forall c <- other :: !a.space(c)
    ensures Collapse(a, word + gap + other) == word + [' '] + other
  {
    assert other != "" ==> other[0] in other;
    CollapseExactly(a, word, gap, other);
    CollapseWordAlone(a, other);
  }

  lemma StripTwoWords(a: Alphabet, lead: string, word: string, gap: string, other: string, trail: string)
    requires Spaces(a, lead) && Spaces(a, trail)
    requires word != "" && other != "" && (forall c <- word :: !a.space(c)) && forall c <- other :: !a.space(c)
    ensures a.Strip(lead + (word + gap + other) + trail) == word + gap + other
  {
    var core := word + gap + other;
    assert core[0] == word[0] && word[0] in word;
    assert core[|core| - 1] == other[|other| - 1] && other[|other| - 1] in other;
    StripExactly(a, lead, core, trail);
  }

  /** Two words go by their upper-cased forms with one blank between, however they are spaced. */
  lemma NamesGroup(a: Alphabet, lead: string, word: string, gap: string, other: string, trail: string)
    requires Spaces(a, lead) && Spaces(a, trail) && gap != "" && Spaces(a, gap)
    requires word != "" && other != "" && (forall c <- word :: !a.space(c)) && forall c <- other :: !a.space(c)
    ensures NormalizeCustomerName(a, lead + (word + gap + other) + trail)
            == a.Upper(word) + a.upper(' ') + a.Upper(other)
  {
    StripTwoWords(a, lead, word, gap, other, trail);
    CollapseTwo(a, word, gap, other);
    UpperOfTwo(a, word, other);
  }
}
