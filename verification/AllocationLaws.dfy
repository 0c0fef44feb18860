/**
 What the allocation aggregate conserves: every rack and every unit of space is accounted for once,
 by role and by customer.
 */
module AllocationLaws {
  import opened Prelude
  import opened Text
  import opened Sorting
  import opened Allocation

  function BucketCapacity(b: Bucket): int { b.capacity }
  function BucketUsed(b: Bucket): int { b.used }
  function BucketFree(b: Bucket): int { b.free }
  function BucketRacks(b: Bucket): int { b.rackCount }
  function SellableCapacityOf(b: Bucket): int { if b.sellable then b.capacity else 0 }
  function SellableUsedOf(b: Bucket): int { if b.sellable then b.used else 0 }
  function SellableFreeOf(b: Bucket): int { if b.sellable then b.free else 0 }
  function AllottedOf(e: Entry): int { e.allotted }

  // ---------------------------------------------------------------- by role

  /** The racks of the listed roles; only those `keep` admits. */
  ghost function KeySum(a: Alphabet, rows: seq<Rack>, keys: seq<string>, keep: string -> bool, f: Rack -> int): int {
    if keys == [] then 0
    else
      var k := keys[|keys| - 1];
      KeySum(a, rows, keys[..|keys| - 1], keep, f) + if keep(k) then SumRole(a, rows, k, f) else 0
  }

  ghost function Kept(a: Alphabet, rows: seq<Rack>, keep: string -> bool, f: Rack -> int): int {
    if rows == [] then 0
    else
      var r := rows[|rows| - 1];
      Kept(a, rows[..|rows| - 1], keep, f) + if keep(RoleKey(a, r)) then f(r) else 0
  }

  lemma {:induction false} RoleKeysDistinct(a: Alphabet, rows: seq<Rack>)
    ensures Distinct(RoleKeys(a, rows))
  {
    if rows != [] { RoleKeysDistinct(a, rows[..|rows| - 1]); }
  }

  lemma {:induction false} KeySumAppend(a: Alphabet, rows: seq<Rack>, r: Rack, keys: seq<string>,
                                        keep: string -> bool, f: Rack -> int)
    requires Distinct(keys)
    ensures KeySum(a, rows + [r], keys, keep, f) ==
              KeySum(a, rows, keys, keep, f) + if RoleKey(a, r) in keys && keep(RoleKey(a, r)) then f(r) else 0
  {
    if keys != [] {
      var init, last := keys[..|keys| - 1], keys[|keys| - 1];
      KeySumAppend(a, rows, r, init, keep, f);
      assert (rows + [r])[..|rows|] == rows;
      assert RoleKey(a, r) in keys <==> RoleKey(a, r) in init || RoleKey(a, r) == last;
    }
  }

  lemma {:induction false} AbsentSum(a: Alphabet, rows: seq<Rack>, key: string, f: Rack -> int)
    requires key !in RoleKeys(a, rows)
    ensures SumRole(a, rows, key, f) == 0
  {
    if rows != [] { AbsentSum(a, rows[..|rows| - 1], key, f); }
  }

  /** Summing role by role is summing rack by rack. */
  lemma {:induction false} RolesPartitionRacks(a: Alphabet, rows: seq<Rack>, keep: string -> bool, f: Rack -> int)
    ensures KeySum(a, rows, RoleKeys(a, rows), keep, f) == Kept(a, rows, keep, f)
  {
    if rows != [] {
      var init, r := rows[..|rows| - 1], rows[|rows| - 1];
      var keys, k := RoleKeys(a, init), RoleKey(a, r);
      RolesPartitionRacks(a, init, keep, f);
      RoleKeysDistinct(a, init);
      assert rows == init + [r];
      KeySumAppend(a, init, r, keys, keep, f);
      if k !in keys {
        AbsentSum(a, init, k, f);
        assert (keys + [k])[..|keys|] == keys;
      }
    }
  }

  lemma {:induction false} KeepAll(a: Alphabet, rows: seq<Rack>, f: Rack -> int)
    ensures Kept(a, rows, _ => true, f) == Sum(rows, f)
  {
    if rows != [] { KeepAll(a, rows[..|rows| - 1], f); }
  }

  lemma {:induction false} BucketTotals(a: Alphabet, rules: RoleRules, rows: seq<Rack>, keys: seq<string>)
    ensures var bs := Buckets(a, rules, rows, keys);
            && Total(BucketRacks, bs) == KeySum(a, rows, keys, _ => true, One)
            && Total(BucketCapacity, bs) == KeySum(a, rows, keys, _ => true, Capacity)
            && Total(BucketUsed, bs) == KeySum(a, rows, keys, _ => true, Used)
            && Total(BucketFree, bs) == KeySum(a, rows, keys, _ => true, Free)
  {
    if keys != [] {
      var init := keys[..|keys| - 1];
      BucketTotals(a, rules, rows, init);
      var bs := Buckets(a, rules, rows, init);
      assert Buckets(a, rules, rows, keys)[..|bs|] == bs;
    }
  }

  /** The role breakdown accounts for every rack, its capacity, its used and its free units, once. */
  lemma RoleBreakdownConserves(a: Alphabet, rows: seq<Rack>, rules: RoleRules)
    ensures var breakdown := Aggregated(a, rows, rules).roleBreakdown;
            && Total(BucketRacks, breakdown) == |rows|
            && Total(BucketCapacity, breakdown) == Sum(rows, Capacity)
            && Total(BucketUsed, breakdown) == Sum(rows, Used)
            && Total(BucketFree, breakdown) == Sum(rows, Free)
  {
    var keys := RoleKeys(a, rows);
    var bs := Buckets(a, rules, rows, keys);
    BucketTotals(a, rules, rows, keys);
    TotalSort(BucketOrder, BucketRacks, bs);
    TotalSort(BucketOrder, BucketCapacity, bs);
    TotalSort(BucketOrder, BucketUsed, bs);
    TotalSort(BucketOrder, BucketFree, bs);
    RolesPartitionRacks(a, rows, _ => true, One);
    RolesPartitionRacks(a, rows, _ => true, Capacity);
    RolesPartitionRacks(a, rows, _ => true, Used);
    RolesPartitionRacks(a, rows, _ => true, Free);
    KeepAll(a, rows, One);
    KeepAll(a, rows, Capacity);
    KeepAll(a, rows, Used);
    KeepAll(a, rows, Free);
    SumOnes(rows);
  }

  lemma {:induction false} SumOnes(rows: seq<Rack>)
    ensures Sum(rows, One) == |rows|
  {
    if rows != [] { SumOnes(rows[..|rows| - 1]); }
  }

  // ---------------------------------------------------------------- what is sellable

  /** The rules do not mark the blank role unsellable. */
  predicate BlankRoleOpen(rules: RoleRules) {
    "" !in rules.sellable || rules.sellable[""]
  }

  predicate KeySellable(rules: RoleRules, key: string) {
    key !in rules.sellable || rules.sellable[key]
  }

  lemma {:induction false} FlagIsRule(a: Alphabet, rules: RoleRules, rows: seq<Rack>, key: string)
    requires BlankRoleOpen(rules) && key in RoleKeys(a, rows)
    ensures FirstSellable(a, rules, rows, key) == KeySellable(rules, key)
  {
    RoleKeysMembers(a, rows, key);
    var i :| 0 <= i < |rows| && RoleKey(a, rows[i]) == key;
    if RoleKey(a, rows[0]) != key {
      assert rows[1..][i - 1] == rows[i];
      RoleKeysMembers(a, rows[1..], key);
      FlagIsRule(a, rules, rows[1..], key);
    }
  }

  lemma {:induction false} SellableBucketTotals(a: Alphabet, rules: RoleRules, rows: seq<Rack>, keys: seq<string>)
    requires BlankRoleOpen(rules) && forall k <- keys :: k in RoleKeys(a, rows)
    ensures var bs, keep := Buckets(a, rules, rows, keys), (k: string) => KeySellable(rules, k);
            && Total(SellableCapacityOf, bs) == KeySum(a, rows, keys, keep, Capacity)
            && Total(SellableUsedOf, bs) == KeySum(a, rows, keys, keep, Used)
            && Total(SellableFreeOf, bs) == KeySum(a, rows, keys, keep, Free)
  {
    if keys != [] {
      var init := keys[..|keys| - 1];
      SellableBucketTotals(a, rules, rows, init);
      FlagIsRule(a, rules, rows, keys[|keys| - 1]);
      var bs := Buckets(a, rules, rows, init);
      assert Buckets(a, rules, rows, keys)[..|bs|] == bs;
    }
  }

  lemma {:induction false} KeptIsSellable(a: Alphabet, rules: RoleRules, rows: seq<Rack>, f: Rack -> int)
    requires BlankRoleOpen(rules)
    ensures Kept(a, rows, (k: string) => KeySellable(rules, k), f) == SumSellable(a, rules, rows, f)
  {
    if rows != [] { KeptIsSellable(a, rules, rows[..|rows| - 1], f); }
  }

  /** The buckets flagged sellable add up to the three sellable totals. */
  ghost predicate FlagsMatchTotals(a: Alphabet, rules: RoleRules, rows: seq<Rack>) {
    var agg := Aggregated(a, rows, rules);
    && Total(SellableCapacityOf, agg.roleBreakdown) == agg.sellableCapacity
    && Total(SellableUsedOf, agg.roleBreakdown) == agg.sellableUsed
    && Total(SellableFreeOf, agg.roleBreakdown) == agg.sellableFree
  }

  lemma OpenFlagsMatch(a: Alphabet, rules: RoleRules, rows: seq<Rack>)
    requires BlankRoleOpen(rules)
    ensures FlagsMatchTotals(a, rules, rows)
  {
    var keys := RoleKeys(a, rows);
    var bs, keep := Buckets(a, rules, rows, keys), (k: string) => KeySellable(rules, k);
    SellableBucketTotals(a, rules, rows, keys);
    TotalSort(BucketOrder, SellableCapacityOf, bs);
    TotalSort(BucketOrder, SellableUsedOf, bs);
    TotalSort(BucketOrder, SellableFreeOf, bs);
    RolesPartitionRacks(a, rows, keep, Capacity);
    RolesPartitionRacks(a, rows, keep, Used);
    RolesPartitionRacks(a, rows, keep, Free);
    KeptIsSellable(a, rules, rows, Capacity);
    KeptIsSellable(a, rules, rows, Used);
    KeptIsSellable(a, rules, rows, Free);
  }

  /** A rack without a role, then one whose role is blank. */
  ghost function TwoBlankRacks(): seq<Rack> {
    var r := Rack(0, None, None, None, 1, 0, 1, [], None, None, [], None, None);
    [r, r.(role := Some(""))]
  }

  /**
   The flags match the totals for every list of racks exactly when the blank role is not ruled out:
   an absent role and a blank one share a bucket, which takes its flag from the first rack.
   */
  lemma FlagsMatchExactlyWhenBlankRoleOpen(a: Alphabet, rules: RoleRules)
    ensures (forall rows :: FlagsMatchTotals(a, rules, rows)) <==> BlankRoleOpen(rules)
  {
    if BlankRoleOpen(rules) {
      forall rows { OpenFlagsMatch(a, rules, rows); }
    } else {
      BlankRuleMiscounts(a, rules);
    }
  }

  lemma BlankRuleMiscounts(a: Alphabet, rules: RoleRules)
    requires !BlankRoleOpen(rules)
    ensures !FlagsMatchTotals(a, rules, TwoBlankRacks())
  {
    var rows := TwoBlankRacks();
    var r, b := rows[0], rows[1];
    assert a.Strip("") == "";
    assert rows[..1] == [r] && [r][..0] == [];
    assert RoleKeys(a, [r]) == [""] && RoleKeys(a, rows) == [""];
    assert SumRole(a, [r], "", Capacity) == 1 && SumRole(a, rows, "", Capacity) == 2;
    assert SumSellable(a, rules, [r], Capacity) == 1 && SumSellable(a, rules, rows, Capacity) == 1;
    var bs := Buckets(a, rules, rows, [""]);
    var none: seq<string> := [];
    assert [""][..0] == none && Buckets(a, rules, rows, none) == [];
    assert bs == [BucketOf(a, rules, rows, "")];
    assert bs[0].sellable && bs[0].capacity == 2;
    assert bs[..0] == [];
    assert Total(SellableCapacityOf, bs) == 2;
    TotalSort(BucketOrder, SellableCapacityOf, bs);
  }

  // ---------------------------------------------------------------- by customer

  ghost function LabelSum(a: Alphabet, rows: seq<Rack>, labels: seq<string>): int {
    if labels == [] then 0
    else LabelSum(a, rows, labels[..|labels| - 1]) + SumHeld(a, rows, labels[|labels| - 1], Capacity)
  }

  lemma {:induction false} LabelsDistinct(a: Alphabet, rows: seq<Rack>)
    ensures Distinct(Labels(a, rows))
  {
    if rows != [] { LabelsDistinct(a, rows[..|rows| - 1]); }
  }

  lemma {:induction false} LabelSumAppend(a: Alphabet, rows: seq<Rack>, r: Rack, labels: seq<string>)
    requires Distinct(labels)
    ensures LabelSum(a, rows + [r], labels) ==
              LabelSum(a, rows, labels)
              + if IsColocation(a, r.role) && CustomerLabel(a, r) in labels then r.capacity else 0
  {
    if labels != [] {
      var init, last := labels[..|labels| - 1], labels[|labels| - 1];
      LabelSumAppend(a, rows, r, init);
      assert (rows + [r])[..|rows|] == rows;
      assert CustomerLabel(a, r) in labels <==> CustomerLabel(a, r) in init || CustomerLabel(a, r) == last;
    }
  }

  lemma {:induction false} LabelsPartitionColocation(a: Alphabet, rows: seq<Rack>)
    ensures LabelSum(a, rows, Labels(a, rows)) == SumColocation(a, rows, Capacity)
  {
    if rows != [] {
      var init, r := rows[..|rows| - 1], rows[|rows| - 1];
      var labels := Labels(a, init);
      LabelsPartitionColocation(a, init);
      LabelsDistinct(a, init);
      assert rows == init + [r];
      LabelSumAppend(a, init, r, labels);
      if IsColocation(a, r.role) && CustomerLabel(a, r) !in labels {
        AbsentLabel(a, init, CustomerLabel(a, r));
        assert (labels + [CustomerLabel(a, r)])[..|labels|] == labels;
      }
    }
  }

  lemma {:induction false} EntryTotals(a: Alphabet, rows: seq<Rack>, labels: seq<string>)
    ensures Total(AllottedOf, Entries(a, rows, labels)) == LabelSum(a, rows, labels)
  {
    if labels != [] {
      var init := labels[..|labels| - 1];
      EntryTotals(a, rows, init);
      var es := Entries(a, rows, init);
      assert Entries(a, rows, labels)[..|es|] == es;
    }
  }

  /** The customers' allocations, the unattributed ones included, add up to the colocation estate. */
  lemma CustomersConserveColocation(a: Alphabet, rows: seq<Rack>, rules: RoleRules)
    ensures var agg := Aggregated(a, rows, rules);
            Total(AllottedOf, agg.customers) == agg.colocationAllocated
  {
    EntryTotals(a, rows, Labels(a, rows));
    TotalSort(EntryOrder, AllottedOf, Entries(a, rows, Labels(a, rows)));
    LabelsPartitionColocation(a, rows);
  }

  lemma {:induction false} LabelsMembers(a: Alphabet, rows: seq<Rack>, customer: string)
    ensures customer in Labels(a, rows) <==> exists r :: r in rows && HeldBy(a, r, customer)
  {
    if rows != [] {
      var init, last := rows[..|rows| - 1], rows[|rows| - 1];
      LabelsMembers(a, init, customer);
      assert forall r :: r in rows <==> r in init || r == last;
      assert HeldBy(a, last, customer) ==> exists r :: r in rows && HeldBy(a, r, customer);
      if r :| r in init && HeldBy(a, r, customer) { assert r in rows; }
    }
  }

  lemma {:induction false} EntriesMembers(a: Alphabet, rows: seq<Rack>, labels: seq<string>)
    ensures forall e :: e in Entries(a, rows, labels) <==> e.customer in labels && e == EntryOf(a, rows, e.customer)
    ensures Distinct(labels) ==> Distinct(Entries(a, rows, labels))
  {
    if labels != [] {
      var init := labels[..|labels| - 1];
      EntriesMembers(a, rows, init);
      assert labels == init + [labels[|labels| - 1]];
      var es := Entries(a, rows, init);
      assert forall i :: 0 <= i < |es| ==> es[i] in es;
    }
  }

  /** The customer list holds one entry for each customer that holds a rack, and no other. */
  lemma CustomersAreHolders(a: Alphabet, rows: seq<Rack>, rules: RoleRules)
    ensures var customers := Aggregated(a, rows, rules).customers;
            && Distinct(customers)
            && forall e :: e in customers
                           <==> e == EntryOf(a, rows, e.customer) && exists r :: r in rows && HeldBy(a, r, e.customer)
  {
    var labels := Labels(a, rows);
    var es := Entries(a, rows, labels);
    LabelsDistinct(a, rows);
    EntriesMembers(a, rows, labels);
    SortKeeps(EntryOrder, es);
    SortMembers(EntryOrder, es);
    DistinctReordered(es, SortBy(EntryOrder, es));
    forall e: Entry ensures e.customer in labels <==> exists r :: r in rows && HeldBy(a, r, e.customer) {
      LabelsMembers(a, rows, e.customer);
    }
  }
}
