/**
 Rack roles, customer names and the allocation totals built from them
 (shared/colocation/role_rules.py, shared/colocation/allocation.py).
 */
module Allocation {
  import opened Prelude
  import opened Text
  import opened Sorting

  /** One row of the occupancy query, numbers coerced; `tags` keeps each tag's name where it is a string. */
  datatype Rack = Rack(
    rackId: int, name: Option<string>, dc: Option<string>, hall: Option<string>,
    capacity: int, used: int, free: int, tenants: seq<string>, site: Option<string>,
    role: Option<string>, tags: seq<Option<string>>, description: Option<string>, tenant: Option<string>)

  // ---------------------------------------------------------------- role rules

  datatype RoleRules = RoleRules(sellable: map<string, bool>) {
    /** role_rules.py:38-55: a role without a rule, blank or absent, is sellable. */
    predicate IsSellable(a: Alphabet, role: Option<string>) {
      role == None || a.Strip(role.value) !in sellable || sellable[a.Strip(role.value)]
    }
  }

  const DEFAULT_RULES := RoleRules(map["1" := false, "2" := true, "3" := false, "4" := false])

  const COLOCATION_ROLE_IDS := {"3", "4"}

  predicate IsColocation(a: Alphabet, role: Option<string>) {
    role.Some? && a.Strip(role.value) in COLOCATION_ROLE_IDS
  }

  predicate IsNetwork(a: Alphabet, role: Option<string>) {
    role.Some? && a.Strip(role.value) == "1"
  }

  function RulesOf(a: Alphabet, rows: seq<(Option<string>, bool)>): map<string, bool> {
    if rows == [] then map[]
    else
      var (role, flag) := rows[|rows| - 1];
      var m := RulesOf(a, rows[..|rows| - 1]);
      if role == None || a.Strip(role.value) == "" then m else m[a.Strip(role.value) := flag]
  }

  /** role_rules.py:71-90 */
  method FromRows(a: Alphabet, rows: seq<(Option<string>, bool)>) returns (rules: RoleRules)
    ensures rules == if RulesOf(a, rows) == map[] then DEFAULT_RULES else RoleRules(RulesOf(a, rows))
    ensures "" !in rules.sellable
  {
    var mapping: map<string, bool> := map[];
    for i := 0 to |rows|
      invariant mapping == RulesOf(a, rows[..i]) && "" !in mapping
    {
      assert rows[..i + 1][..i] == rows[..i];
      var (role, flag) := rows[i];
      if role == None || a.Strip(role.value) == "" {
        continue;
      }
      mapping := mapping[a.Strip(role.value) := flag];
    }
    assert rows[..|rows|] == rows;
    rules := if mapping == map[] then DEFAULT_RULES else RoleRules(mapping);
  }

  // ---------------------------------------------------------------- customer names

  const UNATTRIBUTED := "Unattributed"

  predicate AllSpace(a: Alphabet, s: string) {
    s == [] || (a.space(s[0]) && AllSpace(a, s[1..]))
  }

  function SkipSpace(a: Alphabet, s: string): (r: string)
    ensures |r| <= |s|
  {
    if s != [] && a.space(s[0]) then SkipSpace(a, s[1..]) else s
  }

  /** Does all of `s` spell CO LOCATION, any case, any white space between and after? */
  predicate IsMarker(a: Alphabet, s: string) {
    |s| >= 2 && a.Lower(s[..2]) == "co"
    && var rest := SkipSpace(a, s[2..]);
       |rest| >= 8 && a.Lower(rest[..8]) == "location" && AllSpace(a, rest[8..])
  }

  /** Where the trailing marker starts, |s| when there is none: allocation.py:89. */
  function MarkerStart(a: Alphabet, s: string): (i: nat)
    ensures i <= |s|
  {
    if s == [] || IsMarker(a, s) then 0 else 1 + MarkerStart(a, s[1..])
  }

  /** allocation.py:182-203 */
  function TagCustomerName(a: Alphabet, tags: seq<Option<string>>): Option<string> {
    if tags == [] then None
    else
      match tags[0]
      case Some(name) =>
        var i := MarkerStart(a, name);
        var remainder := a.Strip(name[..i]);
        if i < |name| && remainder != "" then Some(remainder) else TagCustomerName(a, tags[1..])
      case None => TagCustomerName(a, tags[1..])
  }

  function NonBlank(a: Alphabet, s: Option<string>): Option<string> {
    if s.Some? && a.Strip(s.value) != "" then Some(a.Strip(s.value)) else None
  }

  /** allocation.py:206-234, first hit wins. */
  function ResolveRackCustomer(a: Alphabet, tenant: Option<string>, tags: seq<Option<string>>,
                               description: Option<string>)
    : Option<string>
  {
    if NonBlank(a, tenant).Some? then NonBlank(a, tenant)
    else if TagCustomerName(a, tags).Some? then TagCustomerName(a, tags)
    else NonBlank(a, description)
  }

  /** `re.sub(r"\s+", " ", s)` */
  function Collapse(a: Alphabet, s: string): string
    decreases |s|
  {
    if s == [] then []
    else if a.space(s[0]) then [' '] + Collapse(a, SkipSpace(a, s[1..]))
    else [s[0]] + Collapse(a, s[1..])
  }

  /** allocation.py:237-249 */
  function NormalizeCustomerName(a: Alphabet, name: string): string {
    a.Upper(Collapse(a, a.Strip(name)))
  }

  /** allocation.py:252-279 */
  function CustomerLabel(a: Alphabet, r: Rack): string {
    match ResolveRackCustomer(a, r.tenant, r.tags, r.description)
    case None => UNATTRIBUTED
    case Some(name) => NormalizeCustomerName(a, name)
  }

  lemma {:induction false} UpperShape(a: Alphabet, s: string)
    requires a.UpperHasNoLower()
    ensures forall x <- a.Upper(s) :: !('a' <= x <= 'z')
  {
    if s != [] { UpperShape(a, s[1..]); }
  }

  /** No customer's normalised name is the sentinel, so the two never share an entry. */
  lemma NoNameIsSentinel(a: Alphabet, name: string)
    requires a.UpperHasNoLower()
    ensures NormalizeCustomerName(a, name) != UNATTRIBUTED
  {
    UpperShape(a, Collapse(a, a.Strip(name)));
    assert UNATTRIBUTED[1] == 'n' && UNATTRIBUTED[1] in UNATTRIBUTED;
  }

  /** A rack carries the sentinel exactly when none of its three fields names anyone. */
  lemma SentinelMeansUnresolved(a: Alphabet, r: Rack)
    requires a.UpperHasNoLower()
    ensures CustomerLabel(a, r) == UNATTRIBUTED <==> ResolveRackCustomer(a, r.tenant, r.tags, r.description) == None
  {
    match ResolveRackCustomer(a, r.tenant, r.tags, r.description) {
      case None =>
      case Some(name) => NoNameIsSentinel(a, name);
    }
  }

  // ---------------------------------------------------------------- sums over racks

  function Capacity(r: Rack): int { r.capacity }
  function Used(r: Rack): int { r.used }
  function Free(r: Rack): int { r.free }
  function One(r: Rack): int { 1 }

  function Sum(rows: seq<Rack>, f: Rack -> int): int {
    if rows == [] then 0 else Sum(rows[..|rows| - 1], f) + f(rows[|rows| - 1])
  }

  /** Over the racks that may be sold. */
  function SumSellable(a: Alphabet, rules: RoleRules, rows: seq<Rack>, f: Rack -> int): int {
    if rows == [] then 0
    else
      SumSellable(a, rules, rows[..|rows| - 1], f)
      + if rules.IsSellable(a, rows[|rows| - 1].role) then f(rows[|rows| - 1]) else 0
  }

  /** Over the network racks that may not be sold. */
  function SumNetwork(a: Alphabet, rules: RoleRules, rows: seq<Rack>, f: Rack -> int): int {
    if rows == [] then 0
    else
      var r := rows[|rows| - 1];
      SumNetwork(a, rules, rows[..|rows| - 1], f)
      + if !rules.IsSellable(a, r.role) && IsNetwork(a, r.role) then f(r) else 0
  }

  function RoleKey(a: Alphabet, r: Rack): string {
    if r.role == None then "" else a.Strip(r.role.value)
  }

  function SumRole(a: Alphabet, rows: seq<Rack>, key: string, f: Rack -> int): int {
    if rows == [] then 0
    else SumRole(a, rows[..|rows| - 1], key, f) + if RoleKey(a, rows[|rows| - 1]) == key then f(rows[|rows| - 1]) else 0
  }

  predicate HeldBy(a: Alphabet, r: Rack, customer: string) {
    IsColocation(a, r.role) && CustomerLabel(a, r) == customer
  }

  function SumHeld(a: Alphabet, rows: seq<Rack>, customer: string, f: Rack -> int): int {
    if rows == [] then 0
    else
      SumHeld(a, rows[..|rows| - 1], customer, f)
      + if HeldBy(a, rows[|rows| - 1], customer) then f(rows[|rows| - 1]) else 0
  }

  function SumColocation(a: Alphabet, rows: seq<Rack>, f: Rack -> int): int {
    if rows == [] then 0
    else
      SumColocation(a, rows[..|rows| - 1], f)
      + if IsColocation(a, rows[|rows| - 1].role) then f(rows[|rows| - 1]) else 0
  }

  /** allocation.py:130-153 */
  method SellableRackTotals(a: Alphabet, rows: seq<Rack>, rules: RoleRules) returns (capacity: int, used: int)
    ensures capacity == SumSellable(a, rules, rows, Capacity)
    ensures used == SumSellable(a, rules, rows, Used)
  {
    capacity, used := 0, 0;
    for i := 0 to |rows|
      invariant capacity == SumSellable(a, rules, rows[..i], Capacity)
      invariant used == SumSellable(a, rules, rows[..i], Used)
    {
      assert rows[..i + 1][..i] == rows[..i];
      if !rules.IsSellable(a, rows[i].role) {
        continue;
      }
      capacity := capacity + rows[i].capacity;
      used := used + rows[i].used;
    }
    assert rows[..|rows|] == rows;
  }

  // ---------------------------------------------------------------- the aggregate

  datatype Bucket = Bucket(roleId: string, sellable: bool, rackCount: int, capacity: int, used: int, free: int)

  datatype Entry = Entry(customer: string, allotted: int, used: int, rackCount: int, racks: seq<string>)

  datatype Aggregate = Aggregate(
    customers: seq<Entry>, colocationAllocated: int,
    sellableFree: int, sellableCapacity: int, sellableUsed: int,
    networkFree: int, networkCapacity: int, networkRacks: int,
    roleBreakdown: seq<Bucket>)

  /** The role keys in order of first appearance. */
  function RoleKeys(a: Alphabet, rows: seq<Rack>): seq<string> {
    if rows == [] then []
    else
      var keys, k := RoleKeys(a, rows[..|rows| - 1]), RoleKey(a, rows[|rows| - 1]);
      if k in keys then keys else keys + [k]
  }

  /** Whether the first rack with this role key may be sold; the bucket takes its flag from it. */
  predicate FirstSellable(a: Alphabet, rules: RoleRules, rows: seq<Rack>, key: string) {
    rows != [] &&
    if RoleKey(a, rows[0]) == key then rules.IsSellable(a, rows[0].role) else FirstSellable(a, rules, rows[1..], key)
  }

  function BucketOf(a: Alphabet, rules: RoleRules, rows: seq<Rack>, key: string): Bucket {
    Bucket(key, FirstSellable(a, rules, rows, key), SumRole(a, rows, key, One),
           SumRole(a, rows, key, Capacity), SumRole(a, rows, key, Used), SumRole(a, rows, key, Free))
  }

  function Labels(a: Alphabet, rows: seq<Rack>): seq<string> {
    if rows == [] then []
    else
      var labels, r := Labels(a, rows[..|rows| - 1]), rows[|rows| - 1];
      if !IsColocation(a, r.role) || CustomerLabel(a, r) in labels then labels else labels + [CustomerLabel(a, r)]
  }

  function RackNames(a: Alphabet, rows: seq<Rack>, customer: string): seq<string> {
    if rows == [] then []
    else
      var names, r := RackNames(a, rows[..|rows| - 1], customer), rows[|rows| - 1];
      if HeldBy(a, r, customer) && r.name.Some? && r.name.value != "" && r.name.value !in names
      then names + [r.name.value]
      else names
  }

  function EntryOf(a: Alphabet, rows: seq<Rack>, customer: string): Entry {
    Entry(customer, SumHeld(a, rows, customer, Capacity), SumHeld(a, rows, customer, Used),
          SumHeld(a, rows, customer, One), RackNames(a, rows, customer))
  }

  /** Largest allocation first, then by name. */
  predicate EntryOrder(x: Entry, y: Entry) {
    x.allotted > y.allotted || (x.allotted == y.allotted && LexLe(x.customer, y.customer))
  }

  /** Sellable first, then most free space, then by role. */
  predicate BucketOrder(x: Bucket, y: Bucket) {
    (x.sellable && !y.sellable)
    || (x.sellable == y.sellable && (x.free > y.free || (x.free == y.free && LexLe(x.roleId, y.roleId))))
  }

  function Entries(a: Alphabet, rows: seq<Rack>, labels: seq<string>): seq<Entry> {
    if labels == [] then [] else Entries(a, rows, labels[..|labels| - 1]) + [EntryOf(a, rows, labels[|labels| - 1])]
  }

  function Buckets(a: Alphabet, rules: RoleRules, rows: seq<Rack>, keys: seq<string>): seq<Bucket> {
    if keys == [] then []
    else Buckets(a, rules, rows, keys[..|keys| - 1]) + [BucketOf(a, rules, rows, keys[|keys| - 1])]
  }

  function Aggregated(a: Alphabet, rows: seq<Rack>, rules: RoleRules): Aggregate {
    Aggregate(
      SortBy(EntryOrder, Entries(a, rows, Labels(a, rows))), SumColocation(a, rows, Capacity),
      SumSellable(a, rules, rows, Free), SumSellable(a, rules, rows, Capacity), SumSellable(a, rules, rows, Used),
      SumNetwork(a, rules, rows, Free), SumNetwork(a, rules, rows, Capacity), SumNetwork(a, rules, rows, One),
      SortBy(BucketOrder, Buckets(a, rules, rows, RoleKeys(a, rows))))
  }

  lemma {:induction false} FirstSellableAppend(a: Alphabet, rules: RoleRules, rows: seq<Rack>, r: Rack, key: string)
    ensures FirstSellable(a, rules, rows + [r], key) ==
              if key in RoleKeys(a, rows) then FirstSellable(a, rules, rows, key)
              else RoleKey(a, r) == key && rules.IsSellable(a, r.role)
  {
    RoleKeysMembers(a, rows, key);
    if rows != [] {
      FirstSellableAppend(a, rules, rows[1..], r, key);
      RoleKeysMembers(a, rows[1..], key);
      assert (rows + [r])[1..] == rows[1..] + [r];
      assert (exists i :: 0 <= i < |rows| && RoleKey(a, rows[i]) == key) <==>
               RoleKey(a, rows[0]) == key || exists i :: 0 <= i < |rows[1..]| && RoleKey(a, rows[1..][i]) == key by {
        if i :| 0 < i < |rows| && RoleKey(a, rows[i]) == key { assert rows[1..][i - 1] == rows[i]; }
      }
    } else {
      assert [r][1..] == [];
      assert rows + [r] == [r];
    }
  }

  lemma {:induction false} RoleKeysMembers(a: Alphabet, rows: seq<Rack>, key: string)
    ensures key in RoleKeys(a, rows) <==> exists i :: 0 <= i < |rows| && RoleKey(a, rows[i]) == key
  {
    if rows != [] {
      var init := rows[..|rows| - 1];
      RoleKeysMembers(a, init, key);
      if i :| 0 <= i < |init| && RoleKey(a, init[i]) == key { assert rows[i] == init[i]; }
      if i :| 0 <= i < |rows| && RoleKey(a, rows[i]) == key && i < |init| { assert rows[i] == init[i]; }
    }
  }

  lemma BucketAppend(a: Alphabet, rules: RoleRules, rows: seq<Rack>, r: Rack, key: string)
    ensures var b := BucketOf(a, rules, rows, key);
            BucketOf(a, rules, rows + [r], key) ==
            if RoleKey(a, r) == key then
              Bucket(key, if key in RoleKeys(a, rows) then b.sellable else rules.IsSellable(a, r.role),
                     b.rackCount + 1, b.capacity + r.capacity, b.used + r.used, b.free + r.free)
            else b
  {
    assert (rows + [r])[..|rows|] == rows;
    FirstSellableAppend(a, rules, rows, r, key);
    if key !in RoleKeys(a, rows) { AbsentKey(a, rules, rows, key); }
  }

  lemma {:induction false} AbsentKey(a: Alphabet, rules: RoleRules, rows: seq<Rack>, key: string)
    requires key !in RoleKeys(a, rows)
    ensures !FirstSellable(a, rules, rows, key)
    ensures SumRole(a, rows, key, One) == SumRole(a, rows, key, Capacity) == 0
    ensures SumRole(a, rows, key, Used) == SumRole(a, rows, key, Free) == 0
  {
    if rows != [] {
      AbsentKey(a, rules, rows[..|rows| - 1], key);
      FirstSellableAppend(a, rules, rows[..|rows| - 1], rows[|rows| - 1], key);
      assert rows == rows[..|rows| - 1] + [rows[|rows| - 1]];
    }
  }

  lemma EntryAppend(a: Alphabet, rows: seq<Rack>, r: Rack, customer: string)
    ensures var e := EntryOf(a, rows, customer);
            EntryOf(a, rows + [r], customer) ==
            if HeldBy(a, r, customer) then
              Entry(customer, e.allotted + r.capacity, e.used + r.used, e.rackCount + 1,
                    if r.name.Some? && r.name.value != "" && r.name.value !in e.racks
                    then e.racks + [r.name.value] else e.racks)
            else e
  {
  }

  lemma {:induction false} AbsentLabel(a: Alphabet, rows: seq<Rack>, customer: string)
    requires customer !in Labels(a, rows)
    ensures EntryOf(a, rows, customer) == Entry(customer, 0, 0, 0, [])
  {
    if rows != [] {
      AbsentLabel(a, rows[..|rows| - 1], customer);
      EntryAppend(a, rows[..|rows| - 1], rows[|rows| - 1], customer);
      assert rows == rows[..|rows| - 1] + [rows[|rows| - 1]];
    }
  }

  /** The dictionaries the loop fills, with the order their keys came in. */
  datatype Tables = Tables(keys: seq<string>, byRole: map<string, Bucket>, labels: seq<string>,
      byCustomer: map<string, Entry>)

  ghost predicate Tabulated(a: Alphabet, rules: RoleRules, rows: seq<Rack>, t: Tables) {
    && t.keys == RoleKeys(a, rows) && t.labels == Labels(a, rows)
    && (forall k :: k in t.byRole <==> k in t.keys)
    && (forall k :: k in t.byRole ==> t.byRole[k] == BucketOf(a, rules, rows, k))
    && (forall l :: l in t.byCustomer <==> l in t.labels)
    && (forall l :: l in t.byCustomer ==> t.byCustomer[l] == EntryOf(a, rows, l))
  }

  /** allocation.py:340-353: one rack into its role's bucket. */
  method AddToRole(a: Alphabet, rules: RoleRules, t: Tables, r: Rack, ghost rows: seq<Rack>) returns (t': Tables)
    requires Tabulated(a, rules, rows, t)
    ensures t'.keys == RoleKeys(a, rows + [r]) && t'.labels == t.labels && t'.byCustomer == t.byCustomer
    ensures forall k :: k in t'.byRole <==> k in t'.keys
    ensures forall k :: k in t'.byRole ==> t'.byRole[k] == BucketOf(a, rules, rows + [r], k)
  {
    assert (rows + [r])[..|rows|] == rows;
    var key := RoleKey(a, r);
    t' := t;
    if key !in t'.byRole {
      AbsentKey(a, rules, rows, key);
      t' := t'.(keys := t'.keys + [key],
                byRole := t'.byRole[key := Bucket(key, rules.IsSellable(a, r.role), 0, 0, 0, 0)]);
    }
    var b := t'.byRole[key];
    BucketAppend(a, rules, rows, r, key);
    b := b.(rackCount := b.rackCount + 1, capacity := b.capacity + r.capacity, used := b.used + r.used,
        free := b.free + r.free);
    t' := t'.(byRole := t'.byRole[key := b]);
    forall k | k in t'.byRole ensures t'.byRole[k] == BucketOf(a, rules, rows + [r], k) {
      if k != key { BucketAppend(a, rules, rows, r, k); }
    }
  }

  /** allocation.py:369-384: one colocation rack into its customer's entry. */
  method AddToCustomer(a: Alphabet, t: Tables, r: Rack, ghost rows: seq<Rack>) returns (t': Tables)
    requires t.labels == Labels(a, rows)
    requires forall l :: l in t.byCustomer <==> l in t.labels
    requires forall l :: l in t.byCustomer ==> t.byCustomer[l] == EntryOf(a, rows, l)
    ensures t'.keys == t.keys && t'.byRole == t.byRole && t'.labels == Labels(a, rows + [r])
    ensures forall l :: l in t'.byCustomer <==> l in t'.labels
    ensures forall l :: l in t'.byCustomer ==> t'.byCustomer[l] == EntryOf(a, rows + [r], l)
  {
    assert (rows + [r])[..|rows|] == rows;
    t' := t;
    if !IsColocation(a, r.role) {
      forall l | l in t.byCustomer ensures t.byCustomer[l] == EntryOf(a, rows + [r], l) { EntryAppend(a, rows, r, l); }
      return;
    }
    var customer := CustomerLabel(a, r);
    if customer !in t'.byCustomer {
      AbsentLabel(a, rows, customer);
      t' := t'.(labels := t'.labels + [customer],
          byCustomer := t'.byCustomer[customer := Entry(customer, 0, 0, 0, [])]);
    }
    var e := t'.byCustomer[customer];
    e := e.(allotted := e.allotted + r.capacity, used := e.used + r.used, rackCount := e.rackCount + 1);
    if r.name.Some? && r.name.value != "" && r.name.value !in e.racks {
      e := e.(racks := e.racks + [r.name.value]);
    }
    EntryAppend(a, rows, r, customer);
    t' := t'.(byCustomer := t'.byCustomer[customer := e]);
    forall l | l in t'.byCustomer ensures t'.byCustomer[l] == EntryOf(a, rows + [r], l) {
      if l != customer { EntryAppend(a, rows, r, l); }
    }
  }

  /** The scalar totals the loop runs. */
  datatype Totals = Totals(
    colocation: int, sellableFree: int, sellableCapacity: int, sellableUsed: int,
    networkFree: int, networkCapacity: int, networkRacks: int)

  function TotalsOf(a: Alphabet, rules: RoleRules, rows: seq<Rack>): Totals {
    Totals(SumColocation(a, rows, Capacity),
           SumSellable(a, rules, rows, Free), SumSellable(a, rules, rows, Capacity), SumSellable(a, rules, rows, Used),
           SumNetwork(a, rules, rows, Free), SumNetwork(a, rules, rows, Capacity), SumNetwork(a, rules, rows, One))
  }

  /** allocation.py:355-367: one rack into the scalar totals. */
  method AddToTotals(a: Alphabet, rules: RoleRules, t: Totals, r: Rack, ghost rows: seq<Rack>) returns (t': Totals)
    requires t == TotalsOf(a, rules, rows)
    ensures t' == TotalsOf(a, rules, rows + [r])
  {
    assert (rows + [r])[..|rows|] == rows;
    t' := t;
    if rules.IsSellable(a, r.role) {
      t' := t'.(sellableFree := t'.sellableFree + r.free, sellableCapacity := t'.sellableCapacity + r.capacity,
                sellableUsed := t'.sellableUsed + r.used);
    } else if IsNetwork(a, r.role) {
      t' := t'.(networkFree := t'.networkFree + r.free, networkCapacity := t'.networkCapacity + r.capacity,
                networkRacks := t'.networkRacks + 1);
    }
    if IsColocation(a, r.role) {
      t' := t'.(colocation := t'.colocation + r.capacity);
    }
  }

  /** allocation.py:282-404 */
  method AggregateRackAllocations(a: Alphabet, rows: seq<Rack>, rules: RoleRules) returns (agg: Aggregate)
    ensures agg == Aggregated(a, rows, rules)
  {
    var t := Tables([], map[], [], map[]);
    var sums := Totals(0, 0, 0, 0, 0, 0, 0);
    for i := 0 to |rows|
      invariant Tabulated(a, rules, rows[..i], t)
      invariant sums == TotalsOf(a, rules, rows[..i])
    {
      assert rows[..i + 1] == rows[..i] + [rows[i]];
      sums := AddToTotals(a, rules, sums, rows[i], rows[..i]);
      t := AddToRole(a, rules, t, rows[i], rows[..i]);
      t := AddToCustomer(a, t, rows[i], rows[..i]);
    }
    assert rows[..|rows|] == rows;
    var customers := SortedEntries(a, rows, t);
    var roleBreakdown := SortedBuckets(a, rules, rows, t);
    agg := Aggregate(customers, sums.colocation, sums.sellableFree, sums.sellableCapacity, sums.sellableUsed,
                     sums.networkFree, sums.networkCapacity, sums.networkRacks, roleBreakdown);
  }

  method SortedEntries(a: Alphabet, ghost rows: seq<Rack>, t: Tables) returns (customers: seq<Entry>)
    requires forall l :: l in t.labels ==> l in t.byCustomer && t.byCustomer[l] == EntryOf(a, rows, l)
    ensures customers == SortBy(EntryOrder, Entries(a, rows, t.labels))
  {
    var entries: seq<Entry> := [];
    for i := 0 to |t.labels|
      invariant entries == Entries(a, rows, t.labels[..i])
    {
      assert t.labels[..i + 1][..i] == t.labels[..i];
      entries := entries + [t.byCustomer[t.labels[i]]];
    }
    assert t.labels[..|t.labels|] == t.labels;
    customers := SortBy(EntryOrder, entries);
  }

  method SortedBuckets(a: Alphabet, rules: RoleRules, ghost rows: seq<Rack>, t: Tables) returns (breakdown: seq<Bucket>)
    requires forall k :: k in t.keys ==> k in t.byRole && t.byRole[k] == BucketOf(a, rules, rows, k)
    ensures breakdown == SortBy(BucketOrder, Buckets(a, rules, rows, t.keys))
  {
    var buckets: seq<Bucket> := [];
    for i := 0 to |t.keys|
      invariant buckets == Buckets(a, rules, rows, t.keys[..i])
    {
      assert t.keys[..i + 1][..i] == t.keys[..i];
      buckets := buckets + [t.byRole[t.keys[i]]];
    }
    assert t.keys[..|t.keys|] == t.keys;
    breakdown := SortBy(BucketOrder, buckets);
  }
}
