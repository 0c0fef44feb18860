/**
 The two occupancy queries, stated over the devices they read, and what the Python code makes of
 their rows: merged used space is a direct count of slots, and the tenant breakdown adds up to it.
 No data-centre filter.
 */
module SlotCount {
  import opened Prelude
  import opened Text
  import opened Allocation
  import opened Occupancy
  import opened OccupancyLaws

  /** A device of the inventory; `position` is already rounded down. */
  datatype Device = Device(
    rackName: Option<string>, site: Option<string>, position: Option<int>, height: Option<int>,
    face: Option<string>, tenant: Option<string>)

  // ---------------------------------------------------------------- what the queries say

  /** Placed in a rack, front face: occupancy.py:54-55. */
  predicate Mounted(a: Alphabet, d: Device) {
    d.position.Some? && a.Lower(match d.face case Some(f) => f case None => "front") in ["front", ""]
  }

  /** An unknown or zero height counts as one unit, and so does a negative one. */
  function Height(d: Device): int {
    if d.height == None || d.height == Some(0) then 1 else MaxInt(d.height.value, 1)
  }

  function GenerateSeries(first: int, last: int): (r: set<int>)
    ensures forall u :: u in r <==> first <= u <= last
    decreases last - first
  {
    if last < first then {} else GenerateSeries(first, last - 1) + {last}
  }

  function DeviceSlots(d: Device): set<int>
    requires d.position.Some?
  {
    GenerateSeries(d.position.value, d.position.value + Height(d) - 1)
  }

  /** A device joins a rack by name and site; a name that is absent joins nothing. */
  predicate Joins(a: Alphabet, d: Device, name: Option<string>, site: Option<string>) {
    Mounted(a, d) && d.rackName.Some? && d.rackName == name && SameSite(d.site, site)
  }

  function SlotsAt(a: Alphabet, devices: seq<Device>, name: Option<string>, site: Option<string>): set<int> {
    if devices == [] then {}
    else
      var d := devices[|devices| - 1];
      SlotsAt(a, devices[..|devices| - 1], name, site) + if Joins(a, d, name, site) then DeviceSlots(d) else {}
  }

  function InRange(slots: set<int>, capacity: int): set<int> {
    set u | u in slots && 1 <= u <= capacity
  }

  /** A row the occupancy query returns: occupancy.py:76-81, absent numbers read as 0. */
  ghost predicate FromQuery(a: Alphabet, devices: seq<Device>, r: Rack) {
    && r.used == |InRange(SlotsAt(a, devices, r.name, r.site), r.capacity)|
    && r.free == MaxInt(r.capacity - r.used, 0)
  }

  /** A row of the breakdown query. */
  datatype SlotRow = SlotRow(rackName: Option<string>, site: Option<string>, u: int, tenant: Option<string>)

  /**
   occupancy.py:465-471: a slot of a mounted device, within the greatest capacity recorded for its
   rack, which is to say within some recorded capacity.
   */
  ghost predicate InBreakdown(a: Alphabet, devices: seq<Device>, racks: seq<Rack>, s: SlotRow) {
    exists d, r :: && d in devices && r in racks && Joins(a, d, r.name, r.site)
                   && s.rackName == d.rackName && s.site == d.site && s.tenant == d.tenant
                   && s.u in DeviceSlots(d) && 1 <= s.u <= r.capacity
  }

  // ---------------------------------------------------------------- merged used space is a direct count

  lemma {:induction false} CountUpTo(slots: set<int>, capacity: int)
    requires capacity >= 0
    ensures |InRange(slots, capacity)| <= capacity
  {
    if capacity == 0 {
      assert InRange(slots, 0) == {};
    } else {
      CountUpTo(slots, capacity - 1);
      var below := InRange(slots, capacity - 1);
      assert InRange(slots, capacity) == if capacity in slots then below + {capacity} else below;
    }
  }

  lemma SubsetCount(x: set<int>, y: set<int>)
    requires x <= y
    ensures |x| <= |y|
  {
    assert y == x + (y - x);
  }

  /** A site written in two ways holds the same slots. */
  lemma {:induction false} SlotsOfSite(a: Alphabet, devices: seq<Device>, name: Option<string>, x: Option<string>,
                                       y: Option<string>)
    requires SameSite(x, y)
    ensures SlotsAt(a, devices, name, x) == SlotsAt(a, devices, name, y)
  {
    if devices != [] { SlotsOfSite(a, devices[..|devices| - 1], name, x, y); }
  }

  /**
   Merging the duplicates of one rack gives its distinct occupied slots, counted directly within its
   greatest recorded capacity. Used and free space make up the capacity.
   */
  lemma MergedUseIsDirectCount(a: Alphabet, devices: seq<Device>, group: seq<Rack>, name: Option<string>,
                               site: Option<string>)
    requires group != []
    requires forall r <- group :: FromQuery(a, devices, r) && r.name == name && SameSite(r.site, site)
    ensures var m := Merge(a, group);
            && m.capacity == MaxOf(group, Capacity)
            && m.used == |InRange(SlotsAt(a, devices, name, site), m.capacity)|
            && m.used + m.free == m.capacity
  {
    var slots, cap := SlotsAt(a, devices, name, site), MaxOf(group, Capacity);
    MergeFigures(a, group);
    MaxOfBounds(group, Capacity);
    MaxOfBounds(group, Used);
    CountUpTo(slots, cap);
    forall r | r in group ensures SlotsAt(a, devices, r.name, r.site) == slots && r.used <= |InRange(slots, cap)| {
      SlotsOfSite(a, devices, name, r.site, site);
      SubsetCount(InRange(slots, r.capacity), InRange(slots, cap));
    }
    if cap > 0 {
      var r :| r in group && Capacity(r) == cap;
      assert r.used == |InRange(slots, cap)|;
      assert Used(r) <= MaxOf(group, Used);
    } else {
      assert InRange(slots, cap) == {};
    }
  }

  // ---------------------------------------------------------------- classifying slots

  type Slot = (Key, int)

  function SlotOf(s: SlotRow): Slot {
    ((s.rackName, OrBlank(s.site)), s.u)
  }

  /** Two rows tell of one slot when name and unit are the same and the site is, absent or blank alike. */
  lemma OneSlotExactly(s: SlotRow, t: SlotRow)
    ensures SlotOf(s) == SlotOf(t) <==> s.rackName == t.rackName && SameSite(s.site, t.site) && s.u == t.u
  {
  }

  /** occupancy.py:318-328, with the prefixes given. */
  predicate IsInternalTenant(a: Alphabet, name: string, prefixes: seq<string>) {
    exists i | 0 <= i < |prefixes| :: StartsWith(a.Lower(a.Strip(name)), prefixes[i])
  }

  /** External 2, internal 1, untagged 0. */
  function Rank(a: Alphabet, prefixes: seq<string>, s: SlotRow): int {
    var t := a.Strip(OrBlank(s.tenant));
    if t == "" then 0 else if IsInternalTenant(a, t, prefixes) then 1 else 2
  }

  function Best(a: Alphabet, prefixes: seq<string>, rows: seq<SlotRow>): map<Slot, int> {
    if rows == [] then map[]
    else
      var best, s := Best(a, prefixes, rows[..|rows| - 1]), rows[|rows| - 1];
      if SlotOf(s) !in best || Rank(a, prefixes, s) > best[SlotOf(s)]
      then best[SlotOf(s) := Rank(a, prefixes, s)]
      else best
  }

  function OfRank(best: map<Slot, int>, rank: int): set<Slot> {
    set k | k in best && best[k] == rank
  }

  function ExternalNames(a: Alphabet, prefixes: seq<string>, rows: seq<SlotRow>): set<string> {
    set s | s in rows && Rank(a, prefixes, s) == 2 :: a.Strip(OrBlank(s.tenant))
  }

  datatype Breakdown = Breakdown(external: int, internal_: int, untagged: int, externalCustomers: int)

  function Classified(a: Alphabet, prefixes: seq<string>, rows: seq<SlotRow>): Breakdown {
    var best := Best(a, prefixes, rows);
    Breakdown(|OfRank(best, 2)|, |OfRank(best, 1)|, |OfRank(best, 0)|, |ExternalNames(a, prefixes, rows)|)
  }

  /** occupancy.py:475-506 */
  method ClassifySlots(a: Alphabet, prefixes: seq<string>, rows: seq<SlotRow>) returns (b: Breakdown)
    ensures b == Classified(a, prefixes, rows)
  {
    var best: map<Slot, int> := map[];
    var externalNames: set<string> := {};
    for i := 0 to |rows|
      invariant best == Best(a, prefixes, rows[..i])
      invariant externalNames == ExternalNames(a, prefixes, rows[..i])
    {
      assert rows[..i + 1][..i] == rows[..i];
      assert forall s :: s in rows[..i + 1] <==> s in rows[..i] || s == rows[i];
      var key := SlotOf(rows[i]);
      var t := a.Strip(OrBlank(rows[i].tenant));
      var rank := 0;
      if t != "" {
        if IsInternalTenant(a, t, prefixes) {
          rank := 1;
        } else {
          rank := 2;
          externalNames := externalNames + {t};
        }
      }
      if key !in best || rank > best[key] {
        best := best[key := rank];
      }
    }
    assert rows[..|rows|] == rows;
    b := Breakdown(|OfRank(best, 2)|, |OfRank(best, 1)|, |OfRank(best, 0)|, |externalNames|);
  }

  /** Each slot has exactly one class: that of the highest-ranking tenant found in it. */
  lemma {:induction false} BestIsHighestRank(a: Alphabet, prefixes: seq<string>, rows: seq<SlotRow>, k: Slot)
    ensures k in Best(a, prefixes, rows) <==> exists s :: s in rows && SlotOf(s) == k
    ensures k in Best(a, prefixes, rows) ==>
              && (exists s :: s in rows && SlotOf(s) == k && Rank(a, prefixes, s) == Best(a, prefixes, rows)[k])
              && forall s :: s in rows && SlotOf(s) == k ==> Rank(a, prefixes, s) <= Best(a, prefixes, rows)[k]
  {
    if rows != [] {
      var init, last := rows[..|rows| - 1], rows[|rows| - 1];
      BestIsHighestRank(a, prefixes, init, k);
      assert forall s :: s in rows <==> s in init || s == last;
    }
  }

  lemma ClassesPartitionSlots(a: Alphabet, prefixes: seq<string>, rows: seq<SlotRow>)
    ensures var b := Classified(a, prefixes, rows);
            b.external + b.internal_ + b.untagged == |Best(a, prefixes, rows).Keys|
  {
    var best := Best(a, prefixes, rows);
    forall k | k in best ensures best[k] in {0, 1, 2} {
      BestIsHighestRank(a, prefixes, rows, k);
    }
    assert best.Keys == OfRank(best, 2) + OfRank(best, 1) + OfRank(best, 0);
  }

  /** Somebody else's: there is a tenant, and its name begins with none of the prefixes. */
  ghost predicate ExternalRow(a: Alphabet, prefixes: seq<string>, s: SlotRow) {
    var t := a.Strip(OrBlank(s.tenant));
    t != "" && forall p <- prefixes :: !(p <= a.Lower(t))
  }

  /** Our own: there is a tenant, and its name begins with one of the prefixes. */
  ghost predicate InternalRow(a: Alphabet, prefixes: seq<string>, s: SlotRow) {
    var t := a.Strip(OrBlank(s.tenant));
    t != "" && exists p <- prefixes :: p <= a.Lower(t)
  }

  lemma InternalExactly(a: Alphabet, name: string, prefixes: seq<string>)
    ensures IsInternalTenant(a, name, prefixes) <==> exists p <- prefixes :: p <= a.Lower(a.Strip(name))
  {
    if IsInternalTenant(a, name, prefixes) {
      var i :| 0 <= i < |prefixes| && StartsWith(a.Lower(a.Strip(name)), prefixes[i]);
      assert prefixes[i] in prefixes;
    }
    if p :| p in prefixes && p <= a.Lower(a.Strip(name)) {
      var i :| 0 <= i < |prefixes| && prefixes[i] == p;
      assert StartsWith(a.Lower(a.Strip(name)), prefixes[i]);
    }
  }

  lemma RankExactly(a: Alphabet, prefixes: seq<string>, s: SlotRow)
    ensures Rank(a, prefixes, s) == 2 <==> ExternalRow(a, prefixes, s)
    ensures Rank(a, prefixes, s) == 1 <==> InternalRow(a, prefixes, s)
    ensures 0 <= Rank(a, prefixes, s) <= 2
  {
    StripTwice(a, OrBlank(s.tenant));
    InternalExactly(a, a.Strip(OrBlank(s.tenant)), prefixes);
  }

  /** Somebody else was found in the slot. */
  ghost predicate FoundExternal(a: Alphabet, prefixes: seq<string>, rows: seq<SlotRow>, k: Slot) {
    exists s <- rows :: SlotOf(s) == k && ExternalRow(a, prefixes, s)
  }

  ghost predicate FoundInternal(a: Alphabet, prefixes: seq<string>, rows: seq<SlotRow>, k: Slot) {
    exists s <- rows :: SlotOf(s) == k && InternalRow(a, prefixes, s)
  }

  ghost predicate Found(rows: seq<SlotRow>, k: Slot) {
    exists s <- rows :: SlotOf(s) == k
  }

  lemma ClassOfSlot(a: Alphabet, prefixes: seq<string>, rows: seq<SlotRow>, k: Slot)
    ensures var best := Best(a, prefixes, rows);
            var external, internal_ := FoundExternal(a, prefixes, rows, k), FoundInternal(a, prefixes, rows, k);
            && (k in OfRank(best, 2) <==> external) && (k in OfRank(best, 1) <==> internal_ && !external)
            && (k in OfRank(best, 0) <==> Found(rows, k) && !external && !internal_)
  {
    BestIsHighestRank(a, prefixes, rows, k);
    forall s { RankExactly(a, prefixes, s); }
  }

  /** The sets hold the slots of each class and the external customers' trimmed names. */
  ghost predicate AreClasses(a: Alphabet, prefixes: seq<string>, rows: seq<SlotRow>, external: set<Slot>,
                             internal_: set<Slot>, untagged: set<Slot>, names: set<string>) {
    && (forall k :: k in external <==> FoundExternal(a, prefixes, rows, k))
    && (forall k :: k in internal_ <==> FoundInternal(a, prefixes, rows, k) && k !in external)
    && (forall k :: k in untagged <==> Found(rows, k) && k !in external && k !in internal_)
    && (forall n :: n in names <==>
                    exists s <- rows :: ExternalRow(a, prefixes, s) && a.Strip(OrBlank(s.tenant)) == n)
  }

  /**
   Space is external where any tenant found in the slot is, else internal where any is, else untagged;
   external customers are counted by their distinct trimmed names.
   */
  lemma ClassesExactly(a: Alphabet, prefixes: seq<string>, rows: seq<SlotRow>, external: set<Slot>,
                       internal_: set<Slot>, untagged: set<Slot>, names: set<string>)
    requires AreClasses(a, prefixes, rows, external, internal_, untagged, names)
    ensures Classified(a, prefixes, rows) == Breakdown(|external|, |internal_|, |untagged|, |names|)
  {
    var best := Best(a, prefixes, rows);
    forall k ensures k in OfRank(best, 2) <==> k in external { ClassOfSlot(a, prefixes, rows, k); }
    forall k ensures k in OfRank(best, 1) <==> k in internal_ { ClassOfSlot(a, prefixes, rows, k); }
    forall k ensures k in OfRank(best, 0) <==> k in untagged { ClassOfSlot(a, prefixes, rows, k); }
    forall s { RankExactly(a, prefixes, s); }
    assert ExternalNames(a, prefixes, rows) == names;
    assert OfRank(best, 2) == external && OfRank(best, 1) == internal_ && OfRank(best, 0) == untagged;
  }

  /** A device fills its height from its position up; unknown, zero and negative heights fill one unit. */
  lemma SlotsFilled(d: Device, u: int)
    requires d.position.Some?
    ensures u in DeviceSlots(d)
            <==> u == d.position.value
                 || (d.height.Some? && d.position.value <= u < d.position.value + d.height.value)
  {
  }

  /** Counted are the devices placed in a rack whose face is the front, blank or not given. */
  lemma MountedExactly(a: Alphabet, d: Device)
    requires a.KeepsKeywords()
    ensures Mounted(a, d)
            <==> d.position.Some? && (d.face == None || a.Lower(d.face.value) == "front" || d.face.value == "")
  {
    KeywordKept(a, "front");
  }

  // ---------------------------------------------------------------- the breakdown adds up

  function Tag<T(!new)>(key: Key, slots: set<T>): set<(Key, T)> {
    set u | u in slots :: (key, u)
  }

  lemma {:induction false} TagCount<T(!new)>(key: Key, slots: set<T>)
    ensures |Tag(key, slots)| == |slots|
  {
    if slots != {} {
      var u :| u in slots;
      TagCount(key, slots - {u});
      assert Tag(key, slots) == Tag(key, slots - {u}) + {(key, u)};
    }
  }

  /** The occupied slots of the physical rack `key`, within its greatest capacity. */
  ghost function Occupied(a: Alphabet, devices: seq<Device>, rows: seq<Rack>, key: Key): set<int> {
    InRange(SlotsAt(a, devices, key.0, Some(key.1)), MaxOf(Group(rows, key), Capacity))
  }

  ghost function AllOccupied(a: Alphabet, devices: seq<Device>, rows: seq<Rack>, keys: seq<Key>): set<Slot> {
    if keys == [] then {}
    else
      var k := keys[|keys| - 1];
      AllOccupied(a, devices, rows, keys[..|keys| - 1]) + Tag(k, Occupied(a, devices, rows, k))
  }

  lemma {:induction false} AllOccupiedMembers(a: Alphabet, devices: seq<Device>, rows: seq<Rack>, keys: seq<Key>)
    ensures forall k, u ::
              (k, u) in AllOccupied(a, devices, rows, keys) <==> k in keys && u in Occupied(a, devices, rows, k)
  {
    if keys != [] {
      AllOccupiedMembers(a, devices, rows, keys[..|keys| - 1]);
      assert forall k :: k in keys <==> k in keys[..|keys| - 1] || k == keys[|keys| - 1];
    }
  }

  /** The merged use of one rack counts its occupied slots. */
  lemma OccupiedCount(a: Alphabet, devices: seq<Device>, rows: seq<Rack>, k: Key)
    requires forall r <- rows :: FromQuery(a, devices, r)
    requires Group(rows, k) != []
    ensures Merge(a, Group(rows, k)).used == |Occupied(a, devices, rows, k)|
  {
    GroupMembers(rows, k);
    MergedUseIsDirectCount(a, devices, Group(rows, k), k.0, Some(k.1));
  }

  /** Slots of a rack not among the listed ones are new. */
  lemma OccupiedApart(a: Alphabet, devices: seq<Device>, rows: seq<Rack>, keys: seq<Key>, k: Key)
    requires k !in keys
    ensures |AllOccupied(a, devices, rows, keys) + Tag(k, Occupied(a, devices, rows, k))|
            == |AllOccupied(a, devices, rows, keys)| + |Occupied(a, devices, rows, k)|
  {
    AllOccupiedMembers(a, devices, rows, keys);
    TagCount(k, Occupied(a, devices, rows, k));
    assert AllOccupied(a, devices, rows, keys) !! Tag(k, Occupied(a, devices, rows, k));
  }

  lemma UsedAppend(racks: seq<Rack>, m: Rack)
    ensures Sum(racks + [m], Used) == Sum(racks, Used) + m.used
  {
    assert (racks + [m])[..|racks|] == racks;
  }

  lemma {:induction false} AllOccupiedCount(a: Alphabet, devices: seq<Device>, rows: seq<Rack>, keys: seq<Key>)
    requires forall r <- rows :: FromQuery(a, devices, r)
    requires forall i, j :: 0 <= i < j < |keys| ==> keys[i] != keys[j]
    requires forall k <- keys :: Group(rows, k) != []
    ensures |AllOccupied(a, devices, rows, keys)| == Sum(MergeAll(a, rows, keys), Used)
  {
    if keys != [] {
      var init, k := keys[..|keys| - 1], keys[|keys| - 1];
      MergeAllLast(a, rows, keys);
      AllOccupiedCount(a, devices, rows, init);
      OccupiedApart(a, devices, rows, init, k);
      OccupiedCount(a, devices, rows, k);
      UsedAppend(MergeAll(a, rows, init), Merge(a, Group(rows, k)));
    }
  }

  lemma {:induction false} SlotsAtMembers(a: Alphabet, devices: seq<Device>, name: Option<string>,
                                          site: Option<string>, u: int)
    ensures u in SlotsAt(a, devices, name, site)
            <==> exists d :: d in devices && Joins(a, d, name, site) && u in DeviceSlots(d)
  {
    if devices != [] {
      SlotsAtMembers(a, devices[..|devices| - 1], name, site, u);
      assert forall d :: d in devices <==> d in devices[..|devices| - 1] || d == devices[|devices| - 1];
    }
  }

  lemma BreakdownCoversSlot(a: Alphabet, devices: seq<Device>, rows: seq<Rack>, slotRows: seq<SlotRow>,
                            prefixes: seq<string>, k: Key, u: int)
    requires forall s :: s in slotRows <==> InBreakdown(a, devices, rows, s)
    ensures (k, u) in Best(a, prefixes, slotRows) <==> (k, u) in AllOccupied(a, devices, rows, Keys(rows))
  {
    KeysMembers(rows);
    AllOccupiedMembers(a, devices, rows, Keys(rows));
    BestIsHighestRank(a, prefixes, slotRows, (k, u));
    OccupiedHasRow(a, devices, rows, k, u);
  }

  /** The breakdown query returns rows for exactly the occupied slots of the merged racks. */
  lemma BreakdownCoversOccupied(a: Alphabet, devices: seq<Device>, rows: seq<Rack>, slotRows: seq<SlotRow>,
                                prefixes: seq<string>)
    requires forall s :: s in slotRows <==> InBreakdown(a, devices, rows, s)
    ensures Best(a, prefixes, slotRows).Keys == AllOccupied(a, devices, rows, Keys(rows))
  {
    forall x: Slot ensures x in Best(a, prefixes, slotRows) <==> x in AllOccupied(a, devices, rows, Keys(rows)) {
      BreakdownCoversSlot(a, devices, rows, slotRows, prefixes, x.0, x.1);
    }
  }

  lemma OccupiedHasRow(a: Alphabet, devices: seq<Device>, rows: seq<Rack>, k: Key, u: int)
    ensures (exists s :: InBreakdown(a, devices, rows, s) && SlotOf(s) == (k, u))
            <==> (exists r :: r in rows && KeyOf(r) == k) && u in Occupied(a, devices, rows, k)
  {
    if s :| InBreakdown(a, devices, rows, s) && SlotOf(s) == (k, u) { RowIsOccupied(a, devices, rows, s); }
    if (exists r :: r in rows && KeyOf(r) == k) && u in Occupied(a, devices, rows, k) {
      var s := RowOfOccupied(a, devices, rows, k, u);
    }
  }

  lemma RowIsOccupied(a: Alphabet, devices: seq<Device>, rows: seq<Rack>, s: SlotRow)
    requires InBreakdown(a, devices, rows, s)
    ensures var (k, u) := SlotOf(s); (exists r :: r in rows && KeyOf(r) == k) && u in Occupied(a, devices, rows, k)
  {
    var (k, u) := SlotOf(s);
    var d, r :| && d in devices && r in rows && Joins(a, d, r.name, r.site)
                && s.rackName == d.rackName && s.site == d.site && s.tenant == d.tenant
                && s.u in DeviceSlots(d) && 1 <= s.u <= r.capacity;
    GroupMembers(rows, k);
    MaxOfBounds(Group(rows, k), Capacity);
    SlotsAtMembers(a, devices, k.0, Some(k.1), u);
    assert r in Group(rows, k) && Capacity(r) <= MaxOf(Group(rows, k), Capacity);
  }

  lemma RowOfOccupied(a: Alphabet, devices: seq<Device>, rows: seq<Rack>, k: Key, u: int) returns (s: SlotRow)
    requires u in Occupied(a, devices, rows, k)
    ensures InBreakdown(a, devices, rows, s) && SlotOf(s) == (k, u)
  {
    GroupMembers(rows, k);
    MaxOfBounds(Group(rows, k), Capacity);
    SlotsAtMembers(a, devices, k.0, Some(k.1), u);
    var d :| d in devices && Joins(a, d, k.0, Some(k.1)) && u in DeviceSlots(d);
    var r :| r in Group(rows, k) && Capacity(r) == MaxOf(Group(rows, k), Capacity);
    s := SlotRow(d.rackName, d.site, u, d.tenant);
    assert Joins(a, d, r.name, r.site);
  }

  /**
   External, internal and untagged space add up to the used space of the merged racks, whatever
   order and however often the breakdown query lists a slot.
   */
  lemma BreakdownAddsUp(a: Alphabet, devices: seq<Device>, rows: seq<Rack>, slotRows: seq<SlotRow>,
                        prefixes: seq<string>)
    requires forall r <- rows :: FromQuery(a, devices, r)
    requires forall s :: s in slotRows <==> InBreakdown(a, devices, rows, s)
    ensures var b := Classified(a, prefixes, slotRows);
            b.external + b.internal_ + b.untagged == Sum(Dedupe(a, rows), Used)
  {
    KeysMembers(rows);
    KeysHaveGroups(rows);
    ClassesPartitionSlots(a, prefixes, slotRows);
    BreakdownCoversOccupied(a, devices, rows, slotRows, prefixes);
    AllOccupiedCount(a, devices, rows, Keys(rows));
  }
}
