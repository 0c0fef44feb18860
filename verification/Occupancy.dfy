/**
 Rack occupancy (shared/colocation/occupancy.py): duplicate rows for one physical rack are merged, and
 each occupied slot is classified by who occupies it.
 */
module Occupancy {
  import opened Prelude
  import opened Text
  import opened Sorting
  import opened Allocation
  import Grouping

  /** A physical rack: its name and its site, an absent site counting as "". */
  type Key = (Option<string>, string)

  /** One site: the same name, or none given on either side. */
  predicate SameSite(x: Option<string>, y: Option<string>) {
    x == y || (x in {None, Some("")} && y in {None, Some("")})
  }

  function KeyOf(r: Rack): Key {
    (r.name, OrBlank(r.site))
  }

  // ---------------------------------------------------------------- merging, on values

  function Keys(rows: seq<Rack>): seq<Key> {
    Grouping.Keys(KeyOf, rows)
  }

  function Group(rows: seq<Rack>, key: Key): seq<Rack> {
    Grouping.Group(KeyOf, rows, key)
  }

  function MaxOf(rows: seq<Rack>, f: Rack -> int): int {
    if rows == [] then 0 else MaxInt(MaxOf(rows[..|rows| - 1], f), f(rows[|rows| - 1]))
  }

  function AddNew(acc: seq<string>, more: seq<string>): seq<string> {
    if more == [] then acc
    else
      var acc' := AddNew(acc, more[..|more| - 1]);
      if more[|more| - 1] in acc' then acc' else acc' + [more[|more| - 1]]
  }

  function AllTenants(rows: seq<Rack>): seq<string> {
    if rows == [] then [] else AddNew(AllTenants(rows[..|rows| - 1]), rows[|rows| - 1].tenants)
  }

  /** How many rows carry the data-centre label `dc`. */
  function Votes(rows: seq<Rack>, dc: string): nat {
    if rows == [] then 0 else Votes(rows[..|rows| - 1], dc) + if rows[|rows| - 1].dc == Some(dc) then 1 else 0
  }

  /** More votes, or as many and an earlier name. */
  predicate Beats(rows: seq<Rack>, x: string, y: string) {
    Votes(rows, x) > Votes(rows, y) || (Votes(rows, x) == Votes(rows, y) && LexLe(x, y))
  }

  /** `dc` is the label with the most votes, the smallest on a tie. */
  ghost predicate WinsVote(rows: seq<Rack>, dc: string) {
    dc != "" && Votes(rows, dc) > 0 && forall other :: other != "" && Votes(rows, other) > 0 ==> Beats(rows, dc, other)
  }

  /** The winner, or the first row's empty or absent label when no row has a real one. */
  ghost function MergedDc(group: seq<Rack>): Option<string>
    requires group != []
  {
    if dc :| WinsVote(group, dc) then Some(dc) else group[0].dc
  }

  function Colocated(a: Alphabet, rows: seq<Rack>): seq<Rack> {
    if rows == [] then []
    else Colocated(a, rows[..|rows| - 1]) + if IsColocation(a, rows[|rows| - 1].role) then [rows[|rows| - 1]] else []
  }

  /** The non-blank roles, trimmed. */
  function Roles(a: Alphabet, rows: seq<Rack>): set<string> {
    set r | r in rows && RoleKey(a, r) != "" :: RoleKey(a, r)
  }

  ghost predicate Smallest(roles: set<string>, r: string) {
    r in roles && forall x :: x in roles ==> LexLe(r, x)
  }

  /** occupancy.py:187-219, without the logging. */
  ghost function NonColocationRole(a: Alphabet, group: seq<Rack>): Option<string>
    requires group != []
  {
    var roles := Roles(a, group);
    if "1" in roles then Some("1")
    else if r :| Smallest(roles, r) then Some(r)
    else group[0].role
  }

  ghost predicate Agree(a: Alphabet, rows: seq<Rack>) {
    forall x, y :: x in rows && y in rows ==> CustomerLabel(a, x) == CustomerLabel(a, y)
  }

  /** occupancy.py:127-184 and 289-293: role and identity of the merged rack. */
  ghost function Identified(a: Alphabet, base: Rack, group: seq<Rack>): Rack
    requires group != []
  {
    var colo := Colocated(a, group);
    if colo == [] then base.(role := NonColocationRole(a, group))
    else if Agree(a, colo) then
      base.(role := colo[0].role, tags := colo[0].tags, description := colo[0].description, tenant := colo[0].tenant)
    else base.(role := colo[0].role, tags := [], description := Some(""), tenant := None)
  }

  ghost function Merge(a: Alphabet, group: seq<Rack>): Rack
    requires group != []
  {
    var cap, used := MaxOf(group, Capacity), MaxOf(group, Used);
    Identified(a, group[0].(capacity := cap, used := used, free := MaxInt(cap - used, 0),
                            tenants := AllTenants(group), dc := MergedDc(group)), group)
  }

  ghost function MergeAll(a: Alphabet, rows: seq<Rack>, keys: seq<Key>): (merged: seq<Rack>)
    requires forall k <- keys :: Group(rows, k) != []
    ensures |merged| == |keys|
  {
    seq(|keys|, i requires 0 <= i < |keys| => Merge(a, Group(rows, keys[i])))
  }

  ghost function Dedupe(a: Alphabet, rows: seq<Rack>): seq<Rack> {
    KeysHaveGroups(rows);
    MergeAll(a, rows, Keys(rows))
  }

  lemma GroupMembers(rows: seq<Rack>, key: Key)
    ensures forall r :: r in Group(rows, key) <==> r in rows && KeyOf(r) == key
  {
    Grouping.GroupMembers(KeyOf, rows, key);
  }

  lemma KeysMembers(rows: seq<Rack>)
    ensures forall k :: k in Keys(rows) <==> exists r :: r in rows && KeyOf(r) == k
    ensures forall i, j :: 0 <= i < j < |Keys(rows)| ==> Keys(rows)[i] != Keys(rows)[j]
  {
    KeysHaveGroups(rows);
    forall k ensures k in Keys(rows) <==> exists r :: r in rows && KeyOf(r) == k {
      GroupMembers(rows, k);
      assert Group(rows, k) != [] ==> Group(rows, k)[0] in Group(rows, k);
    }
  }

  lemma KeysHaveGroups(rows: seq<Rack>)
    ensures forall k :: k in Keys(rows) <==> Group(rows, k) != []
    ensures Distinct(Keys(rows))
  {
    Grouping.KeysAndGroups(KeyOf, rows);
    forall k ensures k in Keys(rows) <==> Group(rows, k) != [] {
      assert k in Grouping.Keys(KeyOf, rows) <==> Grouping.Group(KeyOf, rows, k) != [];
    }
  }

  // ---------------------------------------------------------------- facts about the parts

  lemma {:induction false} MaxOfBounds(rows: seq<Rack>, f: Rack -> int)
    ensures MaxOf(rows, f) >= 0 && forall r <- rows :: f(r) <= MaxOf(rows, f)
    ensures MaxOf(rows, f) == 0 || exists r :: r in rows && f(r) == MaxOf(rows, f)
  {
    if rows != [] {
      MaxOfBounds(rows[..|rows| - 1], f);
      assert rows == rows[..|rows| - 1] + [rows[|rows| - 1]];
    }
  }

  lemma {:induction false} VotesPositive(rows: seq<Rack>, dc: string)
    ensures Votes(rows, dc) > 0 <==> exists r :: r in rows && r.dc == Some(dc)
  {
    if rows != [] {
      VotesPositive(rows[..|rows| - 1], dc);
      assert rows == rows[..|rows| - 1] + [rows[|rows| - 1]];
    }
  }

  lemma BeatsTotal(rows: seq<Rack>, x: string, y: string)
    ensures Beats(rows, x, y) || Beats(rows, y, x)
    ensures Beats(rows, x, y) && Beats(rows, y, x) ==> x == y
  {
    LexLeTotal(x, y);
  }

  lemma BeatsTransitive(rows: seq<Rack>, x: string, y: string, z: string)
    requires Beats(rows, x, y) && Beats(rows, y, z)
    ensures Beats(rows, x, z)
  {
    if Votes(rows, x) == Votes(rows, y) == Votes(rows, z) { LexLeTransitive(x, y, z); }
  }

  lemma {:induction false} ColocatedMembers(a: Alphabet, rows: seq<Rack>)
    ensures forall r :: r in Colocated(a, rows) <==> r in rows && IsColocation(a, r.role)
  {
    if rows != [] {
      ColocatedMembers(a, rows[..|rows| - 1]);
      assert rows == rows[..|rows| - 1] + [rows[|rows| - 1]];
    }
  }

  lemma SmallestUnique(roles: set<string>, x: string, y: string)
    requires Smallest(roles, x) && Smallest(roles, y)
    ensures x == y
  {
    LexLeTotal(x, y);
  }

  // ---------------------------------------------------------------- the loops

  /** Some role of a non-empty set that is smallest: `sorted(roles)[0]`. */
  method SmallestRole(roles: set<string>) returns (best: string)
    requires roles != {}
    ensures Smallest(roles, best)
  {
    best := AnyOf(roles);
    var pending := roles - {best};
    LexLeTotal(best, best);
    while pending != {}
      invariant pending <= roles && Smallest(roles - pending, best)
      decreases pending
    {
      var x := AnyOf(pending);
      LexLeTotal(best, x);
      if LexLe(best, x) {
        assert Smallest(roles - (pending - {x}), best);
      } else {
        forall y | y in roles - pending ensures LexLe(x, y) { LexLeTransitive(x, best, y); }
        LexLeTotal(x, x);
        best := x;
      }
      pending := pending - {x};
    }
    assert roles - {} == roles;
  }

  /** occupancy.py:187-219 */
  method ResolveNonColocationRole(a: Alphabet, group: seq<Rack>) returns (role: Option<string>)
    requires group != []
    ensures role == NonColocationRole(a, group)
  {
    var roles := set r | r in group && RoleKey(a, r) != "" :: RoleKey(a, r);
    assert roles == Roles(a, group);
    if roles == {} {
      return group[0].role;
    }
    var smallest := SmallestRole(roles);
    forall r | Smallest(roles, r) ensures r == smallest { SmallestUnique(roles, r, smallest); }
    if |roles| <= 1 {
      OnlyMember(roles, smallest);
      return Some(smallest);
    }
    role := Some(if roles * {"1"} != {} then "1" else smallest);
  }

  lemma OnlyMember<T>(s: set<T>, x: T)
    requires x in s && |s| <= 1
    ensures s == {x}
  {
    assert |s - {x}| == 0;
  }

  lemma AgreementMeansOne(a: Alphabet, colo: seq<Rack>)
    requires colo != []
    ensures Agree(a, colo) ==> (set x | x in colo :: CustomerLabel(a, x)) == {CustomerLabel(a, colo[0])}
  {
  }

  /** occupancy.py:127-184 */
  method ResolveColocationIdentity(a: Alphabet, base: Rack, colo: seq<Rack>) returns (r: Rack)
    requires colo != []
    ensures r == if Agree(a, colo) then
                   base.(role := colo[0].role, tags := colo[0].tags, description := colo[0].description,
                       tenant := colo[0].tenant)
                 else base.(role := colo[0].role, tags := [], description := Some(""), tenant := None)
  {
    var labels := set x | x in colo :: CustomerLabel(a, x);
    assert CustomerLabel(a, colo[0]) in labels;
    if |labels| > 1 {
      assert !Agree(a, colo) by { AgreementMeansOne(a, colo); }
      return base.(role := colo[0].role, tags := [], description := Some(""), tenant := None);
    }
    OnlyMember(labels, CustomerLabel(a, colo[0]));
    assert forall x :: x in colo ==> CustomerLabel(a, x) in labels;
    r := base.(role := colo[0].role, tags := colo[0].tags, description := colo[0].description,
        tenant := colo[0].tenant);
  }

  /** occupancy.py:276-278 */
  method UnionTenants(tenants: seq<string>, more: seq<string>) returns (out: seq<string>)
    ensures out == AddNew(tenants, more)
  {
    out := tenants;
    for i := 0 to |more|
      invariant out == AddNew(tenants, more[..i])
    {
      assert more[..i + 1][..i] == more[..i];
      if more[i] !in out {
        out := out + [more[i]];
      }
    }
    assert more[..|more|] == more;
  }

  /** `min(dc_votes, key=lambda d: (-dc_votes[d], d))`: occupancy.py:287. */
  method MostVoted(ghost group: seq<Rack>, votes: map<string, nat>) returns (best: string)
    requires votes != map[]
    requires forall d :: d in votes <==> d != "" && Votes(group, d) > 0
    requires forall d :: d in votes ==> votes[d] == Votes(group, d)
    ensures WinsVote(group, best)
  {
    best := AnyOf(votes.Keys);
    BeatsTotal(group, best, best);
    var pending := votes.Keys - {best};
    while pending != {}
      invariant pending <= votes.Keys && best in votes
      invariant forall d :: d in votes.Keys - pending ==> Beats(group, best, d)
      decreases pending
    {
      var d := AnyOf(pending);
      BeatsTotal(group, best, d);
      if votes[d] > votes[best] || (votes[d] == votes[best] && LexLe(d, best)) {
        assert Beats(group, d, best);
        forall x | x in votes.Keys - pending ensures Beats(group, d, x) { BeatsTransitive(group, d, best, x); }
        BeatsTotal(group, d, d);
        best := d;
      }
      pending := pending - {d};
    }
  }

  /** occupancy.py:266-293: one group of duplicates into one rack. */
  method MergeGroup(a: Alphabet, group: seq<Rack>) returns (base: Rack)
    requires group != []
    ensures base == Merge(a, group)
  {
    var cap, used := 0, 0;
    var tenants: seq<string> := [];
    var votes: map<string, nat> := map[];
    var colo: seq<Rack> := [];
    for i := 0 to |group|
      invariant cap == MaxOf(group[..i], Capacity) && used == MaxOf(group[..i], Used)
      invariant tenants == AllTenants(group[..i]) && colo == Colocated(a, group[..i])
      invariant forall d :: d in votes <==> d != "" && Votes(group[..i], d) > 0
      invariant forall d :: d in votes ==> votes[d] == Votes(group[..i], d)
    {
      var r := group[i];
      assert group[..i + 1][..i] == group[..i];
      cap := MaxInt(cap, r.capacity);
      used := MaxInt(used, r.used);
      tenants := UnionTenants(tenants, r.tenants);
      if r.dc.Some? && r.dc.value != "" {
        votes := votes[r.dc.value := 1 + if r.dc.value in votes then votes[r.dc.value] else 0];
      }
      if IsColocation(a, r.role) {
        colo := colo + [r];
      }
    }
    assert group[..|group|] == group;
    base := group[0].(capacity := cap, used := used, free := MaxInt(cap - used, 0), tenants := tenants);
    if votes != map[] {
      var dc := MostVoted(group, votes);
      forall d | WinsVote(group, d) ensures d == dc { BeatsTotal(group, d, dc); }
      base := base.(dc := Some(dc));
    } else {
      assert forall d :: !WinsVote(group, d);
    }
    if colo != [] {
      base := ResolveColocationIdentity(a, base, colo);
    } else {
      var role := ResolveNonColocationRole(a, group);
      base := base.(role := role);
    }
  }

  ghost predicate IsMerge(a: Alphabet, rows: seq<Rack>, key: Key, m: Rack) {
    Group(rows, key) != [] && m == Merge(a, Group(rows, key))
  }

  lemma AllMerged(a: Alphabet, rows: seq<Rack>, order: seq<Key>, out: seq<Rack>)
    requires |out| == |order| && forall i :: 0 <= i < |out| ==> IsMerge(a, rows, order[i], out[i])
    ensures (forall k <- order :: Group(rows, k) != []) && out == MergeAll(a, rows, order)
  {
  }

  /** occupancy.py:264-296: each group in turn. */
  method MergeEach(a: Alphabet, ghost rows: seq<Rack>, order: seq<Key>, groups: map<Key, seq<Rack>>)
    returns (out: seq<Rack>)
    requires forall i :: 0 <= i < |order| ==> order[i] in groups && groups[order[i]] == Group(rows, order[i]) != []
    ensures |out| == |order| && forall i :: 0 <= i < |out| ==> IsMerge(a, rows, order[i], out[i])
  {
    out := [];
    for i := 0 to |order|
      invariant |out| == i && forall j :: 0 <= j < i ==> IsMerge(a, rows, order[j], out[j])
    {
      var merged := MergeGroup(a, groups[order[i]]);
      assert IsMerge(a, rows, order[i], merged);
      out := out + [merged];
    }
  }

  /** occupancy.py:222-296 */
  method DedupePhysicalRacks(a: Alphabet, rows: seq<Rack>) returns (out: seq<Rack>)
    ensures out == Dedupe(a, rows)
  {
    var order, groups := Grouping.GroupBy(KeyOf, rows);
    KeysHaveGroups(rows);
    assert forall i :: 0 <= i < |order| ==> order[i] in order;
    out := MergeEach(a, rows, order, groups);
    AllMerged(a, rows, order, out);
  }
}
