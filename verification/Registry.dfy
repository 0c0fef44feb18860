/**
 Catalog synchronisation (src/auth/registry.py): the permission catalog, a tree in code, is flattened,
 sorted by depth and upserted into the permissions table.
 */
module Registry {
  import opened Prelude
  import opened Permissions
  import opened Sorting

  datatype Node = Node(code: string, resourceType: string, children: seq<Node>)

  datatype Row = Row(code: string, parentCode: Option<string>, resourceType: string) {
    /** The parent the code looks up; an empty code counts as none. */
    function Parent(): Option<string> {
      if parentCode == Some("") then None else parentCode
    }
  }

  // ---------------------------------------------------------------- flattening

  function Flatten(nodes: seq<Node>, parent: Option<string>): seq<Row>
    decreases nodes
  {
    if nodes == [] then []
    else
      [Row(nodes[0].code, parent, nodes[0].resourceType)]
      + Flatten(nodes[0].children, Some(nodes[0].code))
      + Flatten(nodes[1..], parent)
  }

  lemma FlattenFrom(nodes: seq<Node>, parent: Option<string>, i: nat, rows: seq<Row>)
    requires i < |nodes|
    ensures var n := nodes[i];
            rows + Flatten(nodes[i..], parent)
            == (rows + [Row(n.code, parent, n.resourceType)] + Flatten(n.children, Some(n.code)))
               + Flatten(nodes[i + 1..], parent)
  {
    assert nodes[i..][0] == nodes[i] && nodes[i..][1..] == nodes[i + 1..];
  }

  /** registry.py:15-36 */
  method FlattenNodes(nodes: seq<Node>, parent: Option<string>) returns (rows: seq<Row>)
    ensures rows == Flatten(nodes, parent)
    decreases nodes
  {
    rows := [];
    ghost var whole := Flatten(nodes, parent);
    assert nodes[0..] == nodes;
    for i := 0 to |nodes|
      invariant rows + Flatten(nodes[i..], parent) == whole
    {
      FlattenFrom(nodes, parent, i, rows);
      var below: seq<Row> := [];
      if nodes[i].children != [] {
        below := FlattenNodes(nodes[i].children, Some(nodes[i].code));
      }
      rows := rows + [Row(nodes[i].code, parent, nodes[i].resourceType)] + below;
    }
  }

  ghost predicate DistinctCodes(flat: seq<Row>) {
    forall i, j :: 0 <= i < j < |flat| ==> flat[i].code != flat[j].code
  }

  ghost predicate Listed(flat: seq<Row>, n: nat, code: string) {
    exists j :: 0 <= j < n <= |flat| && flat[j].code == code
  }

  /** Each row's parent, where it has one, is a row further up. */
  ghost predicate ParentsFirst(flat: seq<Row>) {
    forall i :: 0 <= i < |flat| && flat[i].Parent().Some? ==> Listed(flat, i, flat[i].Parent().value)
  }

  ghost predicate TopOrListed(flat: seq<Row>, i: nat, parent: Option<string>)
    requires i < |flat|
  {
    flat[i].parentCode == parent || (flat[i].parentCode.Some? && Listed(flat, i, flat[i].parentCode.value))
  }

  lemma {:induction false} FlattenListsParents(nodes: seq<Node>, parent: Option<string>, i: nat)
    requires i < |Flatten(nodes, parent)|
    ensures TopOrListed(Flatten(nodes, parent), i, parent)
    decreases nodes
  {
    var n, flat := nodes[0], Flatten(nodes, parent);
    var below, rest := Flatten(n.children, Some(n.code)), Flatten(nodes[1..], parent);
    assert flat == [Row(n.code, parent, n.resourceType)] + below + rest;
    if 0 < i <= |below| {
      assert flat[i] == below[i - 1];
      FlattenListsParents(n.children, Some(n.code), i - 1);
      if below[i - 1].parentCode == Some(n.code) {
        assert flat[0].code == n.code;
      } else {
        var j :| 0 <= j < i - 1 && below[j].code == below[i - 1].parentCode.value;
        assert flat[j + 1] == below[j];
      }
    } else if i > |below| {
      var k := i - 1 - |below|;
      assert flat[i] == rest[k];
      FlattenListsParents(nodes[1..], parent, k);
      if rest[k].parentCode != parent {
        var j :| 0 <= j < k && rest[j].code == rest[k].parentCode.value;
        assert flat[j + 1 + |below|] == rest[j];
      }
    }
  }

  lemma CatalogListsParentsFirst(roots: seq<Node>)
    ensures ParentsFirst(Flatten(roots, None))
  {
    var flat := Flatten(roots, None);
    forall i | 0 <= i < |flat| && flat[i].Parent().Some? ensures Listed(flat, i, flat[i].Parent().value) {
      FlattenListsParents(roots, None, i);
    }
  }

  // ---------------------------------------------------------------- depth and order

  function IndexOf(flat: seq<Row>, code: string): (i: nat)
    ensures i <= |flat| && (i < |flat| ==> flat[i].code == code)
    ensures forall j :: 0 <= j < i ==> flat[j].code != code
  {
    if flat == [] || flat[0].code == code then 0 else 1 + IndexOf(flat[1..], code)
  }

  /** How many parents lie above row `i`. */
  function DepthAt(flat: seq<Row>, i: nat): nat
    requires i < |flat|
    decreases i
  {
    match flat[i].Parent()
    case None => 0
    case Some(c) => 1 + if IndexOf(flat, c) < i then DepthAt(flat, IndexOf(flat, c)) else 0
  }

  function Depth(flat: seq<Row>, code: string): nat {
    if IndexOf(flat, code) < |flat| then DepthAt(flat, IndexOf(flat, code)) else 0
  }

  lemma DepthOfParent(flat: seq<Row>, i: nat)
    requires ParentsFirst(flat) && DistinctCodes(flat) && i < |flat| && flat[i].Parent().Some?
    ensures IndexOf(flat, flat[i].Parent().value) < i
    ensures Depth(flat, flat[i].code) == 1 + Depth(flat, flat[i].Parent().value)
  {
    var c := flat[i].Parent().value;
    assert Listed(flat, i, c);
    assert IndexOf(flat, flat[i].code) == i;
  }

  /** registry.py:47-53, over the dictionary of rows by code. */
  method DepthLoop(codeToRow: map<string, Row>, code: string, ghost flat: seq<Row>) returns (d: nat)
    requires ParentsFirst(flat) && DistinctCodes(flat) && Listed(flat, |flat|, code)
    requires forall i :: 0 <= i < |flat| ==> flat[i].code in codeToRow && codeToRow[flat[i].code] == flat[i]
    ensures d == Depth(flat, code)
  {
    d := 0;
    var cur := code;
    while cur in codeToRow && codeToRow[cur].Parent().Some?
      invariant Listed(flat, |flat|, cur)
      invariant d + Depth(flat, cur) == Depth(flat, code)
      decreases IndexOf(flat, cur)
    {
      var i := IndexOf(flat, cur);
      assert codeToRow[cur] == flat[i];
      DepthOfParent(flat, i);
      d := d + 1;
      cur := codeToRow[cur].Parent().value;
    }
  }

  predicate ByDepth(x: (nat, Row), y: (nat, Row)) {
    x.0 < y.0 || (x.0 == y.0 && LexLe(x.1.code, y.1.code))
  }

  lemma ByDepthIsTotal()
    ensures TotalPreorder(ByDepth)
  {
    forall x: (nat, Row), y: (nat, Row) ensures ByDepth(x, y) || ByDepth(y, x) {
      LexLeTotal(x.1.code, y.1.code);
    }
    forall x: (nat, Row), y: (nat, Row), z: (nat, Row) | ByDepth(x, y) && ByDepth(y, z) ensures ByDepth(x, z) {
      if x.0 == y.0 == z.0 { LexLeTransitive(x.1.code, y.1.code, z.1.code); }
    }
  }

  function Keyed(flat: seq<Row>): (k: seq<(nat, Row)>)
    ensures |k| == |flat| && forall i :: 0 <= i < |k| ==> k[i] == (Depth(flat, flat[i].code), flat[i])
  {
    seq(|flat|, i requires 0 <= i < |flat| => (Depth(flat, flat[i].code), flat[i]))
  }

  /** The catalog rows, parents before children: registry.py:55. */
  function InOrder(flat: seq<Row>): seq<(nat, Row)> {
    SortBy(ByDepth, Keyed(flat))
  }

  /** `s` lists the catalog rows by depth, each once. */
  ghost predicate Arranged(flat: seq<Row>, s: seq<(nat, Row)>) {
    && (forall i :: 0 <= i < |s| ==> s[i].1 in flat && s[i].0 == Depth(flat, s[i].1.code))
    && (forall r :: r in flat ==> exists i :: 0 <= i < |s| && s[i].1 == r)
    && (forall i, j :: 0 <= i < j < |s| ==> s[i].0 <= s[j].0)
    && (forall i, j :: 0 <= i < j < |s| ==> s[i].1.code != s[j].1.code)
  }

  lemma InOrderIsArranged(flat: seq<Row>)
    requires DistinctCodes(flat) && ParentsFirst(flat)
    ensures Arranged(flat, InOrder(flat))
  {
    ByDepthIsTotal();
    var k, s := Keyed(flat), InOrder(flat);
    SortBySorts(ByDepth, k);
    forall i | 0 <= i < |s| ensures s[i].1 in flat && s[i].0 == Depth(flat, s[i].1.code) {
      assert s[i] in multiset(s);
      assert s[i] in k;
    }
    forall r | r in flat ensures exists i :: 0 <= i < |s| && s[i].1 == r {
      var i :| 0 <= i < |flat| && flat[i] == r;
      assert k[i] in multiset(k);
      assert k[i] in s;
    }
    SortedCodesDistinct(k, s);
  }

  lemma SortedCodesDistinct(k: seq<(nat, Row)>, s: seq<(nat, Row)>)
    requires multiset(s) == multiset(k)
    requires forall i, j :: 0 <= i < j < |k| ==> k[i].1.code != k[j].1.code
    ensures forall i, j :: 0 <= i < j < |s| ==> s[i].1.code != s[j].1.code
  {
    DistinctReordered(k, s);
    forall i, j | 0 <= i < j < |s| ensures s[i].1.code != s[j].1.code {
      assert s[i] in multiset(s) && s[j] in multiset(s);
      var a :| 0 <= a < |k| && k[a] == s[i];
      var b :| 0 <= b < |k| && k[b] == s[j];
      assert a != b;
    }
  }

  /** A row's parent has been handled by the time the row comes up. */
  lemma ParentComesEarlier(flat: seq<Row>, s: seq<(nat, Row)>, i: nat) returns (j: nat)
    requires DistinctCodes(flat) && ParentsFirst(flat) && Arranged(flat, s)
    requires i < |s| && s[i].1.Parent().Some?
    ensures j < i && s[j].1.code == s[i].1.Parent().value
  {
    var at :| 0 <= at < |flat| && flat[at] == s[i].1;
    DepthOfParent(flat, at);
    j := PlaceOf(flat, s, IndexOf(flat, s[i].1.Parent().value));
    assert s[j].0 < s[i].0;
  }

  lemma PlaceOf(flat: seq<Row>, s: seq<(nat, Row)>, k: nat) returns (j: nat)
    requires Arranged(flat, s) && k < |flat|
    ensures j < |s| && s[j].1 == flat[k]
  {
    assert flat[k] in flat;
    j :| 0 <= j < |s| && s[j].1 == flat[k];
  }

  // ---------------------------------------------------------------- upserting

  /** The table, the code's own dictionary of ids, and the next id the database will hand out. */
  datatype Progress = Progress(perms: Forest, idByCode: map<string, int>, nextId: int)

  /** One INSERT ... ON CONFLICT (code) DO UPDATE ... WHERE is_dynamic IS NOT TRUE: registry.py:63-98. */
  ghost function Upsert(s: Progress, r: Row): Progress {
    var pid := if r.Parent().Some? && r.Parent().value in s.idByCode then Some(s.idByCode[r.Parent().value]) else None;
    match IdOf(s.perms, r.code)
    case None =>
      Progress(s.perms[s.nextId := Perm(r.code, pid, r.resourceType, false)], s.idByCode[r.code := s.nextId],
          s.nextId + 1)
    case Some(id) =>
      var perms := if s.perms[id].dynamic then s.perms else s.perms[id := Perm(r.code, pid, r.resourceType, false)];
      Progress(perms, s.idByCode[r.code := id], s.nextId + 1)
  }

  ghost function UpsertAll(s: Progress, rows: seq<(nat, Row)>): Progress {
    if rows == [] then s else Upsert(UpsertAll(s, rows[..|rows| - 1]), rows[|rows| - 1].1)
  }

  ghost predicate Indexed(p: Forest, idByCode: map<string, int>) {
    && (forall id :: id in p ==> p[id].code in idByCode && idByCode[p[id].code] == id)
    && (forall c :: c in idByCode ==> idByCode[c] in p && p[idByCode[c]].code == c)
  }

  method IndexByCode(p: Forest) returns (idByCode: map<string, int>)
    requires UniqueCodes(p)
    ensures Indexed(p, idByCode)
  {
    idByCode := map[];
    var pending := p.Keys;
    while pending != {}
      invariant pending <= p.Keys
      invariant forall id :: id in p && id !in pending ==> p[id].code in idByCode && idByCode[p[id].code] == id
      invariant forall c :: c in idByCode ==> idByCode[c] in p && p[idByCode[c]].code == c
      decreases pending
    {
      var id := AnyOf(pending);
      idByCode := idByCode[p[id].code := id];
      pending := pending - {id};
    }
  }

  ghost function Start(p: Forest, nextId: int): Progress
    requires UniqueCodes(p)
  {
    Progress(p, map code | code in Codes(p) :: IdOf(p, code).value, nextId)
  }

  lemma CodeHasId(p: Forest, id: int)
    requires UniqueCodes(p) && id in p
    ensures p[id].code in Codes(p) && IdOf(p, p[id].code) == Some(id)
  {
  }

  lemma IdIsRow(p: Forest, code: string)
    ensures IdOf(p, code).Some? ==> IdOf(p, code).value in p && p[IdOf(p, code).value].code == code
  {
  }

  lemma StartIsIndexed(p: Forest, nextId: int, idByCode: map<string, int>)
    requires UniqueCodes(p) && Indexed(p, idByCode)
    ensures Start(p, nextId).idByCode == idByCode
  {
    forall c | c in idByCode ensures c in Codes(p) && IdOf(p, c) == Some(idByCode[c]) {
      CodeHasId(p, idByCode[c]);
    }
    forall c | c in Codes(p) ensures c in idByCode {
      var id :| id in p && p[id].code == c;
    }
  }

  /** registry.py:44-55 */
  method SortByDepth(flat: seq<Row>) returns (sorted: seq<(nat, Row)>)
    requires DistinctCodes(flat) && ParentsFirst(flat)
    ensures sorted == InOrder(flat)
  {
    var codeToRow: map<string, Row> := map[];
    for i := 0 to |flat|
      invariant forall j :: 0 <= j < i ==> flat[j].code in codeToRow && codeToRow[flat[j].code] == flat[j]
    {
      codeToRow := codeToRow[flat[i].code := flat[i]];
    }
    var keyed: seq<(nat, Row)> := [];
    for i := 0 to |flat|
      invariant keyed == Keyed(flat)[..i]
    {
      assert Listed(flat, |flat|, flat[i].code);
      var d := DepthLoop(codeToRow, flat[i].code, flat);
      keyed := keyed + [(d, flat[i])];
    }
    assert keyed == Keyed(flat);
    sorted := SortBy(ByDepth, keyed);
  }

  /** registry.py:63-99 */
  method UpsertRows(p: Forest, index: map<string, int>, nextId: int, rows: seq<(nat, Row)>) returns (after: Forest)
    requires UniqueCodes(p) && forall id :: id in p ==> id < nextId
    ensures after == UpsertAll(Progress(p, index, nextId), rows).perms
  {
    var idByCode, next := index, nextId;
    after := p;
    for i := 0 to |rows|
      invariant UniqueCodes(after) && forall id :: id in after ==> id < next
      invariant Progress(after, idByCode, next) == UpsertAll(Progress(p, index, nextId), rows[..i])
    {
      assert rows[..i + 1][..i] == rows[..i];
      var r := rows[i].1;
      var pid: Option<int> := None;
      if r.Parent().Some? && r.Parent().value in idByCode {
        pid := Some(idByCode[r.Parent().value]);
      }
      var existing := PermissionRow(after, r.code);
      match existing {
        case None =>
          after := after[next := Perm(r.code, pid, r.resourceType, false)];
          idByCode := idByCode[r.code := next];
        case Some(id) =>
          if !after[id].dynamic {
            after := after[id := Perm(r.code, pid, r.resourceType, false)];
          }
          idByCode := idByCode[r.code := id];
      }
      next := next + 1;
    }
    assert rows[..|rows|] == rows;
  }

  /** registry.py:39-101; `nextId` is the sequence value the table will hand out next. */
  method SyncPermissionsFromCatalog(p: Forest, nextId: int, roots: seq<Node>) returns (after: Forest)
    requires UniqueCodes(p) && DistinctCodes(Flatten(roots, None))
    requires forall id :: id in p ==> id < nextId
    ensures after == Synced(p, nextId, roots)
  {
    var flat := FlattenNodes(roots, None);
    CatalogListsParentsFirst(roots);
    var rows := SortByDepth(flat);
    var idByCode := IndexByCode(p);
    StartIsIndexed(p, nextId, idByCode);
    after := UpsertRows(p, idByCode, nextId, rows);
  }

  ghost function Synced(p: Forest, nextId: int, roots: seq<Node>): Forest
    requires UniqueCodes(p)
  {
    UpsertAll(Start(p, nextId), InOrder(Flatten(roots, None))).perms
  }

  // ---------------------------------------------------------------- the stored tree is the catalog tree

  ghost predicate Handled(rows: seq<(nat, Row)>, code: string) {
    exists j :: 0 <= j < |rows| && rows[j].1.code == code
  }

  ghost predicate StoredAs(s: Progress, r: Row) {
    && r.code in s.idByCode && s.idByCode[r.code] in s.perms
    && (r.Parent().Some? ==> r.Parent().value in s.idByCode)
    && s.perms[s.idByCode[r.code]] ==
       Perm(r.code, if r.Parent().Some? then Some(s.idByCode[r.Parent().value]) else None, r.resourceType, false)
  }

  /**
   What every upsert keeps: codes and ids stay paired, old ids keep their codes, and rows an operator
   added stay as they are.
   */
  ghost predicate Consistent(p: Forest, s: Progress) {
    Paired(s) && Extends(p, s.perms)
  }

  ghost predicate Paired(s: Progress) {
    && UniqueCodes(s.perms) && Indexed(s.perms, s.idByCode)
    && 0 < s.nextId && (forall id :: id in s.perms ==> 0 < id < s.nextId)
  }

  ghost predicate Extends(p: Forest, p': Forest) {
    && (forall id :: id in p ==> id in p' && p'[id].code == p[id].code && p'[id].dynamic == p[id].dynamic)
    && (forall id :: id in p && p[id].dynamic ==> p'[id] == p[id])
  }

  /** Rows of codes not yet handled are as they were. */
  ghost predicate Untouched(p: Forest, s: Progress, rows: seq<(nat, Row)>) {
    forall id :: id in s.perms && !Handled(rows, s.perms[id].code) ==> id in p && s.perms[id] == p[id]
  }

  lemma UpsertPairs(s: Progress, r: Row)
    requires Paired(s)
    ensures Paired(Upsert(s, r))
  {
    if IdOf(s.perms, r.code).Some? { IdIsRow(s.perms, r.code); }
  }

  lemma UpsertExtends(p: Forest, s: Progress, r: Row)
    requires Paired(s) && Extends(p, s.perms)
    ensures Extends(p, Upsert(s, r).perms)
  {
    if IdOf(s.perms, r.code).Some? { IdIsRow(s.perms, r.code); }
  }

  lemma UpsertKeepsConsistent(p: Forest, s: Progress, r: Row)
    requires Consistent(p, s)
    ensures Consistent(p, Upsert(s, r))
  {
    UpsertPairs(s, r);
    UpsertExtends(p, s, r);
  }

  lemma UpsertStores(p: Forest, s: Progress, r: Row)
    requires Consistent(p, s)
    requires r.Parent().Some? ==> r.Parent().value in s.idByCode
    requires !Dynamic(p, r.code)
    requires forall id :: id in s.perms && s.perms[id].code == r.code ==> id in p
    ensures StoredAs(Upsert(s, r), r)
  {
    match IdOf(s.perms, r.code) {
      case None =>
        if r.Parent().Some? {
          var q := s.idByCode[r.Parent().value];
          CodeHasId(s.perms, q);
          assert r.Parent().value != r.code;
        }
      case Some(id) =>
        assert id in p && p[id].code == r.code && !s.perms[id].dynamic;
        assert s.idByCode[r.code] == id;
    }
  }

  lemma UpsertSparesOthers(p: Forest, s: Progress, r: Row, other: Row)
    requires Consistent(p, s) && StoredAs(s, other) && other.code != r.code
    ensures StoredAs(Upsert(s, r), other)
  {
    if other.Parent().Some? && other.Parent().value == r.code {
      var id := s.idByCode[r.code];
      assert s.perms[id].code == r.code;
      assert IdOf(s.perms, r.code) == Some(id);
    }
  }

  /** An operator added a row with this code. */
  ghost predicate Dynamic(p: Forest, code: string) {
    exists id :: id in p && p[id].code == code && p[id].dynamic
  }

  ghost predicate NoDynamicClash(p: Forest, flat: seq<Row>) {
    forall i :: 0 <= i < |flat| ==> !Dynamic(p, flat[i].code)
  }

  /** Every row handled has an id, and is stored as the catalog has it unless it is an operator's. */
  ghost predicate AllStored(p: Forest, s: Progress, rows: seq<(nat, Row)>) {
    forall j :: 0 <= j < |rows| ==>
                  rows[j].1.code in s.idByCode && (!Dynamic(p, rows[j].1.code) ==> StoredAs(s, rows[j].1))
  }

  /** A parent that comes earlier has been handled. */
  lemma ParentHandled(p: Forest, s: Progress, flat: seq<Row>, rows: seq<(nat, Row)>, n: nat)
    requires DistinctCodes(flat) && ParentsFirst(flat) && Arranged(flat, rows)
    requires n < |rows| && AllStored(p, s, rows[..n]) && rows[n].1.Parent().Some?
    ensures rows[n].1.Parent().value in s.idByCode
  {
    var j := ParentComesEarlier(flat, rows, n);
    assert rows[..n][j] == rows[j];
  }

  lemma UpsertStoresOne(p: Forest, s: Progress, flat: seq<Row>, rows: seq<(nat, Row)>, n: nat)
    requires DistinctCodes(flat) && ParentsFirst(flat) && Arranged(flat, rows)
    requires n < |rows| && Consistent(p, s) && Untouched(p, s, rows[..n]) && AllStored(p, s, rows[..n])
    ensures !Dynamic(p, rows[n].1.code) ==> StoredAs(Upsert(s, rows[n].1), rows[n].1)
  {
    var done, r := rows[..n], rows[n].1;
    if r.Parent().Some? { ParentHandled(p, s, flat, rows, n); }
    assert !Handled(done, r.code);
    assert r in flat;
    if !Dynamic(p, r.code) { UpsertStores(p, s, r); }
  }

  lemma UpsertKeepsStored(p: Forest, s: Progress, done: seq<(nat, Row)>, r: Row)
    requires Consistent(p, s) && AllStored(p, s, done) && !Handled(done, r.code)
    ensures AllStored(p, Upsert(s, r), done)
  {
    forall j | 0 <= j < |done|
      ensures done[j].1.code in Upsert(s, r).idByCode
      ensures !Dynamic(p, done[j].1.code) ==> StoredAs(Upsert(s, r), done[j].1)
    {
      if !Dynamic(p, done[j].1.code) { UpsertSparesOthers(p, s, r, done[j].1); }
    }
  }

  lemma UpsertOneMore(p: Forest, s: Progress, flat: seq<Row>, rows: seq<(nat, Row)>, n: nat)
    requires DistinctCodes(flat) && ParentsFirst(flat) && Arranged(flat, rows)
    requires n < |rows| && Consistent(p, s) && Untouched(p, s, rows[..n]) && AllStored(p, s, rows[..n])
    ensures Consistent(p, Upsert(s, rows[n].1)) && Untouched(p, Upsert(s, rows[n].1), rows[..n + 1])
    ensures AllStored(p, Upsert(s, rows[n].1), rows[..n + 1])
  {
    var done, r := rows[..n], rows[n].1;
    assert !Handled(done, r.code);
    UpsertKeepsConsistent(p, s, r);
    UpsertStoresOne(p, s, flat, rows, n);
    UpsertKeepsStored(p, s, done, r);
    UntouchedStep(p, s, done, rows[n]);
    assert rows[..n + 1] == done + [rows[n]];
  }

  lemma {:induction false} UpsertAllStores(p: Forest, s0: Progress, flat: seq<Row>, rows: seq<(nat, Row)>, n: nat)
    requires Consistent(p, s0) && s0.perms == p
    requires DistinctCodes(flat) && ParentsFirst(flat) && Arranged(flat, rows)
    requires n <= |rows|
    ensures var s := UpsertAll(s0, rows[..n]);
            Consistent(p, s) && Untouched(p, s, rows[..n]) && AllStored(p, s, rows[..n])
  {
    if n > 0 {
      UpsertAllStores(p, s0, flat, rows, n - 1);
      assert rows[..n][..n - 1] == rows[..n - 1];
      UpsertOneMore(p, UpsertAll(s0, rows[..n - 1]), flat, rows, n - 1);
    }
  }

  lemma UntouchedStep(p: Forest, s: Progress, done: seq<(nat, Row)>, row: (nat, Row))
    requires Consistent(p, s) && Untouched(p, s, done)
    ensures Untouched(p, Upsert(s, row.1), done + [row])
  {
    var all := done + [row];
    assert all[|done|] == row;
    forall c | Handled(done, c) ensures Handled(all, c) {
      var j :| 0 <= j < |done| && done[j].1.code == c;
      assert all[j].1.code == c;
    }
  }

  lemma StartIsConsistent(p: Forest, nextId: int)
    requires UniqueCodes(p) && nextId > 0 && (forall id :: id in p ==> 0 < id < nextId)
    ensures Consistent(p, Start(p, nextId))
  {
  }

  /** The table holds `r` under its code, linked to the row of its parent's code. */
  ghost predicate Linked(p: Forest, r: Row) {
    && IdOf(p, r.code).Some?
    && (r.Parent().Some? ==> IdOf(p, r.Parent().value).Some?)
    && p[IdOf(p, r.code).value] ==
       Perm(r.code, if r.Parent().Some? then IdOf(p, r.Parent().value) else None, r.resourceType, false)
  }

  /** Nothing else moved: ids keep their codes, and rows of codes outside the catalog are as before. */
  ghost predicate OthersKept(p: Forest, p': Forest, flat: seq<Row>) {
    && (forall id :: id in p ==> id in p' && p'[id].code == p[id].code)
    && (forall id :: id in p' && !Listed(flat, |flat|, p'[id].code) ==> id in p && p'[id] == p[id])
  }

  /** What a synchronisation leaves: catalog rows linked but for an operator's, and all others as before. */
  ghost predicate Mixed(p: Forest, p': Forest, flat: seq<Row>) {
    && UniqueCodes(p') && (forall id :: id in p' ==> id > 0) && OthersKept(p, p', flat)
    && (forall id :: id in p && p[id].dynamic ==> p'[id] == p[id])
    && forall i :: 0 <= i < |flat| ==>
                     IdOf(p', flat[i].code).Some? && (!Dynamic(p, flat[i].code) ==> Linked(p', flat[i]))
  }

  lemma StoredIsLinked(p: Forest, s: Progress, r: Row)
    requires Consistent(p, s) && StoredAs(s, r)
    ensures Linked(s.perms, r)
  {
    CodeHasId(s.perms, s.idByCode[r.code]);
    if r.Parent().Some? {
      CodeHasId(s.perms, s.idByCode[r.Parent().value]);
    }
  }

  /** Whatever clashes there are, this is what a synchronisation leaves. */
  lemma SyncedIsMixed(p: Forest, nextId: int, roots: seq<Node>)
    requires UniqueCodes(p) && nextId > 0 && (forall id :: id in p ==> 0 < id < nextId)
    requires DistinctCodes(Flatten(roots, None))
    ensures Mixed(p, Synced(p, nextId, roots), Flatten(roots, None))
  {
    var flat := Flatten(roots, None);
    CatalogListsParentsFirst(roots);
    var rows := InOrder(flat);
    InOrderIsArranged(flat);
    StartIsConsistent(p, nextId);
    UpsertAllStores(p, Start(p, nextId), flat, rows, |rows|);
    assert rows[..|rows|] == rows;
    var s := UpsertAll(Start(p, nextId), rows);
    forall i | 0 <= i < |flat|
      ensures IdOf(s.perms, flat[i].code).Some? && (!Dynamic(p, flat[i].code) ==> Linked(s.perms, flat[i]))
    {
      assert flat[i] in flat;
      var j :| 0 <= j < |rows| && rows[j].1 == flat[i];
      CodeHasId(s.perms, s.idByCode[flat[i].code]);
      if !Dynamic(p, flat[i].code) { StoredIsLinked(p, s, rows[j].1); }
    }
    forall c | Handled(rows, c) ensures Listed(flat, |flat|, c) {
      var j :| 0 <= j < |rows| && rows[j].1.code == c;
      assert rows[j].1 in flat;
    }
  }

  /**
   After a synchronisation the table holds the catalog tree: every catalog code has a row whose
   parent is the row of its catalog parent. Rows of other codes are untouched and no id changes.
   */
  lemma StoredTreeIsCatalogTree(p: Forest, nextId: int, roots: seq<Node>)
    requires UniqueCodes(p) && nextId > 0 && (forall id :: id in p ==> 0 < id < nextId)
    requires DistinctCodes(Flatten(roots, None)) && NoDynamicClash(p, Flatten(roots, None))
    ensures var flat, p' := Flatten(roots, None), Synced(p, nextId, roots);
            && UniqueCodes(p') && OthersKept(p, p', flat)
            && forall i :: 0 <= i < |flat| ==> Linked(p', flat[i])
  {
    SyncedIsMixed(p, nextId, roots);
  }

  lemma {:induction false} UpsertAllConsistent(p: Forest, s0: Progress, rows: seq<(nat, Row)>)
    requires Consistent(p, s0)
    ensures Consistent(p, UpsertAll(s0, rows))
  {
    if rows != [] {
      UpsertAllConsistent(p, s0, rows[..|rows| - 1]);
      UpsertKeepsConsistent(p, UpsertAll(s0, rows[..|rows| - 1]), rows[|rows| - 1].1);
    }
  }

  /** Every catalog row is stored as the catalog's own exactly when no operator's row carries a catalog code. */
  lemma OwnRowsExactlyWithoutClash(p: Forest, nextId: int, roots: seq<Node>)
    requires UniqueCodes(p) && nextId > 0 && (forall id :: id in p ==> 0 < id < nextId)
    requires DistinctCodes(Flatten(roots, None))
    ensures var flat := Flatten(roots, None);
            (forall i :: 0 <= i < |flat| ==> Linked(Synced(p, nextId, roots), flat[i])) <==> NoDynamicClash(p, flat)
  {
    var flat, p' := Flatten(roots, None), Synced(p, nextId, roots);
    if NoDynamicClash(p, flat) {
      StoredTreeIsCatalogTree(p, nextId, roots);
    } else {
      var i :| 0 <= i < |flat| && Dynamic(p, flat[i].code);
      var id :| id in p && p[id].code == flat[i].code && p[id].dynamic;
      StartIsConsistent(p, nextId);
      UpsertAllConsistent(p, Start(p, nextId), InOrder(flat));
      CodeHasId(p', id);
      assert !Linked(p', flat[i]);
    }
  }

  // ---------------------------------------------------------------- the tree, whoever owns its rows

  /** Row `id` has the catalog's type and hangs under the row of its catalog parent. */
  ghost predicate InPlace(p: Forest, id: int, r: Row)
    requires id in p
  {
    && p[id].resourceType == r.resourceType
    && match r.Parent()
       case None => p[id].parent == None
       case Some(c) => p[id].parent.Some? && p[id].parent == IdOf(p, c)
  }

  ghost predicate Placed(p: Forest, r: Row) {
    IdOf(p, r.code).Some? && InPlace(p, IdOf(p, r.code).value, r)
  }

  /** Every catalog code is stored under its catalog parent, with its catalog type. */
  ghost predicate HoldsTree(p: Forest, flat: seq<Row>) {
    forall i :: 0 <= i < |flat| ==> Placed(p, flat[i])
  }

  /** Every operator's row with a catalog code is where the catalog wants it. */
  ghost predicate ClashesInPlace(p: Forest, flat: seq<Row>) {
    forall i, id :: 0 <= i < |flat| && id in p && p[id].code == flat[i].code && p[id].dynamic ==>
                      InPlace(p, id, flat[i])
  }

  /** A parent stored before the call has the same code after it, and the other way round. */
  lemma SameParentCode(p: Forest, p': Forest, flat: seq<Row>, id: int, code: string)
    requires UniqueCodes(p) && ParentsExist(p) && Mixed(p, p', flat)
    requires id in p && p[id].dynamic && p[id].parent.Some?
    ensures p'[id] == p[id] && (p[id].parent == IdOf(p, code) <==> p'[id].parent == IdOf(p', code))
  {
    var q := p[id].parent.value;
    CodeHasId(p, q);
    CodeHasId(p', q);
    IdIsRow(p, code);
    IdIsRow(p', code);
  }

  lemma ClashPlaced(p: Forest, p': Forest, flat: seq<Row>, i: nat, id: int)
    requires UniqueCodes(p) && ParentsExist(p) && Mixed(p, p', flat) && i < |flat|
    requires id in p && p[id].code == flat[i].code && p[id].dynamic
    ensures Placed(p', flat[i]) <==> InPlace(p, id, flat[i])
  {
    CodeHasId(p', id);
    if flat[i].Parent().Some? && p[id].parent.Some? {
      SameParentCode(p, p', flat, id, flat[i].Parent().value);
    }
  }

  /**
   After a synchronisation the stored tree is the catalog tree exactly when, before it, every
   operator's row with a catalog code was already where the catalog wants it.
   */
  lemma StoredTreeExactly(p: Forest, nextId: int, roots: seq<Node>)
    requires UniqueCodes(p) && ParentsExist(p) && nextId > 0 && (forall id :: id in p ==> 0 < id < nextId)
    requires DistinctCodes(Flatten(roots, None))
    ensures var flat := Flatten(roots, None); HoldsTree(Synced(p, nextId, roots), flat) <==> ClashesInPlace(p, flat)
  {
    var flat, p' := Flatten(roots, None), Synced(p, nextId, roots);
    SyncedIsMixed(p, nextId, roots);
    forall i, id | 0 <= i < |flat| && id in p && p[id].code == flat[i].code && p[id].dynamic
      ensures Placed(p', flat[i]) <==> InPlace(p, id, flat[i])
    {
      ClashPlaced(p, p', flat, i, id);
    }
    if ClashesInPlace(p, flat) {
      forall i | 0 <= i < |flat| ensures Placed(p', flat[i]) {
        if Dynamic(p, flat[i].code) {
          var id :| id in p && p[id].code == flat[i].code && p[id].dynamic;
          assert InPlace(p, id, flat[i]);
        } else {
          assert Linked(p', flat[i]);
        }
      }
    }
  }
}
