/**
 When a catalog synchronisation keeps the parent graph free of cycles (src/auth/registry.py:39-101):
 exactly when no operator's row that carries a catalog code is reached again on the way up from
 itself, by the parents stored before the call and the parents the catalog prescribes.
 */
module RegistryLoops {
  import opened Prelude
  import opened Permissions
  import opened Sorting
  import opened Registry
  import opened Chains

  // ---------------------------------------------------------------- from clash to clash

  /** An operator's row carries this catalog code; the synchronisation will skip it. */
  ghost predicate Clash(p: Forest, flat: seq<Row>, code: string) {
    Listed(flat, |flat|, code) && Dynamic(p, code)
  }

  /** The first clash at or above catalog row `i`, by catalog parents. */
  ghost function ClashFrom(p: Forest, flat: seq<Row>, i: nat): Option<string>
    decreases i
  {
    if i >= |flat| then None
    else if Dynamic(p, flat[i].code) then Some(flat[i].code)
    else
      match flat[i].Parent()
      case None => None
      case Some(c) => if IndexOf(flat, c) < i then ClashFrom(p, flat, IndexOf(flat, c)) else None
  }

  /** The first clash along stored ancestors, turning to catalog parents at the first catalog row. */
  ghost function ClashAlong(p: Forest, flat: seq<Row>, path: seq<int>): Option<string> {
    if path == [] then None
    else if path[0] in p && Listed(flat, |flat|, p[path[0]].code)
        then ClashFrom(p, flat, IndexOf(flat, p[path[0]].code))
    else ClashAlong(p, flat, path[1..])
  }

  ghost function ClashAbove(p: Forest, flat: seq<Row>, id: int): Option<string>
    requires id in p
  {
    ClashAlong(p, flat, Ancestors(p, id)[1..])
  }

  /** The next clash on the way up from a clash. */
  ghost function NextClash(p: Forest, flat: seq<Row>, code: string): Option<string> {
    match IdOf(p, code)
    case Some(id) => ClashAbove(p, flat, id)
    case None => None
  }

  ghost function Next(p: Forest, flat: seq<Row>): string -> Option<string> {
    code => NextClash(p, flat, code)
  }

  ghost function Clashes(p: Forest, flat: seq<Row>): set<string> {
    set code | code in Codes(p) && Clash(p, flat, code)
  }

  /** Some clash is reached again on the way up from itself. */
  ghost predicate ClashLoop(p: Forest, flat: seq<Row>) {
    exists code :: Clash(p, flat, code) && Reaches(Next(p, flat), code, code)
  }

  /** The table before the call, the catalog, and the table after. */
  ghost predicate Sound(p: Forest, p': Forest, flat: seq<Row>) {
    && UniqueCodes(p) && Acyclic(p) && ParentsExist(p) && 0 !in p
    && DistinctCodes(flat) && ParentsFirst(flat) && Mixed(p, p', flat)
  }

  /** The stored ancestors of a row are its parent and the parent's ancestors. */
  lemma PathAbove(p: Forest, id: int)
    requires Acyclic(p) && id in p
    ensures Ancestors(p, id) != [] && Ancestors(p, id)[0] == id
    ensures Ancestors(p, id)[1..] == match Up(p, id) case Some(q) => Ancestors(p, q) case None => []
  {
    AncestorsUnfold(p, id);
  }

  /** An operator's row is the only one with its code, and stays as it is. */
  lemma DynamicRow(p: Forest, p': Forest, flat: seq<Row>, code: string) returns (id: int)
    requires Sound(p, p', flat) && Dynamic(p, code)
    ensures id in p && p[id].code == code && p[id].dynamic && p'[id] == p[id]
    ensures IdOf(p, code) == Some(id) == IdOf(p', code)
  {
    id :| id in p && p[id].code == code && p[id].dynamic;
    CodeHasId(p, id);
    CodeHasId(p', id);
  }

  lemma {:induction false} ClashFromIsClash(p: Forest, flat: seq<Row>, i: nat)
    ensures ClashFrom(p, flat, i).Some? ==> Clash(p, flat, ClashFrom(p, flat, i).value)
  {
    if i < |flat| && !Dynamic(p, flat[i].code) && flat[i].Parent().Some? {
      var j := IndexOf(flat, flat[i].Parent().value);
      if j < i { ClashFromIsClash(p, flat, j); }
    }
  }

  lemma {:induction false} ClashAlongIsClash(p: Forest, flat: seq<Row>, path: seq<int>)
    ensures ClashAlong(p, flat, path).Some? ==> Clash(p, flat, ClashAlong(p, flat, path).value)
  {
    if path != [] {
      if path[0] in p { ClashFromIsClash(p, flat, IndexOf(flat, p[path[0]].code)); }
      ClashAlongIsClash(p, flat, path[1..]);
    }
  }

  lemma NextClashIsClash(p: Forest, flat: seq<Row>, code: string)
    ensures NextClash(p, flat, code).Some? ==> Clash(p, flat, NextClash(p, flat, code).value)
  {
    match IdOf(p, code) {
      case Some(id) => ClashAlongIsClash(p, flat, Ancestors(p, id)[1..]);
      case None =>
    }
  }

  // ---------------------------------------------------------------- a loop of clashes is a cycle

  /** The row with this code ranks at least `drop` below `bound`. */
  ghost predicate RanksBelow(p': Forest, rank: map<int, nat>, code: string, drop: nat, bound: nat) {
    IdOf(p', code).Some? && IdOf(p', code).value in rank && rank[IdOf(p', code).value] + drop <= bound
  }

  lemma {:induction false} ClashFromFalls(p: Forest, p': Forest, flat: seq<Row>, rank: map<int, nat>, i: nat)
    requires Sound(p, p', flat) && Ranked(p', rank) && i < |flat|
    ensures IdOf(p', flat[i].code).Some?
    ensures ClashFrom(p, flat, i).Some? ==>
              RanksBelow(p', rank, ClashFrom(p, flat, i).value, 0, rank[IdOf(p', flat[i].code).value])
    decreases i
  {
    if !Dynamic(p, flat[i].code) && flat[i].Parent().Some? {
      assert Linked(p', flat[i]);
      var c := flat[i].Parent().value;
      assert Listed(flat, i, c);
      var j := IndexOf(flat, c);
      ClashFromFalls(p, p', flat, rank, j);
      assert Up(p', IdOf(p', flat[i].code).value) == IdOf(p', c);
    }
  }

  lemma {:induction false} ClashAlongFalls(p: Forest, p': Forest, flat: seq<Row>, before: map<int, nat>,
                                           rank: map<int, nat>, id: int)
    requires Sound(p, p', flat) && Ranked(p, before) && Ranked(p', rank) && id in p
    ensures var d := ClashAlong(p, flat, Ancestors(p, id)); d.Some? ==> RanksBelow(p', rank, d.value, 0, rank[id])
    decreases before[id]
  {
    PathAbove(p, id);
    CodeHasId(p', id);
    if Listed(flat, |flat|, p[id].code) {
      ClashFromFalls(p, p', flat, rank, IndexOf(flat, p[id].code));
    } else if Up(p, id).Some? {
      var q := Up(p, id).value;
      assert p'[id] == p[id] && Up(p', id) == Some(q) && q in p';
      ClashAlongFalls(p, p', flat, before, rank, q);
    }
  }

  lemma NextClashFalls(p: Forest, p': Forest, flat: seq<Row>, before: map<int, nat>, rank: map<int, nat>, code: string)
    requires Sound(p, p', flat) && Ranked(p, before) && Ranked(p', rank) && Clash(p, flat, code)
    requires NextClash(p, flat, code).Some?
    ensures IdOf(p', code).Some?
    ensures RanksBelow(p', rank, NextClash(p, flat, code).value, 1, rank[IdOf(p', code).value])
  {
    var id := DynamicRow(p, p', flat, code);
    PathAbove(p, id);
    if Up(p, id).Some? {
      var q := Up(p, id).value;
      assert Up(p', id) == Some(q) && q in p';
      ClashAlongFalls(p, p', flat, before, rank, q);
    }
  }

  lemma {:induction false} HopsFall(p: Forest, p': Forest, flat: seq<Row>, before: map<int, nat>, rank: map<int, nat>,
                                    code: string, n: nat)
    requires Sound(p, p', flat) && Ranked(p, before) && Ranked(p', rank) && Clash(p, flat, code)
    requires Hops(Next(p, flat), code, n).Some?
    ensures var d := Hops(Next(p, flat), code, n).value;
            && Clash(p, flat, d) && IdOf(p', code).Some?
            && RanksBelow(p', rank, d, n, rank[IdOf(p', code).value])
  {
    if n == 0 {
      var id := DynamicRow(p, p', flat, code);
    } else {
      HopsFall(p, p', flat, before, rank, code, n - 1);
      var c := Hops(Next(p, flat), code, n - 1).value;
      NextClashFalls(p, p', flat, before, rank, c);
      NextClashIsClash(p, flat, c);
    }
  }

  lemma LoopIsCyclic(p: Forest, p': Forest, flat: seq<Row>)
    requires Sound(p, p', flat) && ClashLoop(p, flat)
    ensures !Acyclic(p')
  {
    var code :| Clash(p, flat, code) && Reaches(Next(p, flat), code, code);
    var n: nat :| 1 <= n && Hops(Next(p, flat), code, n) == Some(code);
    var before: map<int, nat> :| Ranked(p, before);
    forall rank | Ranked(p', rank) ensures false {
      HopsFall(p, p', flat, before, rank, code, n);
    }
  }

  // ---------------------------------------------------------------- without one, rows can be ranked

  /** Without a loop, each clash is higher than the next clash above it. */
  lemma ClashesFall(p: Forest, flat: seq<Row>, code: string)
    requires !ClashLoop(p, flat) && Clash(p, flat, code)
    ensures Height(Next(p, flat), NextClash(p, flat, code)) < Height(Next(p, flat), Some(code))
  {
    forall c { NextClashIsClash(p, flat, c); }
    HeightFalls(Next(p, flat), Clashes(p, flat), code);
  }

  /** The synchronisation links this row as the catalog says. */
  ghost predicate Relinked(p: Forest, flat: seq<Row>, code: string) {
    Listed(flat, |flat|, code) && !Dynamic(p, code)
  }

  /** The first clash above a row of the new table. */
  ghost function FirstClash(p: Forest, flat: seq<Row>, id: int, code: string): Option<string> {
    if Relinked(p, flat, code) then ClashFrom(p, flat, IndexOf(flat, code))
    else if id in p then ClashAbove(p, flat, id)
    else None
  }

  /** The place of a row among those with the same clash above: relinked ones below the others. */
  ghost function Place(p: Forest, flat: seq<Row>, before: map<int, nat>, id: int, code: string): nat {
    if Relinked(p, flat, code) then IndexOf(flat, code) else |flat| + if id in before then before[id] else 0
  }

  ghost predicate Falls(p: Forest, p': Forest, flat: seq<Row>, before: map<int, nat>, y: int, x: int)
    requires x in p' && y in p'
  {
    var hx := Height(Next(p, flat), FirstClash(p, flat, x, p'[x].code));
    var hy := Height(Next(p, flat), FirstClash(p, flat, y, p'[y].code));
    hy < hx || (hy == hx && Place(p, flat, before, y, p'[y].code) < Place(p, flat, before, x, p'[x].code))
  }

  /** A row that is not relinked was there before and keeps its stored parent. */
  lemma KeptRow(p: Forest, p': Forest, flat: seq<Row>, id: int)
    requires Sound(p, p', flat) && id in p' && !Relinked(p, flat, p'[id].code)
    ensures id in p && p'[id] == p[id]
  {
    CodeHasId(p', id);
    if Dynamic(p, p'[id].code) {
      var d := DynamicRow(p, p', flat, p'[id].code);
    }
  }

  /** Above a row whose parent `y` is a catalog row, by whichever link. */
  lemma ParentInCatalog(p: Forest, p': Forest, flat: seq<Row>, before: map<int, nat>, y: int, x: int)
    requires Sound(p, p', flat) && Ranked(p, before) && !ClashLoop(p, flat)
    requires x in p' && y in p' && Listed(flat, |flat|, p'[y].code)
    requires FirstClash(p, flat, x, p'[x].code) == ClashFrom(p, flat, IndexOf(flat, p'[y].code))
    requires Relinked(p, flat, p'[x].code) ==> IndexOf(flat, p'[y].code) < IndexOf(flat, p'[x].code)
    ensures Falls(p, p', flat, before, y, x)
  {
    var code := p'[y].code;
    if Dynamic(p, code) {
      var d := DynamicRow(p, p', flat, code);
      CodeHasId(p', y);
      assert FirstClash(p, flat, y, code) == NextClash(p, flat, code);
      ClashesFall(p, flat, code);
    }
  }

  lemma RelinkedFalls(p: Forest, p': Forest, flat: seq<Row>, before: map<int, nat>, x: int)
    requires Sound(p, p', flat) && Ranked(p, before) && !ClashLoop(p, flat)
    requires x in p' && Relinked(p, flat, p'[x].code) && p'[x].parent.Some?
    ensures p'[x].parent.value in p' && Falls(p, p', flat, before, p'[x].parent.value, x)
  {
    var i := IndexOf(flat, p'[x].code);
    CodeHasId(p', x);
    assert Linked(p', flat[i]);
    var c := flat[i].Parent().value;
    assert Listed(flat, i, c);
    ParentInCatalog(p, p', flat, before, p'[x].parent.value, x);
  }

  lemma KeptFalls(p: Forest, p': Forest, flat: seq<Row>, before: map<int, nat>, x: int)
    requires Sound(p, p', flat) && Ranked(p, before) && !ClashLoop(p, flat)
    requires x in p' && !Relinked(p, flat, p'[x].code) && p'[x].parent.Some?
    ensures p'[x].parent.value in p' && Falls(p, p', flat, before, p'[x].parent.value, x)
  {
    KeptRow(p, p', flat, x);
    var y := p[x].parent.value;
    PathAbove(p, x);
    PathAbove(p, y);
    assert Up(p, x) == Some(y);
    if Listed(flat, |flat|, p'[y].code) {
      ParentInCatalog(p, p', flat, before, y, x);
    }
  }

  lemma RowFalls(p: Forest, p': Forest, flat: seq<Row>, before: map<int, nat>, x: int)
    requires Sound(p, p', flat) && Ranked(p, before) && !ClashLoop(p, flat)
    requires x in p' && Up(p', x).Some? && Up(p', x).value in p'
    ensures Falls(p, p', flat, before, Up(p', x).value, x)
  {
    if Relinked(p, flat, p'[x].code) {
      RelinkedFalls(p, p', flat, before, x);
    } else {
      KeptFalls(p, p', flat, before, x);
    }
  }

  // ---------------------------------------------------------------- two measures make one rank

  lemma {:induction false} BoundOf<K>(m: map<K, nat>, keys: set<K>) returns (bound: nat)
    requires keys <= m.Keys
    ensures forall k <- keys :: m[k] < bound
  {
    if keys == {} {
      bound := 0;
    } else {
      var k :| k in keys;
      var rest := BoundOf(m, keys - {k});
      bound := if m[k] < rest then rest else m[k] + 1;
    }
  }

  lemma MeasuresRank(p: Forest, high: map<int, nat>, low: map<int, nat>)
    requires high.Keys == p.Keys && low.Keys == p.Keys
    requires forall id :: id in p && Up(p, id).Some? && Up(p, id).value in p ==>
               var q := Up(p, id).value; high[q] < high[id] || (high[q] == high[id] && low[q] < low[id])
    ensures Acyclic(p)
  {
    var bound := BoundOf(low, p.Keys);
    var rank: map<int, nat> := map id | id in p :: Combined(high[id], low[id], bound);
    forall id | id in p && Up(p, id).Some? && Up(p, id).value in p ensures rank[Up(p, id).value] < rank[id] {
      var q := Up(p, id).value;
      CombinedFalls(high[q], low[q], high[id], low[id], bound);
    }
    assert Ranked(p, rank);
  }

  /** `high * bound + low` */
  function Combined(high: nat, low: nat, bound: nat): nat {
    if high == 0 then low else bound + Combined(high - 1, low, bound)
  }

  lemma {:induction false} CombinedFalls(x: nat, i: nat, y: nat, j: nat, bound: nat)
    requires i < bound && (x < y || (x == y && i < j))
    ensures Combined(x, i, bound) < Combined(y, j, bound)
  {
    if x > 0 { CombinedFalls(x - 1, i, y - 1, j, bound); }
  }

  lemma NoLoopIsAcyclic(p: Forest, p': Forest, flat: seq<Row>)
    requires Sound(p, p', flat) && !ClashLoop(p, flat)
    ensures Acyclic(p')
  {
    var before: map<int, nat> :| Ranked(p, before);
    var high: map<int, nat> := map id | id in p' :: Height(Next(p, flat), FirstClash(p, flat, id, p'[id].code));
    var low: map<int, nat> := map id | id in p' :: Place(p, flat, before, id, p'[id].code);
    forall id | id in p' && Up(p', id).Some? && Up(p', id).value in p'
      ensures var q := Up(p', id).value; high[q] < high[id] || (high[q] == high[id] && low[q] < low[id])
    {
      RowFalls(p, p', flat, before, id);
    }
    MeasuresRank(p', high, low);
  }

  // ---------------------------------------------------------------- the result

  lemma ParentsStillExist(p: Forest, p': Forest, flat: seq<Row>)
    requires Sound(p, p', flat)
    ensures ParentsExist(p')
  {
    forall id | id in p' && p'[id].parent.Some? ensures p'[id].parent.value in p' {
      if Relinked(p, flat, p'[id].code) {
        CodeHasId(p', id);
        var r := flat[IndexOf(flat, p'[id].code)];
        assert Linked(p', r) && r.Parent().Some?;
        IdIsRow(p', r.Parent().value);
      } else {
        KeptRow(p, p', flat, id);
        CodeHasId(p, p[id].parent.value);
      }
    }
  }

  /**
   A synchronisation never leaves a row under a missing parent. It keeps the parent graph free of
   cycles, so that the ancestor walk still ends, exactly when no clash is reached again from itself.
   */
  lemma SyncKeepsForestExactly(p: Forest, nextId: int, roots: seq<Node>)
    requires UniqueCodes(p) && Acyclic(p) && ParentsExist(p)
    requires nextId > 0 && (forall id :: id in p ==> 0 < id < nextId)
    requires DistinctCodes(Flatten(roots, None))
    ensures ParentsExist(Synced(p, nextId, roots))
    ensures Acyclic(Synced(p, nextId, roots)) <==> !ClashLoop(p, Flatten(roots, None))
  {
    var flat, p' := Flatten(roots, None), Synced(p, nextId, roots);
    SyncedIsMixed(p, nextId, roots);
    CatalogListsParentsFirst(roots);
    ParentsStillExist(p, p', flat);
    if ClashLoop(p, flat) {
      LoopIsCyclic(p, p', flat);
    } else {
      NoLoopIsAcyclic(p, p', flat);
    }
  }

  /** In particular when no operator's row carries a catalog code. */
  lemma SyncKeepsForest(p: Forest, nextId: int, roots: seq<Node>)
    requires UniqueCodes(p) && Acyclic(p) && ParentsExist(p)
    requires nextId > 0 && (forall id :: id in p ==> 0 < id < nextId)
    requires DistinctCodes(Flatten(roots, None)) && NoDynamicClash(p, Flatten(roots, None))
    ensures Acyclic(Synced(p, nextId, roots)) && ParentsExist(Synced(p, nextId, roots))
  {
    SyncKeepsForestExactly(p, nextId, roots);
  }

  // ---------------------------------------------------------------- what a clash can do

  /** A catalog of one root with one child, flattened and put in order. */
  lemma TwoNodeCatalog(a: string, x: string, kind: string)
    requires a != x && x != ""
    ensures var flat := Flatten([Node(x, kind, [Node(a, kind, [])])], None);
            && flat == [Row(x, None, kind), Row(a, Some(x), kind)] && DistinctCodes(flat)
            && InOrder(flat) == [(0, flat[0]), (1, flat[1])]
  {
    var leaf := [Node(a, kind, [])];
    var roots := [Node(x, kind, leaf)];
    var rx, ra := Row(x, None, kind), Row(a, Some(x), kind);
    assert leaf[0].children == [] && leaf[1..] == [] && roots[1..] == [] && roots[0].children == leaf;
    assert Flatten(leaf, Some(x)) == [ra];
    var flat := Flatten(roots, None);
    assert flat == [rx] + Flatten(leaf, Some(x)) + Flatten(roots[1..], None);
    assert flat == [rx, ra];
    assert IndexOf(flat, x) == 0 && IndexOf(flat, a) == 1;
    var k, none: seq<(nat, Row)> := Keyed(flat), [];
    assert k == [(0, rx), (1, ra)];
    assert k[..1] == [(0, rx)];
    assert SortBy(ByDepth, none) == none && k[..1][..0] == none;
    assert SortBy(ByDepth, k[..1]) == [(0, rx)];
  }

  lemma TwoUpserts(s: Progress, x: (nat, Row), y: (nat, Row))
    ensures UpsertAll(s, [x, y]) == Upsert(Upsert(s, x.1), y.1)
  {
    var rows, none: seq<(nat, Row)> := [x, y], [];
    assert rows[..1] == [x] && rows[..1][..0] == none;
    assert UpsertAll(s, none) == s;
    assert UpsertAll(s, rows[..1]) == Upsert(s, x.1);
  }

  lemma SkippedRowTiesLoop(p: Forest, s: Progress, x: Row, a: Row)
    requires 1 in p && 2 in p && UniqueCodes(p) && Indexed(p, s.idByCode) && s.perms == p
    requires p[1].code == a.code && !p[1].dynamic && p[2].code == x.code && p[2].dynamic && p[2].parent == Some(1)
    requires x.Parent() == None && a.Parent() == Some(x.code)
    ensures var p' := Upsert(Upsert(s, x), a).perms;
            1 in p' && 2 in p' && Up(p', 1) == Some(2) && Up(p', 2) == Some(1)
  {
  }

  lemma LoopIsCycle(p: Forest, i: int, j: int)
    requires i in p && j in p && Up(p, i) == Some(j) && Up(p, j) == Some(i)
    ensures !Acyclic(p)
  {
  }

  /** A node `a` from the catalog, and `x`, which an operator added under it. */
  function OperatorTable(a: string, x: string, kind: string): Forest {
    map[1 := Perm(a, None, kind, false), 2 := Perm(x, Some(1), kind, true)]
  }

  /** A later catalog in which `x` is the parent of `a`. */
  function LaterCatalog(a: string, x: string, kind: string): seq<Node> {
    [Node(x, kind, [Node(a, kind, [])])]
  }

  lemma OperatorTableIsForest(a: string, x: string, kind: string)
    requires a != x
    ensures var p := OperatorTable(a, x, kind); Acyclic(p) && UniqueCodes(p) && ParentsExist(p)
  {
    assert Ranked(OperatorTable(a, x, kind), map[1 := 0, 2 := 1]);
  }

  /**
   The clash condition matters: when the catalog takes up a code that an operator had added under
   the node it now becomes the parent of, the upsert skips the operator's row and ties a loop.
   */
  lemma ClashCanTieALoop(a: string, x: string, kind: string)
    requires a != x && x != ""
    ensures var p, roots := OperatorTable(a, x, kind), LaterCatalog(a, x, kind);
            && Acyclic(p) && UniqueCodes(p) && ParentsExist(p) && DistinctCodes(Flatten(roots, None))
            && !NoDynamicClash(p, Flatten(roots, None)) && !Acyclic(Synced(p, 3, roots))
  {
    var p, roots := OperatorTable(a, x, kind), LaterCatalog(a, x, kind);
    OperatorTableIsForest(a, x, kind);
    TwoNodeCatalog(a, x, kind);
    var flat, s := Flatten(roots, None), Start(p, 3);
    assert p[2].code == flat[0].code && p[2].dynamic;
    StartIsConsistent(p, 3);
    TwoUpserts(s, (0, flat[0]), (1, flat[1]));
    SkippedRowTiesLoop(p, s, flat[0], flat[1]);
    LoopIsCycle(Synced(p, 3, roots), 1, 2);
  }

  /** The same clash leaves `x` under `a`, where the catalog wants it at the top. */
  lemma ClashCanMisplace(a: string, x: string, kind: string)
    requires a != x && x != ""
    ensures var p, roots := OperatorTable(a, x, kind), LaterCatalog(a, x, kind);
            !HoldsTree(Synced(p, 3, roots), Flatten(roots, None))
  {
    var p, roots := OperatorTable(a, x, kind), LaterCatalog(a, x, kind);
    OperatorTableIsForest(a, x, kind);
    TwoNodeCatalog(a, x, kind);
    StoredTreeExactly(p, 3, roots);
    assert p[2].code == Flatten(roots, None)[0].code && p[2].dynamic && p[2].parent == Some(1);
    assert !InPlace(p, 2, Flatten(roots, None)[0]);
  }

  /** A clash is harmless when the later catalog puts `x` under `a` too. */
  lemma ClashCanBeInPlace(a: string, x: string, kind: string)
    requires a != x && a != ""
    ensures var p, roots := OperatorTable(a, x, kind), LaterCatalog(x, a, kind);
            && !NoDynamicClash(p, Flatten(roots, None)) && HoldsTree(Synced(p, 3, roots), Flatten(roots, None))
  {
    var p, roots := OperatorTable(a, x, kind), LaterCatalog(x, a, kind);
    OperatorTableIsForest(a, x, kind);
    TwoNodeCatalog(x, a, kind);
    CodeHasId(p, 1);
    StoredTreeExactly(p, 3, roots);
    assert p[2].code == Flatten(roots, None)[1].code && p[2].dynamic;
  }
}
