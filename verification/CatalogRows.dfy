/** The rows the catalog comes to, said over the places of its nodes (src/auth/registry.py:15-36). */
module CatalogRows {
  import opened Prelude
  import opened Registry

  /** A place in the catalog: which root, then which child, and so on down. */
  type Place = seq<nat>

  /** The row of the node at a place, if there is one: its parent is the node one step up. */
  ghost function RowAt(nodes: seq<Node>, parent: Option<string>, place: Place): Option<Row>
    decreases |place|
  {
    if place == [] || place[0] >= |nodes| then None
    else
      var n := nodes[place[0]];
      if |place| == 1 then Some(Row(n.code, parent, n.resourceType)) else RowAt(n.children, Some(n.code), place[1..])
  }

  /** Skipping the first root. */
  lemma PlaceBehindFirst(nodes: seq<Node>, parent: Option<string>, place: Place)
    requires nodes != [] && place != [] && place[0] > 0
    ensures RowAt(nodes, parent, place) == RowAt(nodes[1..], parent, [place[0] - 1] + place[1..])
  {
    var behind := [place[0] - 1] + place[1..];
    assert behind[1..] == place[1..];
    if place[0] < |nodes| { assert nodes[1..][place[0] - 1] == nodes[place[0]]; }
  }

  lemma PlaceUnderFirst(nodes: seq<Node>, parent: Option<string>, place: Place)
    requires nodes != [] && place != []
    ensures RowAt(nodes, parent, [0] + place) == RowAt(nodes[0].children, Some(nodes[0].code), place)
  {
    assert ([0] + place)[1..] == place;
  }

  lemma {:induction false} PlacedIsListed(nodes: seq<Node>, parent: Option<string>, place: Place)
    requires RowAt(nodes, parent, place).Some?
    ensures RowAt(nodes, parent, place).value in Flatten(nodes, parent)
    decreases nodes
  {
    if place[0] > 0 {
      PlaceBehindFirst(nodes, parent, place);
      PlacedIsListed(nodes[1..], parent, [place[0] - 1] + place[1..]);
    } else if |place| > 1 {
      PlacedIsListed(nodes[0].children, Some(nodes[0].code), place[1..]);
    }
  }

  lemma {:induction false} ListedIsPlaced(nodes: seq<Node>, parent: Option<string>, row: Row) returns (place: Place)
    requires row in Flatten(nodes, parent)
    ensures RowAt(nodes, parent, place) == Some(row)
    decreases nodes
  {
    var first := Row(nodes[0].code, parent, nodes[0].resourceType);
    if row == first {
      place := [0];
    } else if row in Flatten(nodes[0].children, Some(nodes[0].code)) {
      var under := ListedIsPlaced(nodes[0].children, Some(nodes[0].code), row);
      PlaceUnderFirst(nodes, parent, under);
      place := [0] + under;
    } else {
      var behind := ListedIsPlaced(nodes[1..], parent, row);
      place := [behind[0] + 1] + behind[1..];
      PlaceBehindFirst(nodes, parent, place);
      assert [place[0] - 1] + place[1..] == behind;
    }
  }

  function Size(nodes: seq<Node>): nat
    decreases nodes
  {
    if nodes == [] then 0 else 1 + Size(nodes[0].children) + Size(nodes[1..])
  }

  lemma {:induction false} OneRowANode(nodes: seq<Node>, parent: Option<string>)
    ensures |Flatten(nodes, parent)| == Size(nodes)
    decreases nodes
  {
    if nodes != [] {
      OneRowANode(nodes[0].children, Some(nodes[0].code));
      OneRowANode(nodes[1..], parent);
    }
  }

  /**
   The rows are those of the nodes at all places, however deep, each under the node one step up and the
   roots under none; and there are as many as there are nodes.
   */
  lemma CatalogRowsExactly(roots: seq<Node>, row: Row)
    ensures row in Flatten(roots, None) <==> exists place :: RowAt(roots, None, place) == Some(row)
    ensures |Flatten(roots, None)| == Size(roots)
  {
    OneRowANode(roots, None);
    if row in Flatten(roots, None) { var place := ListedIsPlaced(roots, None, row); }
    if place :| RowAt(roots, None, place) == Some(row) { PlacedIsListed(roots, None, place); }
  }
}
