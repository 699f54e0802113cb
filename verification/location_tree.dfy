/**
 * The location tree navigator: a fixed hierarchy of locations, a set of
 * expanded node ids, and the rows the tree shows for them.
 */
module LocationTree {
  import opened Wrappers
  import opened Palette

  /** One location. A node written without a `children` field has no children. */
  datatype Node = Node(
    id: string,
    name: string,
    kind: string,
    activeDisasters: int,
    severity: string,
    children: seq<Node>)

  /** The tree draws an expand button and may show children only for such nodes. */
  predicate HasChildren(n: Node) {
    |n.children| > 0
  }

  function City(id: string, name: string, activeDisasters: int, severity: string): Node {
    Node(id, name, "city", activeDisasters, severity, [])
  }

  /** The kind of location at each level of the hierarchy. */
  const LevelKinds: seq<string> := ["global", "region", "country", "city"]

  /**
   * `n` sits at `level` of the hierarchy: its kind is that level's kind, its
   * children sit one level lower, and cities have no children.
   */
  predicate Ranked(n: Node, level: nat)
    decreases n
  {
    level < |LevelKinds| && n.kind == LevelKinds[level] &&
    (level == |LevelKinds| - 1 ==> !HasChildren(n)) &&
    forall i :: 0 <= i < |n.children| ==> Ranked(n.children[i], level + 1)
  }

  /** The hard-coded location registry: one global root over three regions. */
  function Registry(): (r: seq<Node>)
    ensures |r| == 1 && Ranked(r[0], 0)
  {
    RegionsRanked();
    [Node("global", "Global Overview", "global", 47, "critical", [MiddleEast(), AsiaPacific(), Americas()])]
  }

  /** Each region of the registry is ranked as a region, down to its cities. */
  lemma RegionsRanked()
    ensures Ranked(MiddleEast(), 1) && Ranked(AsiaPacific(), 1) && Ranked(Americas(), 1)
  {
    MiddleEastRanked();
    AsiaPacificRanked();
    assert Ranked(Americas().children[0], 2);
  }

  lemma MiddleEastRanked()
    ensures Ranked(MiddleEast(), 1)
  {
    assert Ranked(MiddleEast().children[0], 2) && Ranked(MiddleEast().children[1], 2);
  }

  lemma AsiaPacificRanked()
    ensures Ranked(AsiaPacific(), 1)
  {
    assert Ranked(AsiaPacific().children[0], 2) && Ranked(AsiaPacific().children[1], 2);
  }

  function MiddleEast(): Node {
    Node("middle-east", "Middle East & North Africa", "region", 12, "high", [
      Node("uae", "United Arab Emirates", "country", 3, "medium", [
        City("dubai", "Dubai", 1, "medium"),
        City("abu-dhabi", "Abu Dhabi", 2, "high")]),
      Node("saudi", "Saudi Arabia", "country", 4, "high", [
        City("riyadh", "Riyadh", 2, "high"),
        City("jeddah", "Jeddah", 2, "medium")])])
  }

  function AsiaPacific(): Node {
    Node("asia-pacific", "Asia Pacific", "region", 18, "critical", [
      Node("philippines", "Philippines", "country", 8, "critical", [
        City("manila", "Manila", 3, "critical"),
        City("cebu", "Cebu", 2, "high")]),
      Node("indonesia", "Indonesia", "country", 6, "high", [
        City("jakarta", "Jakarta", 3, "high"),
        City("surabaya", "Surabaya", 1, "medium")])])
  }

  function Americas(): Node {
    Node("americas", "Americas", "region", 11, "high", [
      Node("usa", "United States", "country", 7, "high", [
        City("miami", "Miami", 2, "high"),
        City("houston", "Houston", 1, "medium")])])
  }

  /** The nodes shown expanded when the tree is first drawn. */
  const InitialExpanded: set<string> := {"global", "middle-east", "asia-pacific"}

  // ---------------------------------------------------------------------------
  // Colour and icon switches of the tree

  /** Text colour of a node's icon and badge. */
  function SeverityColor(severity: string): (r: string)
    ensures r == "text-" + Hue(Classify(severity)) + "-400"
  {
    if severity == "critical" then
      assert "text-red-400" == "text-" + "red" + "-400";
      "text-red-400"
    else if severity == "high" then
      assert "text-orange-400" == "text-" + "orange" + "-400";
      "text-orange-400"
    else if severity == "medium" then
      assert "text-yellow-400" == "text-" + "yellow" + "-400";
      "text-yellow-400"
    else if severity == "low" then
      assert "text-green-400" == "text-" + "green" + "-400";
      "text-green-400"
    else
      assert "text-slate-400" == "text-" + "slate" + "-400";
      "text-slate-400"
  }

  /** Background tint of a node's icon and badge. */
  function SeverityBg(severity: string): (r: string)
    ensures r == "bg-" + Hue(Classify(severity)) + "-500/20"
  {
    if severity == "critical" then
      assert "bg-red-500/20" == "bg-" + "red" + "-500/20";
      "bg-red-500/20"
    else if severity == "high" then
      assert "bg-orange-500/20" == "bg-" + "orange" + "-500/20";
      "bg-orange-500/20"
    else if severity == "medium" then
      assert "bg-yellow-500/20" == "bg-" + "yellow" + "-500/20";
      "bg-yellow-500/20"
    else if severity == "low" then
      assert "bg-green-500/20" == "bg-" + "green" + "-500/20";
      "bg-green-500/20"
    else
      assert "bg-slate-500/20" == "bg-" + "slate" + "-500/20";
      "bg-slate-500/20"
  }

  /** The location kinds the icon switch knows. */
  const KnownKinds: set<string> := {"global", "region", "country", "city"}

  /** Icon of a node's kind. */
  function TypeIcon(kind: string): (r: string)
    ensures r == "Circle" <==> kind !in KnownKinds
    ensures r in {"Globe", "Map", "Flag", "MapPin", "Circle"}
  {
    if kind == "global" then "Globe"
    else if kind == "region" then "Map"
    else if kind == "country" then "Flag"
    else if kind == "city" then "MapPin"
    else "Circle"
  }

  /** Two kinds share an icon only when they are equal or both unknown. */
  lemma TypeIconInjective(a: string, b: string)
    requires TypeIcon(a) == TypeIcon(b)
    ensures a == b || (a !in KnownKinds && b !in KnownKinds)
  {
  }

  // ---------------------------------------------------------------------------
  // Expansion state

  /** Flips the membership of `id` in the expanded set; no check that the node has children. */
  function Toggle(expanded: set<string>, id: string): (r: set<string>)
    ensures id in r <==> id !in expanded
    ensures forall other :: other != id ==> (other in r <==> other in expanded)
  {
    if id in expanded then expanded - {id} else expanded + {id}
  }

  /** Toggling the same id twice restores the expanded set. */
  lemma ToggleInvolution(expanded: set<string>, id: string)
    ensures Toggle(Toggle(expanded, id), id) == expanded
  {
  }

  // ---------------------------------------------------------------------------
  // Visible rows

  /** A shown node with its nesting depth (0 for a root). */
  datatype Entry = Entry(node: Node, depth: nat)

  /** The rows of one node drawn at `depth`: the node, then its subtree if it is open. */
  function VisibleNode(n: Node, expanded: set<string>, depth: nat): (rows: seq<Entry>)
    ensures |rows| >= 1 && rows[0] == Entry(n, depth)
    ensures forall e :: e in rows ==> e.depth >= depth
    decreases n
  {
    [Entry(n, depth)] +
    (if HasChildren(n) && n.id in expanded then VisibleForest(n.children, expanded, depth + 1) else [])
  }

  /** The rows of a list of sibling nodes, in list order, each followed by its open subtree. */
  function VisibleForest(nodes: seq<Node>, expanded: set<string>, depth: nat): (rows: seq<Entry>)
    ensures |nodes| == 0 <==> |rows| == 0
    ensures |nodes| > 0 ==> rows[0] == Entry(nodes[0], depth)
    ensures forall e :: e in rows ==> e.depth >= depth
    decreases nodes
  {
    if |nodes| == 0 then []
    else VisibleNode(nodes[0], expanded, depth) + VisibleForest(nodes[1..], expanded, depth)
  }

  // ---------------------------------------------------------------------------
  // What each row shows

  /** Left of a row: a chevron button for a node with children (pointing down when open), else a spacer. */
  datatype Affordance = Spacer | Chevron(open: bool)

  /** One drawn row. */
  datatype Row = Row(node: Node, depth: nat, indentPx: int, selected: bool, affordance: Affordance)

  /** The row for one visible entry; `selectedId` is the id of the page's selection, if it has one. */
  function RowOf(e: Entry, expanded: set<string>, selectedId: Option<string>): Row {
    Row(e.node, e.depth, e.depth * 16 + 8, selectedId == Some(e.node.id),
        if HasChildren(e.node) then Chevron(e.node.id in expanded) else Spacer)
  }

  /** The rows of the whole tree, roots at depth 0. */
  function Rows(roots: seq<Node>, expanded: set<string>, selectedId: Option<string>): (rows: seq<Row>)
    ensures |rows| == |VisibleForest(roots, expanded, 0)|
    ensures |roots| > 0 ==> rows[0].node == roots[0] && rows[0].depth == 0 && rows[0].indentPx == 8
    ensures forall i :: 0 <= i < |rows| ==>
      var e := VisibleForest(roots, expanded, 0)[i];
      rows[i].node == e.node && rows[i].depth == e.depth && rows[i].indentPx == 16 * e.depth + 8
    ensures forall i :: 0 <= i < |rows| ==>
      (rows[i].selected <==> selectedId.Some? && selectedId.value == rows[i].node.id)
    ensures forall i :: 0 <= i < |rows| ==>
      (rows[i].affordance.Chevron? <==> HasChildren(rows[i].node)) &&
      (rows[i].affordance == Chevron(true) <==> HasChildren(rows[i].node) && rows[i].node.id in expanded)
  {
    var entries := VisibleForest(roots, expanded, 0);
    seq(|entries|, i requires 0 <= i < |entries| => RowOf(entries[i], expanded, selectedId))
  }

  /** Ids of every node of a forest, in pre-order (open or not). */
  function AllIds(nodes: seq<Node>): (ids: seq<string>)
    ensures |nodes| > 0 ==> |ids| > 0 && ids[0] == nodes[0].id
    decreases nodes
  {
    if |nodes| == 0 then [] else [nodes[0].id] + AllIds(nodes[0].children) + AllIds(nodes[1..])
  }

  /** Ids of every node of a forest that has children, i.e. that can be opened. */
  function BranchIds(nodes: seq<Node>): set<string>
    decreases nodes
  {
    if |nodes| == 0 then {}
    else (if HasChildren(nodes[0]) then {nodes[0].id} else {}) + BranchIds(nodes[0].children) + BranchIds(nodes[1..])
  }

  /** Two expanded sets agree on every id of `ids`. */
  predicate AgreeOn(e1: set<string>, e2: set<string>, ids: set<string>) {
    forall x :: x in ids ==> (x in e1 <==> x in e2)
  }

  predicate Distinct<T(==)>(xs: seq<T>) {
    forall i, j :: 0 <= i < j < |xs| ==> xs[i] != xs[j]
  }

  /** The entries a forest contributes at exactly `depth`, in order. */
  function AtDepth(rows: seq<Entry>, depth: nat): (r: seq<Entry>)
    ensures forall e :: e in r ==> e in rows && e.depth == depth
  {
    if |rows| == 0 then []
    else (if rows[0].depth == depth then [rows[0]] else []) + AtDepth(rows[1..], depth)
  }

  /** Each node of a forest paired with one depth. */
  function Entries(nodes: seq<Node>, depth: nat): (r: seq<Entry>)
    ensures |r| == |nodes|
    ensures forall i :: 0 <= i < |nodes| ==> r[i] == Entry(nodes[i], depth)
  {
    seq(|nodes|, i requires 0 <= i < |nodes| => Entry(nodes[i], depth))
  }

  /** `child` is what the row after an open `parent` shows: its first child. */
  predicate OpensInto(parent: Node, expanded: set<string>, child: Node) {
    HasChildren(parent) && parent.id in expanded && child == parent.children[0]
  }

  /**
   * Consecutive rows never go more than one level deeper, and a row one level
   * deeper than the row above it is the first child of that open row.
   */
  ghost predicate WellNested(rows: seq<Entry>, expanded: set<string>) {
    forall i :: 0 < i < |rows| ==>
      rows[i].depth <= rows[i - 1].depth + 1 &&
      (rows[i].depth == rows[i - 1].depth + 1 ==> OpensInto(rows[i - 1].node, expanded, rows[i].node))
  }

  // ---------------------------------------------------------------------------
  // Laws of the visible rows

  /** A node's subtree rows follow it directly, and exist iff it has children and is expanded. */
  lemma SubtreeFollowsNode(n: Node, expanded: set<string>, depth: nat)
    ensures |VisibleNode(n, expanded, depth)| > 1 <==> HasChildren(n) && n.id in expanded
    ensures HasChildren(n) && n.id in expanded ==>
      VisibleNode(n, expanded, depth)[1..] == VisibleForest(n.children, expanded, depth + 1)
  {
  }

  lemma {:induction false} AtDepthAppend(a: seq<Entry>, b: seq<Entry>, depth: nat)
    ensures AtDepth(a + b, depth) == AtDepth(a, depth) + AtDepth(b, depth)
  {
    if |a| > 0 {
      assert (a + b)[0] == a[0];
      assert (a + b)[1..] == a[1..] + b;
      AtDepthAppend(a[1..], b, depth);
    } else {
      assert a + b == b;
    }
  }

  lemma {:induction false} AtDepthDeeper(rows: seq<Entry>, depth: nat)
    requires forall e :: e in rows ==> e.depth > depth
    ensures AtDepth(rows, depth) == []
  {
    if |rows| > 0 {
      assert rows[0] in rows;
      assert forall e :: e in rows[1..] ==> e in rows;
      AtDepthDeeper(rows[1..], depth);
    }
  }

  /**
   * The rows a forest shows at its own depth are exactly its nodes, in list
   * order: open subtrees only add deeper rows. Applied to an open node's
   * children this says its child rows appear in registry order.
   */
  lemma {:induction false} TopLevelRows(nodes: seq<Node>, expanded: set<string>, depth: nat)
    ensures AtDepth(VisibleForest(nodes, expanded, depth), depth) == Entries(nodes, depth)
    decreases nodes
  {
    if |nodes| > 0 {
      NodeAtOwnDepth(nodes[0], expanded, depth);
      AtDepthAppend(VisibleNode(nodes[0], expanded, depth), VisibleForest(nodes[1..], expanded, depth), depth);
      TopLevelRows(nodes[1..], expanded, depth);
      EntriesCons(nodes, depth);
    }
  }

  /** At its own depth, a node's rows hold just the node: its subtree lies deeper. */
  lemma NodeAtOwnDepth(n: Node, expanded: set<string>, depth: nat)
    ensures AtDepth(VisibleNode(n, expanded, depth), depth) == [Entry(n, depth)]
  {
    var sub := if HasChildren(n) && n.id in expanded then VisibleForest(n.children, expanded, depth + 1) else [];
    assert VisibleNode(n, expanded, depth) == [Entry(n, depth)] + sub;
    AtDepthDeeper(sub, depth);
    AtDepthAppend([Entry(n, depth)], sub, depth);
  }

  lemma EntriesCons(nodes: seq<Node>, depth: nat)
    requires |nodes| > 0
    ensures Entries(nodes, depth) == [Entry(nodes[0], depth)] + Entries(nodes[1..], depth)
  {
  }

  lemma NestedAppend(a: seq<Entry>, b: seq<Entry>, expanded: set<string>)
    requires WellNested(a, expanded) && WellNested(b, expanded)
    requires |a| > 0 && |b| > 0 ==>
      b[0].depth <= a[|a| - 1].depth + 1 &&
      (b[0].depth == a[|a| - 1].depth + 1 ==> OpensInto(a[|a| - 1].node, expanded, b[0].node))
    ensures WellNested(a + b, expanded)
  {
    var ab := a + b;
    forall i | 0 < i < |ab|
      ensures ab[i].depth <= ab[i - 1].depth + 1
      ensures ab[i].depth == ab[i - 1].depth + 1 ==> OpensInto(ab[i - 1].node, expanded, ab[i].node)
    {
      if i < |a| {
        assert ab[i] == a[i] && ab[i - 1] == a[i - 1];
      } else if i == |a| {
        assert ab[i] == b[0] && ab[i - 1] == a[|a| - 1];
      } else {
        assert ab[i] == b[i - |a|] && ab[i - 1] == b[i - |a| - 1];
      }
    }
  }

  /** The rows of a node are well nested. */
  lemma {:induction false} NodeRowsNested(n: Node, expanded: set<string>, depth: nat)
    ensures WellNested(VisibleNode(n, expanded, depth), expanded)
    decreases n
  {
    if HasChildren(n) && n.id in expanded {
      ForestRowsNested(n.children, expanded, depth + 1);
      NestedAppend([Entry(n, depth)], VisibleForest(n.children, expanded, depth + 1), expanded);
    }
  }

  /** The rows of a forest are well nested: depth grows one level at a time, into an open parent. */
  lemma {:induction false} ForestRowsNested(nodes: seq<Node>, expanded: set<string>, depth: nat)
    ensures WellNested(VisibleForest(nodes, expanded, depth), expanded)
    decreases nodes
  {
    if |nodes| > 0 {
      var a := VisibleNode(nodes[0], expanded, depth);
      var b := VisibleForest(nodes[1..], expanded, depth);
      NodeRowsNested(nodes[0], expanded, depth);
      ForestRowsNested(nodes[1..], expanded, depth);
      assert a[|a| - 1] in a;
      NestedAppend(a, b, expanded);
    }
  }

  /**
   * Only the expanded ids that belong to nodes with children matter: two
   * expanded sets that agree on those give the same rows.
   */
  lemma {:induction false} NodeRowsFrame(n: Node, e1: set<string>, e2: set<string>, depth: nat)
    requires AgreeOn(e1, e2, BranchIds([n]))
    ensures VisibleNode(n, e1, depth) == VisibleNode(n, e2, depth)
    decreases n
  {
    assert [n][1..] == [];
    if HasChildren(n) {
      assert n.id in BranchIds([n]);
      assert BranchIds(n.children) <= BranchIds([n]);
      ForestRowsFrame(n.children, e1, e2, depth + 1);
    }
  }

  lemma {:induction false} ForestRowsFrame(nodes: seq<Node>, e1: set<string>, e2: set<string>, depth: nat)
    requires AgreeOn(e1, e2, BranchIds(nodes))
    ensures VisibleForest(nodes, e1, depth) == VisibleForest(nodes, e2, depth)
    decreases nodes
  {
    if |nodes| > 0 {
      assert [nodes[0]][1..] == [];
      assert BranchIds([nodes[0]]) <= BranchIds(nodes);
      NodeRowsFrame(nodes[0], e1, e2, depth);
      ForestRowsFrame(nodes[1..], e1, e2, depth);
    }
  }

  /**
   * Toggling an id that no node with children carries (a leaf's id, or an
   * unknown one) changes the expanded set but not a single row.
   */
  lemma LeafToggleKeepsRows(nodes: seq<Node>, expanded: set<string>, id: string, depth: nat)
    requires id !in BranchIds(nodes)
    ensures Toggle(expanded, id) != expanded
    ensures VisibleForest(nodes, Toggle(expanded, id), depth) == VisibleForest(nodes, expanded, depth)
  {
    ForestRowsFrame(nodes, Toggle(expanded, id), expanded, depth);
  }

  /** The ids of a forest are those of its first node's subtree followed by the rest. */
  lemma AllIdsCons(n: Node, rest: seq<Node>)
    ensures AllIds([n] + rest) == AllIds([n]) + AllIds(rest)
  {
    assert ([n] + rest)[0] == n && ([n] + rest)[1..] == rest;
    assert [n][1..] == [];
  }

  function MiddleEastIds(): seq<string> {
    ["middle-east", "uae", "dubai", "abu-dhabi", "saudi", "riyadh", "jeddah"]
  }

  function AsiaPacificIds(): seq<string> {
    ["asia-pacific", "philippines", "manila", "cebu", "indonesia", "jakarta", "surabaya"]
  }

  function AmericasIds(): seq<string> {
    ["americas", "usa", "miami", "houston"]
  }

  lemma MiddleEastIdsInOrder()
    ensures AllIds([MiddleEast()]) == MiddleEastIds()
  {
    var me := MiddleEast();
    AllIdsCons(me.children[0], [me.children[1]]);
    assert me.children == [me.children[0]] + [me.children[1]];
  }

  lemma AsiaPacificIdsInOrder()
    ensures AllIds([AsiaPacific()]) == AsiaPacificIds()
  {
    var ap := AsiaPacific();
    AllIdsCons(ap.children[0], [ap.children[1]]);
    assert ap.children == [ap.children[0]] + [ap.children[1]];
  }

  lemma AmericasIdsInOrder()
    ensures AllIds([Americas()]) == AmericasIds()
  {
  }

  /** The registry's ids, in pre-order: the global root, then each region's subtree. */
  lemma RegistryIds()
    ensures AllIds(Registry()) == ["global"] + MiddleEastIds() + AsiaPacificIds() + AmericasIds()
    ensures |AllIds(Registry())| == 19
  {
    var regions := Registry()[0].children;
    assert regions == [MiddleEast()] + ([AsiaPacific()] + [Americas()]);
    AllIdsCons(MiddleEast(), [AsiaPacific()] + [Americas()]);
    AllIdsCons(AsiaPacific(), [Americas()]);
    MiddleEastIdsInOrder();
    AsiaPacificIdsInOrder();
    AmericasIdsInOrder();
    assert AllIds(Registry()) == ["global"] + AllIds(regions) + AllIds([]);
  }

  /** Joining two duplicate-free lists with no common element keeps them duplicate-free. */
  lemma DistinctAppend<T>(a: seq<T>, b: seq<T>)
    requires Distinct(a) && Distinct(b)
    requires forall x :: x in a ==> x !in b
    ensures Distinct(a + b)
  {
    forall i, j | 0 <= i < j < |a + b|
      ensures (a + b)[i] != (a + b)[j]
    {
      if j < |a| {
      } else if i >= |a| {
        assert (a + b)[i] == b[i - |a|] && (a + b)[j] == b[j - |a|];
      } else {
        assert (a + b)[i] in a && (a + b)[j] in b;
      }
    }
  }

  lemma RegionIdsDistinct()
    ensures Distinct(MiddleEastIds()) && Distinct(AsiaPacificIds()) && Distinct(AmericasIds())
  {
  }

  lemma RegionIdsDisjoint()
    ensures forall x :: x in MiddleEastIds() ==> x !in AsiaPacificIds()
    ensures forall x :: x in MiddleEastIds() + AsiaPacificIds() ==> x !in AmericasIds()
    ensures ["global"][0] !in MiddleEastIds() + AsiaPacificIds() + AmericasIds()
  {
  }

  lemma IdListDistinct()
    ensures Distinct(["global"] + MiddleEastIds() + AsiaPacificIds() + AmericasIds())
  {
    RegionIdsDistinct();
    RegionIdsDisjoint();
    var me, ap, am := MiddleEastIds(), AsiaPacificIds(), AmericasIds();
    DistinctAppend(me, ap);
    DistinctAppend(me + ap, am);
    DistinctAppend(["global"], me + ap + am);
    assert ["global"] + (me + ap + am) == ["global"] + me + ap + am;
  }

  /** The registry's nineteen ids are pairwise distinct. */
  lemma RegistryIdsDistinct()
    ensures |AllIds(Registry())| == 19
    ensures Distinct(AllIds(Registry()))
  {
    RegistryIds();
    IdListDistinct();
  }

  /** The nodes open at start-up all have children, so each of them shows its subtree. */
  lemma InitialExpandedAreBranches()
    ensures InitialExpanded <= BranchIds(Registry())
  {
  }
}
