/**
 * The page walked through with its own hard-coded data: what the tree shows
 * at start-up, and the select / inspect / close round trip on one city.
 */
module Scenarios {
  import opened Wrappers
  import opened LocationTree
  import opened Overview
  import TreePaths
  import Text

  /** The ids of a list of entries, in order. */
  function EntryIds(entries: seq<Entry>): (ids: seq<string>)
    ensures |ids| == |entries|
    ensures forall i :: 0 <= i < |entries| ==> ids[i] == entries[i].node.id
  {
    seq(|entries|, i requires 0 <= i < |entries| => entries[i].node.id)
  }

  function Riyadh(): Node {
    MiddleEast().children[1].children[0]
  }

  /** A forest none of whose nodes is open shows just its nodes. */
  lemma {:induction false} ClosedForestRows(nodes: seq<Node>, expanded: set<string>, depth: nat)
    requires forall i :: 0 <= i < |nodes| ==> nodes[i].id !in expanded
    ensures VisibleForest(nodes, expanded, depth) == Entries(nodes, depth)
    decreases |nodes|
  {
    if |nodes| > 0 {
      ClosedForestRows(nodes[1..], expanded, depth);
      assert VisibleNode(nodes[0], expanded, depth) == [Entry(nodes[0], depth)];
      assert VisibleForest(nodes, expanded, depth) ==
        [Entry(nodes[0], depth)] + VisibleForest(nodes[1..], expanded, depth);
      assert Entries(nodes, depth) == [Entry(nodes[0], depth)] + Entries(nodes[1..], depth);
    }
  }

  /** A three-node forest shows each node's rows in turn. */
  lemma ThreeRoots(nodes: seq<Node>, expanded: set<string>, depth: nat)
    requires |nodes| == 3
    ensures VisibleForest(nodes, expanded, depth) ==
      VisibleNode(nodes[0], expanded, depth) + VisibleNode(nodes[1], expanded, depth) +
      VisibleNode(nodes[2], expanded, depth)
  {
    var tail1 := nodes[1..];
    var tail2 := tail1[1..];
    assert tail2[1..] == [];
    assert VisibleForest(tail2, expanded, depth) == VisibleNode(nodes[2], expanded, depth);
    assert VisibleForest(tail1, expanded, depth) ==
      VisibleNode(nodes[1], expanded, depth) + VisibleForest(tail2, expanded, depth);
  }

  lemma EntryIdsAppend(a: seq<Entry>, b: seq<Entry>)
    ensures EntryIds(a + b) == EntryIds(a) + EntryIds(b)
  {
  }

  /** An open region whose countries are all closed shows itself and its countries. */
  lemma OpenRegionRows(region: Node)
    requires region.id in InitialExpanded && |region.children| == 2
    requires region.children[0].id !in InitialExpanded && region.children[1].id !in InitialExpanded
    ensures EntryIds(VisibleNode(region, InitialExpanded, 1)) ==
      [region.id, region.children[0].id, region.children[1].id]
  {
    ClosedForestRows(region.children, InitialExpanded, 2);
    assert VisibleNode(region, InitialExpanded, 1) ==
      [Entry(region, 1), Entry(region.children[0], 2), Entry(region.children[1], 2)];
  }

  /** The registry's rows are the global row followed by the rows of its three regions. */
  lemma RegistryRows(expanded: set<string>)
    requires "global" in expanded
    ensures VisibleForest(Registry(), expanded, 0) ==
      [Entry(Registry()[0], 0)] +
      (VisibleNode(MiddleEast(), expanded, 1) + VisibleNode(AsiaPacific(), expanded, 1) +
       VisibleNode(Americas(), expanded, 1))
  {
    ThreeRoots(Registry()[0].children, expanded, 1);
  }

  lemma MiddleEastAtStart()
    ensures EntryIds(VisibleNode(MiddleEast(), InitialExpanded, 1)) == ["middle-east", "uae", "saudi"]
  {
    OpenRegionRows(MiddleEast());
  }

  lemma AsiaPacificAtStart()
    ensures EntryIds(VisibleNode(AsiaPacific(), InitialExpanded, 1)) == ["asia-pacific", "philippines", "indonesia"]
  {
    OpenRegionRows(AsiaPacific());
  }

  lemma AmericasAtStart()
    ensures EntryIds(VisibleNode(Americas(), InitialExpanded, 1)) == ["americas"]
  {
  }

  lemma JoinIds(g: Entry, a: seq<Entry>, b: seq<Entry>, c: seq<Entry>)
    requires g.node.id == "global"
    requires EntryIds(a) == ["middle-east", "uae", "saudi"]
    requires EntryIds(b) == ["asia-pacific", "philippines", "indonesia"]
    requires EntryIds(c) == ["americas"]
    ensures EntryIds([g] + (a + b + c)) ==
      ["global", "middle-east", "uae", "saudi", "asia-pacific", "philippines", "indonesia", "americas"]
  {
    EntryIdsAppend([g], a + b + c);
    EntryIdsAppend(a + b, c);
    EntryIdsAppend(a, b);
  }

  /** At start-up the tree shows the two open regions' countries, the closed region, and no city. */
  lemma InitialRows()
    ensures EntryIds(VisibleForest(Registry(), InitialExpanded, 0)) ==
      ["global", "middle-east", "uae", "saudi", "asia-pacific", "philippines", "indonesia", "americas"]
  {
    MiddleEastAtStart();
    AsiaPacificAtStart();
    AmericasAtStart();
    RegistryRows(InitialExpanded);
    JoinIds(Entry(Registry()[0], 0), VisibleNode(MiddleEast(), InitialExpanded, 1),
      VisibleNode(AsiaPacific(), InitialExpanded, 1), VisibleNode(Americas(), InitialExpanded, 1));
  }

  /** An id missing from the ids of some rows belongs to none of them. */
  lemma AbsentId(rows: seq<Entry>, id: string)
    requires id !in EntryIds(rows)
    ensures forall e :: e in rows ==> e.node.id != id
  {
    forall e | e in rows
      ensures e.node.id != id
    {
      var k :| 0 <= k < |rows| && rows[k] == e;
      assert EntryIds(rows)[k] == e.node.id;
    }
  }

  lemma RiyadhId()
    ensures Riyadh().id == "riyadh"
  {
  }

  // The start-up ids are passed in as a parameter equal to their literal list,
  // so that the callers' proof context never holds the unfolded literal.
  lemma RiyadhNotAmong(ids: seq<string>)
    requires ids == ["global", "middle-east", "uae", "saudi", "asia-pacific", "philippines", "indonesia", "americas"]
    ensures "riyadh" !in ids
  {
  }

  /** Riyadh is hidden at start-up: its country is closed. */
  lemma RiyadhHiddenAtStart()
    ensures Riyadh().id == "riyadh"
    ensures forall e :: e in VisibleForest(Registry(), InitialExpanded, 0) ==> e.node.id != "riyadh"
  {
    RiyadhId();
    InitialRows();
    RiyadhNotAmong(EntryIds(VisibleForest(Registry(), InitialExpanded, 0)));
    AbsentId(VisibleForest(Registry(), InitialExpanded, 0), "riyadh");
  }

  /** With Saudi Arabia expanded, every node above Riyadh is open. */
  lemma RiyadhPathOpen()
    ensures TreePaths.IsPath(Registry(), [0, 0, 1, 0]) && TreePaths.At(Registry(), [0, 0, 1, 0]) == Riyadh()
    ensures TreePaths.AncestorsOpen(Registry(), [0, 0, 1, 0], Toggle(InitialExpanded, "saudi"))
  {
    var open := Toggle(InitialExpanded, "saudi");
    var saudi := MiddleEast().children[1];
    assert TreePaths.IsPath(saudi.children, [0]) && TreePaths.At(saudi.children, [0]) == Riyadh();
    TreePaths.StepDown(MiddleEast().children, 1, [0], open);
    TreePaths.StepDown(Registry()[0].children, 0, [1, 0], open);
    TreePaths.StepDown(Registry(), 0, [0, 1, 0], open);
    assert [0] + ([0] + ([1] + [0])) == [0, 0, 1, 0];
  }

  /** Once Saudi Arabia is expanded, Riyadh shows at depth 3. */
  lemma RiyadhShownAfterExpandingSaudi()
    ensures Entry(Riyadh(), 3) in VisibleForest(Registry(), Toggle(InitialExpanded, "saudi"), 0)
  {
    RiyadhPathOpen();
    TreePaths.OpenPathIsVisible(Registry(), Toggle(InitialExpanded, "saudi"), 0, [0, 0, 1, 0]);
  }

  /**
   * Expand Saudi Arabia, click Riyadh: the panel reads Riyadh, severity high
   * with an orange dot, 2 active events, population N/A. Closing removes it.
   */
  lemma SelectInspectClose()
    ensures var page := Replay(InitialPage, [ChevronClicked("saudi"), RowClicked(Riyadh())]);
      page.selection == Some(Location(Riyadh())) &&
      page.expanded == InitialExpanded + {"saudi"} &&
      DetailsPanel(page.selection) == Some(Details("Riyadh", "bg-orange-400", "high", Number(2), NotAvailable)) &&
      DetailsPanel(Step(page, CloseClicked).selection) == None
  {
    var s1 := Step(InitialPage, ChevronClicked("saudi"));
    var s2 := Step(s1, RowClicked(Riyadh()));
    assert Replay(InitialPage, [ChevronClicked("saudi"), RowClicked(Riyadh())]) == s2 by {
      assert [ChevronClicked("saudi"), RowClicked(Riyadh())][1..] == [RowClicked(Riyadh())];
    }
  }

  /**
   * A selection carrying the first hard-coded alert's fields (as a globe pick
   * would deliver it) shows that alert's title and "2.4M" affected.
   */
  lemma FirstAlertPopulation(now: int)
    ensures var d := DetailsPanel(Some(Alert(LiveAlertFeed.MockAlerts(now)[0]))).value;
      d.heading == "Magnitude 7.2 Earthquake" &&
      d.population == Millions(2400000) &&
      PopulationText(d.population) == "2.4M"
  {
    var a := LiveAlertFeed.MockAlerts(now)[0];
    assert a.title == "Magnitude 7.2 Earthquake" && a.affectedPopulation == 2400000;
    AlertDetails(a);
    assert Text.TenthsOfMillion(2400000) == "2.4";
  }
}
