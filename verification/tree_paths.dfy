/**
 * Visibility of tree rows stated through ancestry: a node is shown exactly
 * when every node above it is expanded, at a depth equal to its number of
 * ancestors. This is an independent description of the rows
 * LocationTree.VisibleForest produces by pre-order traversal.
 */
module TreePaths {
  import opened LocationTree

  /** `path` is a non-empty list of child positions leading from a forest down to one of its nodes. */
  ghost predicate IsPath(nodes: seq<Node>, path: seq<nat>)
    decreases |path|
  {
    |path| >= 1 && path[0] < |nodes| &&
    (|path| == 1 || IsPath(nodes[path[0]].children, path[1..]))
  }

  /** The node a path leads to. */
  ghost function At(nodes: seq<Node>, path: seq<nat>): Node
    requires IsPath(nodes, path)
    decreases |path|
  {
    if |path| == 1 then nodes[path[0]] else At(nodes[path[0]].children, path[1..])
  }

  /** Every node strictly above the end of the path is in the expanded set. */
  ghost predicate AncestorsOpen(nodes: seq<Node>, path: seq<nat>, expanded: set<string>)
    requires IsPath(nodes, path)
    decreases |path|
  {
    |path| == 1 ||
    (nodes[path[0]].id in expanded && AncestorsOpen(nodes[path[0]].children, path[1..], expanded))
  }

  /** `e` is the node at the end of some path whose ancestors are all open, one level per ancestor. */
  ghost predicate ShownByAncestry(nodes: seq<Node>, expanded: set<string>, depth: nat, e: Entry) {
    exists path :: IsPath(nodes, path) && AncestorsOpen(nodes, path, expanded) &&
      e == Entry(At(nodes, path), depth + |path| - 1)
  }

  /** A path into the tail of a forest, re-based onto the whole forest. */
  lemma ShiftPath(nodes: seq<Node>, path: seq<nat>, expanded: set<string>)
    requires |nodes| > 0 && IsPath(nodes[1..], path)
    ensures IsPath(nodes, [path[0] + 1] + path[1..])
    ensures At(nodes, [path[0] + 1] + path[1..]) == At(nodes[1..], path)
    ensures AncestorsOpen(nodes, [path[0] + 1] + path[1..], expanded) == AncestorsOpen(nodes[1..], path, expanded)
  {
    var q := [path[0] + 1] + path[1..];
    assert q[1..] == path[1..];
  }

  /** A path into the children of the `k`-th node of a forest, re-based onto the forest. */
  lemma StepDown(nodes: seq<Node>, k: nat, path: seq<nat>, expanded: set<string>)
    requires k < |nodes| && IsPath(nodes[k].children, path)
    ensures IsPath(nodes, [k] + path)
    ensures At(nodes, [k] + path) == At(nodes[k].children, path)
    ensures AncestorsOpen(nodes, [k] + path, expanded) <==>
      nodes[k].id in expanded && AncestorsOpen(nodes[k].children, path, expanded)
  {
    assert ([k] + path)[1..] == path;
  }

  /** Every visible row is reached by a path whose ancestors are all open. */
  lemma {:induction false} VisibleHasOpenPath(nodes: seq<Node>, expanded: set<string>, depth: nat, e: Entry)
    returns (path: seq<nat>)
    requires e in VisibleForest(nodes, expanded, depth)
    ensures IsPath(nodes, path) && AncestorsOpen(nodes, path, expanded)
    ensures e == Entry(At(nodes, path), depth + |path| - 1)
    decreases nodes
  {
    var n := nodes[0];
    var rest := VisibleForest(nodes[1..], expanded, depth);
    assert VisibleForest(nodes, expanded, depth) == VisibleNode(n, expanded, depth) + rest;
    if e in rest {
      var p := VisibleHasOpenPath(nodes[1..], expanded, depth, e);
      ShiftPath(nodes, p, expanded);
      path := [p[0] + 1] + p[1..];
    } else if e == Entry(n, depth) {
      path := [0];
    } else {
      assert HasChildren(n) && n.id in expanded;
      assert e in VisibleForest(n.children, expanded, depth + 1);
      var p := VisibleHasOpenPath(n.children, expanded, depth + 1, e);
      StepDown(nodes, 0, p, expanded);
      path := [0] + p;
    }
  }

  /** The node at the end of a path whose ancestors are all open is visible, one level per ancestor. */
  lemma {:induction false} OpenPathIsVisible(nodes: seq<Node>, expanded: set<string>, depth: nat, path: seq<nat>)
    requires IsPath(nodes, path) && AncestorsOpen(nodes, path, expanded)
    ensures Entry(At(nodes, path), depth + |path| - 1) in VisibleForest(nodes, expanded, depth)
    decreases nodes
  {
    var n := nodes[0];
    var rest := VisibleForest(nodes[1..], expanded, depth);
    assert VisibleForest(nodes, expanded, depth) == VisibleNode(n, expanded, depth) + rest;
    if path[0] > 0 {
      var p := [path[0] - 1] + path[1..];
      assert p[1..] == path[1..];
      ShiftPath(nodes, p, expanded);
      assert [p[0] + 1] + p[1..] == path;
      OpenPathIsVisible(nodes[1..], expanded, depth, p);
    } else if |path| > 1 {
      var p := path[1..];
      assert [0] + p == path;
      StepDown(nodes, 0, p, expanded);
      OpenPathIsVisible(n.children, expanded, depth + 1, p);
      assert VisibleNode(n, expanded, depth) == [Entry(n, depth)] + VisibleForest(n.children, expanded, depth + 1);
    }
  }

  /**
   * A node is among the visible rows iff every one of its ancestors is
   * expanded; its depth is the number of its ancestors. In particular a node
   * with a collapsed ancestor produces no row, whatever its own state.
   */
  lemma VisibleIffAncestorsOpen(nodes: seq<Node>, expanded: set<string>, depth: nat, e: Entry)
    ensures e in VisibleForest(nodes, expanded, depth) <==> ShownByAncestry(nodes, expanded, depth, e)
  {
    if e in VisibleForest(nodes, expanded, depth) {
      var path := VisibleHasOpenPath(nodes, expanded, depth, e);
    }
    if ShownByAncestry(nodes, expanded, depth, e) {
      var path :| IsPath(nodes, path) && AncestorsOpen(nodes, path, expanded) &&
        e == Entry(At(nodes, path), depth + |path| - 1);
      OpenPathIsVisible(nodes, expanded, depth, path);
    }
  }

  /** The child at position `j` of the node a path leads to. */
  lemma {:induction false} ExtendPath(nodes: seq<Node>, path: seq<nat>, j: nat, expanded: set<string>)
    requires IsPath(nodes, path) && j < |At(nodes, path).children|
    ensures IsPath(nodes, path + [j])
    ensures At(nodes, path + [j]) == At(nodes, path).children[j]
    ensures AncestorsOpen(nodes, path + [j], expanded) <==>
      AncestorsOpen(nodes, path, expanded) && At(nodes, path).id in expanded
    decreases |path|
  {
    var q := path + [j];
    if |path| > 1 {
      assert q[1..] == path[1..] + [j];
      ExtendPath(nodes[path[0]].children, path[1..], j, expanded);
    } else {
      assert q[1..] == [j];
    }
  }

  /** Once a visible node is expanded, each of its children shows one level deeper than it. */
  lemma ChildOfOpenRowIsVisible(nodes: seq<Node>, expanded: set<string>, depth: nat, path: seq<nat>, j: nat)
    requires IsPath(nodes, path) && AncestorsOpen(nodes, path, expanded)
    requires At(nodes, path).id in expanded && j < |At(nodes, path).children|
    ensures Entry(At(nodes, path), depth + |path| - 1) in VisibleForest(nodes, expanded, depth)
    ensures Entry(At(nodes, path).children[j], depth + |path|) in VisibleForest(nodes, expanded, depth)
  {
    OpenPathIsVisible(nodes, expanded, depth, path);
    ExtendPath(nodes, path, j, expanded);
    OpenPathIsVisible(nodes, expanded, depth, path + [j]);
  }
}
