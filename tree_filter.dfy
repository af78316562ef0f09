/** `getDescendantIds` and `filterTreeNodes`: the moved page's subtree, and the
    page tree with a set of pages (and everything under them) left out. */
module TreeFilter {
  import opened Wrappers
  import opened SpaceTree

  lemma {:induction false} ForestIdsAppend(a: seq<TreeNode>, b: seq<TreeNode>)
    ensures ForestIds(a + b) == ForestIds(a) + ForestIds(b)
  {
    PreorderAppend(a, b);
    IdsOfAppend(Preorder(a), Preorder(b));
  }

  lemma {:induction false} SubtreeIdsUnfold(n: TreeNode)
    ensures SubtreeIds(n) == {n.id} + ForestIds(n.children)
  {
    PreorderSingle(n);
    IdsOfAppend([n], Preorder(n.children));
    assert IdsOf([n]) == {n.id};
  }

  /** The subtree of a node found anywhere in the forest lies in the forest. */
  lemma {:induction false} SubtreeWithinForest(nodes: seq<TreeNode>, n: TreeNode)
    requires n in Preorder(nodes)
    ensures SubtreeIds(n) <= ForestIds(nodes)
    decreases nodes
  {
    var h := nodes[0];
    assert nodes == [h] + nodes[1..];
    ForestIdsAppend([h], nodes[1..]);
    SubtreeIdsUnfold(h);
    assert Preorder(nodes) == [h] + Preorder(h.children) + Preorder(nodes[1..]);
    if n == h {
    } else if n in Preorder(h.children) {
      SubtreeWithinForest(h.children, n);
    } else {
      SubtreeWithinForest(nodes[1..], n);
    }
  }

  /** What `getDescendantIds` returns: the ids of the subtree rooted at the
      first pre-order node with `nodeId`, or nothing when there is none. */
  function DescendantIds(nodeId: string, nodes: seq<TreeNode>): (r: set<string>)
    ensures nodeId !in ForestIds(nodes) ==> r == {}
    ensures nodeId in ForestIds(nodes) ==> nodeId in r
    ensures r <= ForestIds(nodes)
  {
    FindFirstIsFirstInPreorder(nodes, nodeId);
    match FindFirst(nodes, nodeId)
    case None => {}
    case Some(n) =>
      FindFirstInForest(nodes, nodeId);
      SubtreeWithinForest(nodes, n);
      SubtreeIdsUnfold(n);
      SubtreeIds(n)
  }

  /** `collectDescendants`: adds the node's id and, recursively, those of all
      its descendants to `acc`. */
  method CollectDescendants(node: TreeNode, acc: set<string>) returns (r: set<string>)
    ensures r == acc + SubtreeIds(node)
    decreases node
  {
    r := acc + {node.id};
    var i := 0;
    while i < |node.children|
      invariant 0 <= i <= |node.children|
      invariant r == acc + {node.id} + ForestIds(node.children[..i])
    {
      r := CollectDescendants(node.children[i], r);
      assert node.children[..i + 1] == node.children[..i] + [node.children[i]];
      ForestIdsAppend(node.children[..i], [node.children[i]]);
      i := i + 1;
    }
    assert node.children[..i] == node.children;
    SubtreeIdsUnfold(node);
  }

  /** `traverse`: looks for `nodeId` node by node, descending into non-empty
      child lists, and collects the subtree of the first hit. */
  method Traverse(nodeId: string, nodes: seq<TreeNode>, acc: set<string>) returns (found: bool, r: set<string>)
    ensures found == FindFirst(nodes, nodeId).Some?
    ensures r == acc + (if found then SubtreeIds(FindFirst(nodes, nodeId).value) else {})
    decreases nodes
  {
    var i := 0;
    while i < |nodes|
      invariant 0 <= i <= |nodes|
      invariant FindFirst(nodes, nodeId) == FindFirst(nodes[i..], nodeId)
    {
      assert nodes[i..][0] == nodes[i] && nodes[i..][1..] == nodes[i + 1..];
      if nodes[i].id == nodeId {
        r := CollectDescendants(nodes[i], acc);
        return true, r;
      }
      if |nodes[i].children| > 0 {
        var inChildren, r' := Traverse(nodeId, nodes[i].children, acc);
        if inChildren {
          return true, r';
        }
      }
      i := i + 1;
    }
    return false, acc;
  }

  /** `getDescendantIds`. */
  method GetDescendantIds(nodeId: string, treeData: seq<TreeNode>) returns (ids: set<string>)
    ensures ids == DescendantIds(nodeId, treeData)
  {
    var _, r := Traverse(nodeId, treeData, {});
    ids := r;
  }

  /** `filterTreeNodes`: drops every node whose id is excluded, together with
      its subtree, and gives every kept node a (filtered) child list. */
  function FilterTree(nodes: seq<TreeNode>, excludeIds: set<string>): (r: seq<TreeNode>)
    ensures |r| <= |nodes|
    ensures forall i :: 0 <= i < |r| ==> r[i].id !in excludeIds && r[i].childrenSet
    decreases nodes
  {
    if nodes == [] then []
    else
      var rest := FilterTree(nodes[1..], excludeIds);
      if nodes[0].id in excludeIds then rest
      else [nodes[0].(childrenSet := true, children := FilterTree(nodes[0].children, excludeIds))] + rest
  }

  /** Filtering keeps order: it distributes over concatenation. */
  lemma {:induction false} FilterTreeAppend(a: seq<TreeNode>, b: seq<TreeNode>, excludeIds: set<string>)
    ensures FilterTree(a + b, excludeIds) == FilterTree(a, excludeIds) + FilterTree(b, excludeIds)
  {
    if a == [] {
      assert a + b == b;
    } else {
      assert (a + b)[0] == a[0];
      assert (a + b)[1..] == a[1..] + b;
      FilterTreeAppend(a[1..], b, excludeIds);
    }
  }

  /** No excluded id survives at any depth, and no id is invented. */
  lemma {:induction false} FilterTreeIds(nodes: seq<TreeNode>, excludeIds: set<string>)
    ensures ForestIds(FilterTree(nodes, excludeIds)) <= ForestIds(nodes) - excludeIds
    decreases nodes
  {
    if nodes != [] {
      var h := nodes[0];
      var rest := FilterTree(nodes[1..], excludeIds);
      FilterTreeIds(nodes[1..], excludeIds);
      FilterTreeIds(h.children, excludeIds);
      assert nodes == [h] + nodes[1..];
      ForestIdsAppend([h], nodes[1..]);
      SubtreeIdsUnfold(h);
      if h.id !in excludeIds {
        var h' := h.(childrenSet := true, children := FilterTree(h.children, excludeIds));
        ForestIdsAppend([h'], rest);
        SubtreeIdsUnfold(h');
      }
    }
  }

  /** Every node of the result, at any depth, has a child list. */
  lemma {:induction false} FilterTreeSetsChildren(nodes: seq<TreeNode>, excludeIds: set<string>)
    ensures forall n :: n in Preorder(FilterTree(nodes, excludeIds)) ==> n.childrenSet
    decreases nodes
  {
    if nodes != [] {
      var h := nodes[0];
      var rest := FilterTree(nodes[1..], excludeIds);
      FilterTreeSetsChildren(nodes[1..], excludeIds);
      FilterTreeSetsChildren(h.children, excludeIds);
      if h.id !in excludeIds {
        var h' := h.(childrenSet := true, children := FilterTree(h.children, excludeIds));
        ForestIdsAppend([h'], rest);
        PreorderAppend([h'], rest);
        PreorderSingle(h');
      }
    }
  }

  /** The top-level ids in order. */
  function TopIds(nodes: seq<TreeNode>): seq<string> {
    seq(|nodes|, i requires 0 <= i < |nodes| => nodes[i].id)
  }

  /** A reference filter on ids: those not excluded, in order. */
  function KeptIds(ids: seq<string>, excludeIds: set<string>): (r: seq<string>)
    ensures forall x :: x in r <==> x in ids && x !in excludeIds
  {
    if ids == [] then []
    else (if ids[0] in excludeIds then [] else [ids[0]]) + KeptIds(ids[1..], excludeIds)
  }

  /** The kept top-level ids are the non-excluded ones, in their original order. */
  lemma {:induction false} FilterTreeTopLevel(nodes: seq<TreeNode>, excludeIds: set<string>)
    ensures TopIds(FilterTree(nodes, excludeIds)) == KeptIds(TopIds(nodes), excludeIds)
    decreases nodes
  {
    if nodes != [] {
      var ids := TopIds(nodes);
      var rest := FilterTree(nodes[1..], excludeIds);
      FilterTreeTopLevel(nodes[1..], excludeIds);
      TopIdsCons(nodes[0], nodes[1..]);
      assert nodes == [nodes[0]] + nodes[1..];
      assert ids[0] == nodes[0].id && ids[1..] == TopIds(nodes[1..]);
      assert KeptIds(ids, excludeIds) ==
        (if ids[0] in excludeIds then [] else [ids[0]]) + KeptIds(ids[1..], excludeIds);
      if nodes[0].id !in excludeIds {
        TopIdsCons(nodes[0].(childrenSet := true, children := FilterTree(nodes[0].children, excludeIds)), rest);
      }
    }
  }

  lemma {:induction false} TopIdsCons(n: TreeNode, rest: seq<TreeNode>)
    ensures TopIds([n] + rest) == [n.id] + TopIds(rest)
  {
    assert forall i :: 0 < i <= |rest| ==> ([n] + rest)[i] == rest[i - 1];
  }

  /** `m` is a non-excluded node of `nodes`, unchanged but for its filtered
      child list. */
  predicate IsKeptCopy(m: TreeNode, nodes: seq<TreeNode>, excludeIds: set<string>) {
    exists j :: 0 <= j < |nodes| && nodes[j].id !in excludeIds
      && m == nodes[j].(childrenSet := true, children := FilterTree(nodes[j].children, excludeIds))
  }

  /** Every kept top-level node is a non-excluded node of the input that keeps
      every field but its (filtered) child list. */
  lemma {:induction false} FilterTreeKeepsNodes(nodes: seq<TreeNode>, excludeIds: set<string>)
    ensures forall i :: 0 <= i < |FilterTree(nodes, excludeIds)| ==>
      IsKeptCopy(FilterTree(nodes, excludeIds)[i], nodes, excludeIds)
    decreases nodes
  {
    if nodes != [] {
      var h := nodes[0];
      var rest := FilterTree(nodes[1..], excludeIds);
      var r := FilterTree(nodes, excludeIds);
      FilterTreeKeepsNodes(nodes[1..], excludeIds);
      forall i | 0 <= i < |r| ensures IsKeptCopy(r[i], nodes, excludeIds) {
        if h.id !in excludeIds && i == 0 {
          assert r[0] == nodes[0].(childrenSet := true, children := FilterTree(nodes[0].children, excludeIds));
        } else {
          var i' := if h.id in excludeIds then i else i - 1;
          assert r[i] == rest[i'];
          assert IsKeptCopy(rest[i'], nodes[1..], excludeIds);
          var j :| 0 <= j < |nodes[1..]| && nodes[1..][j].id !in excludeIds
            && rest[i'] == nodes[1..][j].(childrenSet := true, children := FilterTree(nodes[1..][j].children, excludeIds));
          assert nodes[j + 1] == nodes[1..][j];
        }
      }
    }
  }

  /** Excluding a top-level node drops its whole subtree: whatever survives is
      found among its siblings. */
  lemma {:induction false} ExcludedSubtreeDropped(nodes: seq<TreeNode>, k: nat, excludeIds: set<string>)
    requires k < |nodes| && nodes[k].id in excludeIds
    ensures FilterTree(nodes, excludeIds) == FilterTree(nodes[..k] + nodes[k + 1..], excludeIds)
    ensures ForestIds(FilterTree(nodes, excludeIds)) <= ForestIds(nodes[..k]) + ForestIds(nodes[k + 1..])
  {
    assert nodes == nodes[..k] + ([nodes[k]] + nodes[k + 1..]);
    FilterTreeAppend(nodes[..k], [nodes[k]] + nodes[k + 1..], excludeIds);
    FilterTreeAppend([nodes[k]], nodes[k + 1..], excludeIds);
    FilterTreeAppend(nodes[..k], nodes[k + 1..], excludeIds);
    assert FilterTree([nodes[k]], excludeIds) == [];
    FilterTreeIds(nodes[..k] + nodes[k + 1..], excludeIds);
    ForestIdsAppend(nodes[..k], nodes[k + 1..]);
  }

  /** Filtering twice by the same set is filtering once. */
  lemma {:induction false} FilterTreeIdempotent(nodes: seq<TreeNode>, excludeIds: set<string>)
    ensures FilterTree(FilterTree(nodes, excludeIds), excludeIds) == FilterTree(nodes, excludeIds)
    decreases nodes
  {
    if nodes != [] {
      var h := nodes[0];
      var rest := FilterTree(nodes[1..], excludeIds);
      FilterTreeIdempotent(nodes[1..], excludeIds);
      if h.id !in excludeIds {
        FilterTreeIdempotent(h.children, excludeIds);
        var h' := h.(childrenSet := true, children := FilterTree(h.children, excludeIds));
        var r := [h'] + rest;
        assert r[0] == h' && r[1..] == rest;
      }
    }
  }
}
