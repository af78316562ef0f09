/** The "move page within the space" dialog: the tree of possible targets, the
    target selection, and the bookkeeping of `handleMove` (the moved page's old
    parent, the anchor for the new position, the queries refetched afterwards,
    and the guard against a second move while one is running). */
module MovePage {
  import opened Wrappers
  import opened Seqs
  import opened SpaceTree
  import opened TreeFilter

  /** `findNode`: the loop over the siblings with an early return, recursing
      into every node that has a child list. */
  method FindNode(nodes: seq<TreeNode>, id: string) returns (r: Option<TreeNode>)
    ensures r == FindFirst(nodes, id)
    ensures r.None? <==> id !in ForestIds(nodes)
    decreases nodes
  {
    var i := 0;
    while i < |nodes|
      invariant 0 <= i <= |nodes|
      invariant FindFirst(nodes, id) == FindFirst(nodes[i..], id)
    {
      assert nodes[i..][0] == nodes[i] && nodes[i..][1..] == nodes[i + 1..];
      if nodes[i].id == id {
        FindFirstIsFirstInPreorder(nodes, id);
        return Some(nodes[i]);
      }
      var found := FindNode(nodes[i].children, id);
      if found.Some? {
        FindFirstIsFirstInPreorder(nodes, id);
        return found;
      }
      i := i + 1;
    }
    FindFirstIsFirstInPreorder(nodes, id);
    return None;
  }

  /** `treeData.filter(node => node.spaceId === spaceId)`. */
  function SpaceRoots(treeData: seq<TreeNode>, spaceId: string): (r: seq<TreeNode>)
    ensures |r| <= |treeData|
    ensures forall n :: n in r <==> n in treeData && n.spaceId == spaceId
  {
    if treeData == [] then []
    else (if treeData[0].spaceId == spaceId then [treeData[0]] else []) + SpaceRoots(treeData[1..], spaceId)
  }

  /** The filter keeps document order: it distributes over concatenation. */
  lemma {:induction false} SpaceRootsAppend(a: seq<TreeNode>, b: seq<TreeNode>, spaceId: string)
    ensures SpaceRoots(a + b, spaceId) == SpaceRoots(a, spaceId) + SpaceRoots(b, spaceId)
  {
    if a == [] {
      assert a + b == b;
    } else {
      assert (a + b)[1..] == a[1..] + b;
      SpaceRootsAppend(a[1..], b, spaceId);
    }
  }

  /** The space's roots are the tree's top-level nodes with some left out,
      the others in their order. */
  lemma {:induction false} SpaceRootsIsSubsequence(treeData: seq<TreeNode>, spaceId: string)
    ensures IsSubsequence(SpaceRoots(treeData, spaceId), treeData)
  {
    if treeData != [] {
      var r, rest := SpaceRoots(treeData, spaceId), SpaceRoots(treeData[1..], spaceId);
      SpaceRootsIsSubsequence(treeData[1..], spaceId);
      if treeData[0].spaceId == spaceId {
        assert r[0] == treeData[0] && r[1..] == rest;
      } else {
        assert r == rest;
      }
    }
  }

  /** No top-level node of the tree is in the space. */
  predicate NoneInSpace(treeData: seq<TreeNode>, spaceId: string) {
    forall j :: 0 <= j < |treeData| ==> treeData[j].spaceId != spaceId
  }

  /** `k` is the last top-level node of the tree in the space. */
  predicate LastInSpace(treeData: seq<TreeNode>, spaceId: string, k: int) {
    0 <= k < |treeData| && treeData[k].spaceId == spaceId
    && forall j :: k < j < |treeData| ==> treeData[j].spaceId != spaceId
  }

  /** The space has no roots exactly when no top-level node is in it. */
  lemma {:induction false} SpaceRootsEmpty(treeData: seq<TreeNode>, spaceId: string)
    ensures SpaceRoots(treeData, spaceId) == [] <==> NoneInSpace(treeData, spaceId)
  {
    if treeData != [] {
      SpaceRootsEmpty(treeData[1..], spaceId);
      assert NoneInSpace(treeData, spaceId) <==>
        treeData[0].spaceId != spaceId && NoneInSpace(treeData[1..], spaceId) by {
        if treeData[0].spaceId != spaceId && NoneInSpace(treeData[1..], spaceId) {
          forall j | 0 < j < |treeData| ensures treeData[j].spaceId != spaceId {
            assert treeData[j] == treeData[1..][j - 1];
          }
        }
      }
    }
  }

  /** The space's roots of a tree with one more node at the end. */
  lemma {:induction false} SpaceRootsSnoc(init: seq<TreeNode>, x: TreeNode, spaceId: string)
    ensures SpaceRoots(init + [x], spaceId) == SpaceRoots(init, spaceId) + (if x.spaceId == spaceId then [x] else [])
  {
    SpaceRootsAppend(init, [x], spaceId);
    assert [x][1..] == [];
  }

  /** The index of the last top-level node in the space, or -1. */
  function LastSpaceIndex(treeData: seq<TreeNode>, spaceId: string): (k: int)
    ensures -1 <= k < |treeData|
    ensures k >= 0 ==> LastInSpace(treeData, spaceId, k)
    ensures k == -1 ==> NoneInSpace(treeData, spaceId)
    decreases |treeData|
  {
    if treeData == [] then -1
    else if treeData[|treeData| - 1].spaceId == spaceId then |treeData| - 1
    else
      var init := treeData[..|treeData| - 1];
      assert forall j :: 0 <= j < |init| ==> treeData[j] == init[j];
      LastSpaceIndex(init, spaceId)
  }

  /** The last of the space's roots is the last top-level node of the tree
      in that space; there are roots exactly when there is such a node. */
  lemma {:induction false} SpaceRootsLast(treeData: seq<TreeNode>, spaceId: string)
    ensures var r := SpaceRoots(treeData, spaceId);
      (r == [] <==> LastSpaceIndex(treeData, spaceId) == -1)
      && (r != [] ==> r[|r| - 1] == treeData[LastSpaceIndex(treeData, spaceId)])
    decreases |treeData|
  {
    if treeData != [] {
      var init, x := treeData[..|treeData| - 1], treeData[|treeData| - 1];
      assert treeData == init + [x];
      SpaceRootsSnoc(init, x, spaceId);
      if x.spaceId != spaceId {
        var rest := SpaceRoots(init, spaceId);
        assert rest + [] == rest;
        SpaceRootsLast(init, spaceId);
        if rest != [] {
          assert treeData[LastSpaceIndex(init, spaceId)] == init[LastSpaceIndex(init, spaceId)];
        }
      }
    }
  }

  lemma {:induction false} SpaceRootsWithinForest(treeData: seq<TreeNode>, spaceId: string)
    ensures ForestIds(SpaceRoots(treeData, spaceId)) <= ForestIds(treeData)
  {
    if treeData != [] {
      var h := treeData[0];
      SpaceRootsWithinForest(treeData[1..], spaceId);
      assert treeData == [h] + treeData[1..];
      ForestIdsAppend([h], treeData[1..]);
      ForestIdsAppend(if h.spaceId == spaceId then [h] else [], SpaceRoots(treeData[1..], spaceId));
    }
  }

  /** `filteredTreeData`: the space's top-level pages, without the moved page
      and everything under it. */
  function TargetTree(pageId: string, spaceId: string, treeData: seq<TreeNode>): seq<TreeNode> {
    FilterTree(SpaceRoots(treeData, spaceId), DescendantIds(pageId, treeData))
  }

  /** A page cannot be moved under itself or under one of its descendants:
      no id of its subtree appears anywhere in the target tree, which holds
      only pages of the tree, and has only the space's pages at the top. */
  lemma {:induction false} TargetTreeExcludesSubtree(pageId: string, spaceId: string, treeData: seq<TreeNode>)
    ensures var t := TargetTree(pageId, spaceId, treeData);
      ForestIds(t) !! DescendantIds(pageId, treeData)
      && pageId !in ForestIds(t)
      && ForestIds(t) <= ForestIds(treeData)
      && forall i :: 0 <= i < |t| ==> t[i].spaceId == spaceId
  {
    var roots := SpaceRoots(treeData, spaceId);
    var ex := DescendantIds(pageId, treeData);
    var t := FilterTree(roots, ex);
    FilterTreeIds(roots, ex);
    SpaceRootsWithinForest(treeData, spaceId);
    FilterTreeKeepsNodes(roots, ex);
    forall i | 0 <= i < |t| ensures t[i].spaceId == spaceId {
      assert IsKeptCopy(t[i], roots, ex);
      var j :| 0 <= j < |roots| && roots[j].id !in ex &&
        t[i] == roots[j].(childrenSet := true, children := FilterTree(roots[j].children, ex));
      assert roots[j] in roots;
    }
  }

  /** The dialog's "current parent": the moved page's `parentPageId` when it is
      a non-empty string, else none. */
  function ParentOf(movedNode: Option<TreeNode>): (r: Option<string>)
    ensures r.Some? <==> movedNode.Some? && Truthy(movedNode.value.parentPageId)
    ensures r.Some? ==> r == movedNode.value.parentPageId
  {
    if movedNode.Some? && Truthy(movedNode.value.parentPageId) then movedNode.value.parentPageId else None
  }

  /** The pages the moved page is appended after: the target's children (none
      when the target is not in the tree), or the space's top-level pages when
      moving to the root. */
  function NewSiblings(treeData: seq<TreeNode>, spaceId: string, targetParentId: Option<string>): (r: seq<TreeNode>)
    ensures Truthy(targetParentId) && targetParentId.value !in ForestIds(treeData) ==> r == []
    ensures Truthy(targetParentId) && targetParentId.value in ForestIds(treeData) ==>
      r == FirstWithId(Preorder(treeData), targetParentId.value).value.children
    ensures !Truthy(targetParentId) ==> forall n :: n in r <==> n in treeData && n.spaceId == spaceId
  {
    if Truthy(targetParentId) then
      FindFirstIsFirstInPreorder(treeData, targetParentId.value);
      match FindFirst(treeData, targetParentId.value)
      case Some(p) => p.children
      case None => []
    else SpaceRoots(treeData, spaceId)
  }

  /** The position of the last page of a list, or none for an empty list; the
      new position is generated after it. */
  function LastPosition(siblings: seq<TreeNode>): (r: Option<string>)
    ensures r.None? <==> siblings == []
    ensures r.Some? ==> r.value == siblings[|siblings| - 1].position
  {
    if |siblings| > 0 then Some(siblings[|siblings| - 1].position) else None
  }

  /** Moving to the root places the page after the space's last top-level
      page of the tree, and at the start when the space has none. */
  lemma {:induction false} RootMoveAnchor(treeData: seq<TreeNode>, spaceId: string, targetParentId: Option<string>)
    requires !Truthy(targetParentId)
    ensures var after := LastPosition(NewSiblings(treeData, spaceId, targetParentId));
      var k := LastSpaceIndex(treeData, spaceId);
      (after.None? <==> k == -1)
      && (after.Some? ==> LastInSpace(treeData, spaceId, k) && after.value == treeData[k].position)
  {
    SpaceRootsLast(treeData, spaceId);
  }

  /** The anchor of `handleMove`: the position of the last child of the
      target found by `findNode`, or of the space's last top-level page when
      moving to the root; none when there is no such page. */
  method SiblingAnchor(treeData: seq<TreeNode>, spaceId: string, targetParentId: Option<string>)
    returns (after: Option<string>)
    ensures after == LastPosition(NewSiblings(treeData, spaceId, targetParentId))
  {
    var siblings: seq<TreeNode>;
    if Truthy(targetParentId) {
      var targetNode := FindNode(treeData, targetParentId.value);
      siblings := if targetNode.Some? then targetNode.value.children else [];
    } else {
      siblings := SpaceRoots(treeData, spaceId);
    }
    after := if |siblings| > 0 then Some(siblings[|siblings| - 1].position) else None;
  }

  /** `handleNodeClick`: clicking the selected node clears the selection,
      clicking any other node selects it. */
  function ClickTarget(current: Option<string>, nodeId: string): (r: Option<string>)
    ensures r.None? <==> current == Some(nodeId)
    ensures r.Some? <==> r == Some(nodeId)
  {
    if current == Some(nodeId) then None else Some(nodeId)
  }

  /** Clicking the same node twice clears the selection, or restores it when
      it was that node. */
  lemma {:induction false} ClickTwice(current: Option<string>, nodeId: string)
    ensures ClickTarget(ClickTarget(current, nodeId), nodeId) ==
      (if current == Some(nodeId) then current else None)
  {
  }

  /** The keys of the queries refetched after a move. */
  datatype QueryKey = RootSidebarPages(spaceId: string) | SidebarPages(parentId: string)

  /** The list `queriesToRefetch` is built from. */
  method RefetchKeys(spaceId: string, currentParentId: Option<string>, targetParentId: Option<string>)
    returns (keys: seq<QueryKey>)
    ensures |keys| >= 1 && keys[0] == RootSidebarPages(spaceId)
    ensures forall k :: k in keys[1..] ==> k.SidebarPages?
    ensures forall p :: SidebarPages(p) in keys <==>
      (Truthy(currentParentId) && p == currentParentId.value) || (Truthy(targetParentId) && p == targetParentId.value)
    ensures |keys| == 1 + (if Truthy(currentParentId) then 1 else 0) + (if Truthy(targetParentId) then 1 else 0)
  {
    keys := [RootSidebarPages(spaceId)];
    if Truthy(currentParentId) {
      keys := keys + [SidebarPages(currentParentId.value)];
    }
    if Truthy(targetParentId) {
      keys := keys + [SidebarPages(targetParentId.value)];
    }
  }

  /** The `movePage` call: the page, its new parent (none for the root) and the
      position the new key is generated after. */
  datatype MoveRequest = MoveRequest(pageId: string, parentPageId: Option<string>, after: Option<string>)

  datatype MoveOutcome =
    | Skipped
    | Failed(request: MoveRequest)
    | Moved(request: MoveRequest, refetched: seq<QueryKey>)

  /** The dialog's state. */
  class MoveDialog {
    const pageId: string
    const spaceId: string
    var targetParentId: Option<string>
    var isMoving: bool

    constructor (pageId: string, spaceId: string)
      ensures this.pageId == pageId && this.spaceId == spaceId
      ensures targetParentId.None? && !isMoving
    {
      this.pageId := pageId;
      this.spaceId := spaceId;
      targetParentId := None;
      isMoving := false;
    }

    method NodeClick(nodeId: string)
      modifies this
      ensures targetParentId == ClickTarget(old(targetParentId), nodeId)
      ensures isMoving == old(isMoving)
    {
      targetParentId := if targetParentId == Some(nodeId) then None else Some(nodeId);
    }

    /** `handleMove`, with `treeData` the sidebar tree at the time of the click;
        `moveOk` says whether `movePage` resolves and `refetchOk` whether the
        refetches do. A move started while another is running does nothing;
        any other ends with `isMoving` cleared, and a successful one also
        clears the selection. */
    method HandleMove(treeData: seq<TreeNode>, moveOk: bool, refetchOk: bool) returns (outcome: MoveOutcome)
      modifies this
      ensures old(isMoving) ==> outcome == Skipped && isMoving && targetParentId == old(targetParentId)
      ensures !old(isMoving) ==> !isMoving && outcome != Skipped
      ensures outcome != Skipped ==>
        outcome.request == MoveRequest(pageId, old(targetParentId),
          LastPosition(NewSiblings(treeData, spaceId, old(targetParentId))))
      ensures outcome.Moved? <==> !old(isMoving) && moveOk && refetchOk
      ensures outcome.Moved? ==>
        targetParentId.None?
        && |outcome.refetched| >= 1 && outcome.refetched[0] == RootSidebarPages(spaceId)
        && forall p :: SidebarPages(p) in outcome.refetched <==>
          (ParentOf(FindFirst(treeData, pageId)).Some? && p == ParentOf(FindFirst(treeData, pageId)).value)
          || (Truthy(old(targetParentId)) && p == old(targetParentId).value)
      ensures outcome.Failed? ==> targetParentId == old(targetParentId)
    {
      if isMoving {
        return Skipped;
      }
      isMoving := true;
      var movedNode := FindNode(treeData, pageId);
      var currentParentId := ParentOf(movedNode);
      var lastPosition := SiblingAnchor(treeData, spaceId, targetParentId);
      var request := MoveRequest(pageId, targetParentId, lastPosition);
      if !moveOk {
        isMoving := false;
        return Failed(request);
      }
      var keys := RefetchKeys(spaceId, currentParentId, targetParentId);
      if !refetchOk {
        isMoving := false;
        return Failed(request);
      }
      targetParentId := None;
      isMoving := false;
      return Moved(request, keys);
    }
  }
}
