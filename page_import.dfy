/** The page-tree updates of the import dialog: placing imported pages under a
    parent (`updateChildrenForParent`, `addChildrenToParent`), merging the latest
    root listing, appending imported roots, and counting imported pages. */
module PageImport {
  import opened Wrappers
  import opened Strings
  import opened Seqs
  import opened SpaceTree

  /** Two nodes that agree on everything but `hasChildren` and their child list. */
  predicate SameEntry(a: TreeNode, b: TreeNode) {
    a.id == b.id && a.title == b.title && a.position == b.position
    && a.spaceId == b.spaceId && a.parentPageId == b.parentPageId
  }

  /** How a parent's new child list is made: the given nodes replace its
      children, or are appended after them. */
  datatype ChildUpdate = ReplaceWith(kids: seq<TreeNode>) | AppendAfter(kids: seq<TreeNode>)

  function NewKids(u: ChildUpdate, n: TreeNode): seq<TreeNode> {
    match u
    case ReplaceWith(kids) => kids
    case AppendAfter(kids) => n.children + kids
  }

  /** The walk both helpers share: every node with `parentId` gets
      `hasChildren = true` and its new child list, without looking inside it;
      any other node with a non-empty child list is rebuilt with the walk
      applied to its children; all other nodes are returned as they are. */
  function Reparent(nodes: seq<TreeNode>, parentId: string, u: ChildUpdate): (r: seq<TreeNode>)
    ensures |r| == |nodes|
    ensures forall i :: 0 <= i < |nodes| ==> SameEntry(r[i], nodes[i])
    ensures forall i :: 0 <= i < |nodes| && nodes[i].id == parentId ==>
      r[i] == nodes[i].(hasChildren := true, childrenSet := true, children := NewKids(u, nodes[i]))
    decreases nodes
  {
    if nodes == [] then []
    else
      var n := nodes[0];
      var n' :=
        if n.id == parentId then n.(hasChildren := true, childrenSet := true, children := NewKids(u, n))
        else if |n.children| > 0 then n.(children := Reparent(n.children, parentId, u))
        else n;
      var rest := Reparent(nodes[1..], parentId, u);
      assert forall i :: 1 <= i < |nodes| ==> ([n'] + rest)[i] == rest[i - 1] && nodes[i] == nodes[1..][i - 1];
      [n'] + rest
  }

  /** Any other node keeps its own data and has the walk applied to its
      children, so the walk reaches every depth. */
  lemma {:induction false} ReparentDescends(nodes: seq<TreeNode>, parentId: string, u: ChildUpdate, i: nat)
    requires i < |nodes| && nodes[i].id != parentId
    ensures Reparent(nodes, parentId, u)[i] == nodes[i].(children := Reparent(nodes[i].children, parentId, u))
    decreases nodes
  {
    if i > 0 {
      ReparentDescends(nodes[1..], parentId, u, i - 1);
      assert nodes[1..][i - 1] == nodes[i];
    }
  }

  /** With no node carrying `parentId`, the tree comes back unchanged. */
  lemma {:induction false} ReparentAbsent(nodes: seq<TreeNode>, parentId: string, u: ChildUpdate)
    requires FindFirst(nodes, parentId).None?
    ensures Reparent(nodes, parentId, u) == nodes
    decreases nodes
  {
    if nodes != [] {
      var n := nodes[0];
      ReparentAbsent(nodes[1..], parentId, u);
      ReparentAbsent(n.children, parentId, u);
      assert nodes == [n] + nodes[1..];
    }
  }

  /** Every node whose subtree holds no `parentId` comes back whole, at any
      position of the forest. */
  lemma {:induction false} ReparentKeepsUntouched(nodes: seq<TreeNode>, parentId: string, u: ChildUpdate)
    ensures forall i :: 0 <= i < |nodes| && FindFirst([nodes[i]], parentId).None? ==>
      Reparent(nodes, parentId, u)[i] == nodes[i]
  {
    forall i | 0 <= i < |nodes| && FindFirst([nodes[i]], parentId).None?
      ensures Reparent(nodes, parentId, u)[i] == nodes[i]
    {
      assert FindFirst(nodes[i].children, parentId).None?;
      ReparentDescends(nodes, parentId, u, i);
      ReparentAbsent(nodes[i].children, parentId, u);
    }
  }

  /** The search for the parent in the result finds the parent it found
      before, now carrying the new child list. */
  lemma {:induction false} ReparentFound(nodes: seq<TreeNode>, parentId: string, u: ChildUpdate)
    requires FindFirst(nodes, parentId).Some?
    ensures var p := FindFirst(nodes, parentId).value;
      FindFirst(Reparent(nodes, parentId, u), parentId)
        == Some(p.(hasChildren := true, childrenSet := true, children := NewKids(u, p)))
    decreases nodes
  {
    var n := nodes[0];
    var r := Reparent(nodes, parentId, u);
    assert r[1..] == Reparent(nodes[1..], parentId, u);
    if n.id != parentId {
      if FindFirst(n.children, parentId).Some? {
        ReparentFound(n.children, parentId, u);
      } else {
        if |n.children| > 0 {
          ReparentAbsent(n.children, parentId, u);
        }
        ReparentFound(nodes[1..], parentId, u);
      }
    }
  }

  /** `updateChildrenForParent`: every node with the parent id has its
      children replaced by `newChildren`; a node whose subtree does not hold
      the id is kept whole; the tree is unchanged when no node has the id. */
  function UpdateChildrenForParent(nodes: seq<TreeNode>, parentId: string, newChildren: seq<TreeNode>)
    : (r: seq<TreeNode>)
    ensures |r| == |nodes| && forall i :: 0 <= i < |nodes| ==> SameEntry(r[i], nodes[i])
    ensures forall i :: 0 <= i < |nodes| && nodes[i].id == parentId ==>
      r[i] == nodes[i].(hasChildren := true, childrenSet := true, children := newChildren)
    ensures forall i :: 0 <= i < |nodes| && FindFirst([nodes[i]], parentId).None? ==> r[i] == nodes[i]
    ensures FindFirst(nodes, parentId).None? ==> r == nodes
    ensures FindFirst(nodes, parentId).Some? ==>
      FindFirst(r, parentId) == Some(FindFirst(nodes, parentId).value.(
        hasChildren := true, childrenSet := true, children := newChildren))
  {
    var u := ReplaceWith(newChildren);
    ReparentKeepsUntouched(nodes, parentId, u);
    if FindFirst(nodes, parentId).None? then
      ReparentAbsent(nodes, parentId, u);
      Reparent(nodes, parentId, u)
    else
      ReparentFound(nodes, parentId, u);
      Reparent(nodes, parentId, u)
  }

  /** Below a node without the parent id, `updateChildrenForParent` recurses. */
  lemma {:induction false} UpdateChildrenDescends(nodes: seq<TreeNode>, parentId: string, newChildren: seq<TreeNode>, i: nat)
    requires i < |nodes| && nodes[i].id != parentId
    ensures UpdateChildrenForParent(nodes, parentId, newChildren)[i]
      == nodes[i].(children := UpdateChildrenForParent(nodes[i].children, parentId, newChildren))
  {
    ReparentDescends(nodes, parentId, ReplaceWith(newChildren), i);
  }

  /** `addChildrenToParent`: every node with the parent id gets the new
      children appended, in order, after its existing ones (none when it had
      no child list); a node whose subtree does not hold the id is kept whole;
      the tree is unchanged when no node has the id. */
  function AddChildrenToParent(nodes: seq<TreeNode>, parentId: string, newChildren: seq<TreeNode>)
    : (r: seq<TreeNode>)
    ensures |r| == |nodes| && forall i :: 0 <= i < |nodes| ==> SameEntry(r[i], nodes[i])
    ensures forall i :: 0 <= i < |nodes| && nodes[i].id == parentId ==>
      r[i] == nodes[i].(hasChildren := true, childrenSet := true, children := nodes[i].children + newChildren)
    ensures forall i :: 0 <= i < |nodes| && FindFirst([nodes[i]], parentId).None? ==> r[i] == nodes[i]
    ensures FindFirst(nodes, parentId).None? ==> r == nodes
    ensures FindFirst(nodes, parentId).Some? ==>
      var p := FindFirst(nodes, parentId).value;
      FindFirst(r, parentId) == Some(p.(
        hasChildren := true, childrenSet := true, children := p.children + newChildren))
  {
    var u := AppendAfter(newChildren);
    ReparentKeepsUntouched(nodes, parentId, u);
    if FindFirst(nodes, parentId).None? then
      ReparentAbsent(nodes, parentId, u);
      Reparent(nodes, parentId, u)
    else
      ReparentFound(nodes, parentId, u);
      Reparent(nodes, parentId, u)
  }

  /** Below a node without the parent id, `addChildrenToParent` recurses. */
  lemma {:induction false} AddChildrenDescends(nodes: seq<TreeNode>, parentId: string, newChildren: seq<TreeNode>, i: nat)
    requires i < |nodes| && nodes[i].id != parentId
    ensures AddChildrenToParent(nodes, parentId, newChildren)[i]
      == nodes[i].(children := AddChildrenToParent(nodes[i].children, parentId, newChildren))
  {
    ReparentDescends(nodes, parentId, AppendAfter(newChildren), i);
  }

  /** The top-level id set of a forest. */
  function RootIds(nodes: seq<TreeNode>): set<string> {
    set i | 0 <= i < |nodes| :: nodes[i].id
  }

  /** `nodes.filter(n => ids.has(n.id) == keep)`. */
  function KeepByRootId(nodes: seq<TreeNode>, ids: set<string>, keep: bool): (r: seq<TreeNode>)
    ensures |r| <= |nodes|
    ensures forall n :: n in r <==> n in nodes && ((n.id in ids) == keep)
  {
    if nodes == [] then []
    else (if (nodes[0].id in ids) == keep then [nodes[0]] else []) + KeepByRootId(nodes[1..], ids, keep)
  }

  /** The filter keeps order: it distributes over concatenation. */
  lemma {:induction false} KeepByRootIdAppend(a: seq<TreeNode>, b: seq<TreeNode>, ids: set<string>, keep: bool)
    ensures KeepByRootId(a + b, ids, keep) == KeepByRootId(a, ids, keep) + KeepByRootId(b, ids, keep)
  {
    if a == [] {
      assert a + b == b;
    } else {
      assert (a + b)[1..] == a[1..] + b;
      KeepByRootIdAppend(a[1..], b, ids, keep);
    }
  }

  /** What the filter keeps is the input with some nodes left out, the others
      in their order. */
  lemma {:induction false} KeepByRootIdIsSubsequence(nodes: seq<TreeNode>, ids: set<string>, keep: bool)
    ensures IsSubsequence(KeepByRootId(nodes, ids, keep), nodes)
  {
    if nodes != [] {
      var r, rest := KeepByRootId(nodes, ids, keep), KeepByRootId(nodes[1..], ids, keep);
      KeepByRootIdIsSubsequence(nodes[1..], ids, keep);
      if (nodes[0].id in ids) == keep {
        assert r[0] == nodes[0] && r[1..] == rest;
      } else {
        assert r == rest;
      }
    }
  }

  /** The root refresh after a zip import into the root: the current roots that
      the latest listing still has, in current order, then the latest roots that
      were not there before. The tree is only updated when the listing is non-empty.
      (The `mergedTree` the source computes first is never used.) */
  function RootRefresh(current: seq<TreeNode>, latest: seq<TreeNode>): (r: Option<seq<TreeNode>>)
    ensures r.None? <==> latest == []
    ensures r.Some? ==>
      r.value == KeepByRootId(current, RootIds(latest), true) + KeepByRootId(latest, RootIds(current), false)
  {
    if latest == [] then None
    else Some(KeepByRootId(current, RootIds(latest), true) + KeepByRootId(latest, RootIds(current), false))
  }

  /** `r` is what `nodes.filter(n => ids.has(n.id) == keep)` returns: the
      nodes on the kept side, every one of them, in their order. */
  predicate IsRootFilter(r: seq<TreeNode>, nodes: seq<TreeNode>, ids: set<string>, keep: bool) {
    IsSubsequence(r, nodes)
    && (forall i :: 0 <= i < |r| ==> (r[i].id in ids) == keep)
    && (forall i :: 0 <= i < |nodes| && (nodes[i].id in ids) == keep ==> nodes[i] in r)
  }

  lemma {:induction false} KeepByRootIdIsFilter(nodes: seq<TreeNode>, ids: set<string>, keep: bool)
    ensures IsRootFilter(KeepByRootId(nodes, ids, keep), nodes, ids, keep)
  {
    var r := KeepByRootId(nodes, ids, keep);
    KeepByRootIdIsSubsequence(nodes, ids, keep);
    forall i | 0 <= i < |r| ensures (r[i].id in ids) == keep {
      assert r[i] in r;
    }
    forall i | 0 <= i < |nodes| && (nodes[i].id in ids) == keep ensures nodes[i] in r {
      assert nodes[i] in nodes;
    }
  }

  /** The refreshed roots come in two runs: first the current roots the
      latest listing still has, all of them and in current order, then the
      latest roots that are new, in listing order. */
  lemma {:induction false} RootRefreshKeepsOrder(current: seq<TreeNode>, latest: seq<TreeNode>)
    requires latest != []
    ensures exists kept, added :: (RootRefresh(current, latest).value == kept + added
      && IsRootFilter(kept, current, RootIds(latest), true)
      && IsRootFilter(added, latest, RootIds(current), false))
  {
    var kept := KeepByRootId(current, RootIds(latest), true);
    var added := KeepByRootId(latest, RootIds(current), false);
    KeepByRootIdIsFilter(current, RootIds(latest), true);
    KeepByRootIdIsFilter(latest, RootIds(current), false);
    assert RootRefresh(current, latest).value == kept + added;
  }

  /** After a refresh the roots are exactly the roots of the latest listing. */
  lemma {:induction false} RootRefreshHasFreshRoots(current: seq<TreeNode>, latest: seq<TreeNode>)
    requires latest != []
    ensures RootIds(RootRefresh(current, latest).value) == RootIds(latest)
  {
    var kept := KeepByRootId(current, RootIds(latest), true);
    var added := KeepByRootId(latest, RootIds(current), false);
    RootIdsAppend(kept, added);
    KeepByRootIdRoots(current, RootIds(latest), true);
    KeepByRootIdRoots(latest, RootIds(current), false);
  }

  lemma {:induction false} RootIdsAppend(a: seq<TreeNode>, b: seq<TreeNode>)
    ensures RootIds(a + b) == RootIds(a) + RootIds(b)
  {
    var r := a + b;
    forall x | x in RootIds(r) ensures x in RootIds(a) + RootIds(b) {
      var i :| 0 <= i < |r| && r[i].id == x;
      if i < |a| { assert r[i] == a[i]; } else { assert r[i] == b[i - |a|]; }
    }
    forall x | x in RootIds(a) + RootIds(b) ensures x in RootIds(r) {
      if x in RootIds(a) {
        var i :| 0 <= i < |a| && a[i].id == x;
        assert r[i] == a[i];
      } else {
        var i :| 0 <= i < |b| && b[i].id == x;
        assert r[|a| + i] == b[i];
      }
    }
  }

  /** Filtering by root id keeps exactly the root ids on the kept side. */
  lemma {:induction false} KeepByRootIdRoots(nodes: seq<TreeNode>, ids: set<string>, keep: bool)
    ensures keep ==> RootIds(KeepByRootId(nodes, ids, keep)) == RootIds(nodes) * ids
    ensures !keep ==> RootIds(KeepByRootId(nodes, ids, keep)) == RootIds(nodes) - ids
  {
    var r := KeepByRootId(nodes, ids, keep);
    forall x | x in RootIds(r) ensures x in RootIds(nodes) && (x in ids) == keep {
      var i :| 0 <= i < |r| && r[i].id == x;
      assert r[i] in r;
      var j :| 0 <= j < |nodes| && nodes[j] == r[i];
    }
    forall x | x in RootIds(nodes) && (x in ids) == keep ensures x in RootIds(r) {
      var j :| 0 <= j < |nodes| && nodes[j].id == x;
      assert nodes[j] in r;
      var k :| 0 <= k < |r| && r[k] == nodes[j];
    }
  }

  /** When the latest listing keeps every current root, the current roots stay
      first, whole and in order. */
  lemma {:induction false} RootRefreshKeepsCurrent(current: seq<TreeNode>, latest: seq<TreeNode>)
    requires latest != [] && RootIds(current) <= RootIds(latest)
    ensures |RootRefresh(current, latest).value| >= |current|
    ensures RootRefresh(current, latest).value[..|current|] == current
  {
    KeepAllWhenAllIn(current, RootIds(latest));
    var r := RootRefresh(current, latest).value;
    assert r[..|current|] == KeepByRootId(current, RootIds(latest), true);
  }

  lemma {:induction false} KeepAllWhenAllIn(nodes: seq<TreeNode>, ids: set<string>)
    requires RootIds(nodes) <= ids
    ensures KeepByRootId(nodes, ids, true) == nodes
  {
    if nodes != [] {
      assert nodes[0].id in RootIds(nodes);
      assert RootIds(nodes[1..]) <= RootIds(nodes) by {
        forall x | x in RootIds(nodes[1..]) ensures x in RootIds(nodes) {
          var i :| 0 <= i < |nodes[1..]| && nodes[1..][i].id == x;
          assert nodes[i + 1].id == x;
        }
      }
      KeepAllWhenAllIn(nodes[1..], ids);
      assert nodes == [nodes[0]] + nodes[1..];
    }
  }

  /** A root import appends the new nodes after the existing roots; nothing is
      written when there are none. */
  function RootConcat(treeData: seq<TreeNode>, newNodes: seq<TreeNode>): (r: Option<seq<TreeNode>>)
    ensures r.Some? <==> newNodes != []
    ensures r.Some? ==>
      |r.value| == |treeData| + |newNodes|
      && r.value[..|treeData|] == treeData && r.value[|treeData|..] == newNodes
  {
    var fullTree := treeData + newNodes;
    if |newNodes| > 0 && |fullTree| > 0 then Some(fullTree) else None
  }

  /** A page the server created for an imported file. */
  datatype ImportedPage = ImportedPage(id: string, title: string)

  /** The pages of the files whose import succeeded, in file order. */
  function Successes(outcomes: seq<Option<ImportedPage>>): (pages: seq<ImportedPage>)
    ensures |pages| <= |outcomes|
    ensures forall p :: p in pages <==> Some(p) in outcomes
  {
    if outcomes == [] then []
    else
      assert outcomes == [outcomes[0]] + outcomes[1..];
      (if outcomes[0].Some? then [outcomes[0].value] else []) + Successes(outcomes[1..])
  }

  lemma {:induction false} SuccessesAppend(a: seq<Option<ImportedPage>>, b: seq<Option<ImportedPage>>)
    ensures Successes(a + b) == Successes(a) + Successes(b)
  {
    if a == [] {
      assert a + b == b;
    } else {
      assert (a + b)[0] == a[0];
      assert (a + b)[1..] == a[1..] + b;
      SuccessesAppend(a[1..], b);
    }
  }

  /** The loop of `handleFileUpload`: each file's import either yields a page
      (`Some`) or throws (`None`) and is skipped. */
  method ImportFiles(outcomes: seq<Option<ImportedPage>>) returns (pages: seq<ImportedPage>, pageCount: nat)
    ensures pages == Successes(outcomes)
    ensures pageCount == |pages|
  {
    pages := [];
    pageCount := 0;
    var i := 0;
    while i < |outcomes|
      invariant 0 <= i <= |outcomes|
      invariant pages == Successes(outcomes[..i])
      invariant pageCount == |pages|
    {
      assert outcomes[..i + 1] == outcomes[..i] + [outcomes[i]];
      SuccessesAppend(outcomes[..i], [outcomes[i]]);
      match outcomes[i] {
        case Some(page) =>
          pages := pages + [page];
          pageCount := pageCount + 1;
        case None =>
      }
      i := i + 1;
    }
    assert outcomes[..i] == outcomes;
  }

  /** The tree after an upload with imported pages (`newTreeNodes` is what
      `buildTree` makes of them): under the import target when there is one,
      else appended to the roots; `None` leaves the tree alone. */
  function UploadTreeUpdate(treeData: seq<TreeNode>, targetParentId: Option<string>, pageCount: nat,
                            newTreeNodes: seq<TreeNode>): (r: Option<seq<TreeNode>>)
    ensures pageCount == 0 ==> r.None?
    ensures pageCount > 0 && Truthy(targetParentId) ==>
      r == Some(AddChildrenToParent(treeData, targetParentId.value, newTreeNodes))
    ensures pageCount > 0 && !Truthy(targetParentId) ==> r == RootConcat(treeData, newTreeNodes)
  {
    if pageCount == 0 then None
    else if Truthy(targetParentId) then Some(AddChildrenToParent(treeData, targetParentId.value, newTreeNodes))
    else RootConcat(treeData, newTreeNodes)
  }

  /** `pageCountText`, with the translations of "page" and "pages" passed in. */
  function PageCountText(pageCount: nat, page: string, pages: string): (text: string)
    ensures pageCount == 1 ==> text == "1 " + page
    ensures pageCount != 1 ==> text == NatToString(pageCount) + " " + pages
  {
    if pageCount == 1 then "1 " + page else NatToString(pageCount) + " " + pages
  }
}
