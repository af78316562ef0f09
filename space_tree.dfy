/** The sidebar page tree of a space: a forest of `SpaceTreeNode`s, and the
    reference notions the tree algorithms are specified by (pre-order, the ids
    of a forest, the first node with an id). */
module SpaceTree {
  import opened Wrappers

  /** A page of the sidebar tree. `childrenSet` is false when the node has no
      `children` property at all, and `children` is then empty. Every algorithm
      here treats a missing list and an empty one alike, so they read
      `children` directly and only carry the flag along. */
  datatype TreeNode = TreeNode(
    id: string,
    title: string,
    position: string,
    spaceId: string,
    parentPageId: Option<string>,
    hasChildren: bool,
    childrenSet: bool,
    children: seq<TreeNode>)

  /** Every node of the forest in pre-order (a node, then its subtree, then
      its following siblings). */
  function Preorder(nodes: seq<TreeNode>): (r: seq<TreeNode>)
    ensures |r| >= |nodes|
    ensures nodes != [] ==> r[0] == nodes[0]
    decreases nodes
  {
    if nodes == [] then []
    else [nodes[0]] + Preorder(nodes[0].children)
         + Preorder(nodes[1..])
  }

  /** Pre-order distributes over a concatenation of forests. */
  lemma {:induction false} PreorderAppend(a: seq<TreeNode>, b: seq<TreeNode>)
    ensures Preorder(a + b) == Preorder(a) + Preorder(b)
    decreases a
  {
    if a == [] {
      assert a + b == b;
    } else {
      assert (a + b)[0] == a[0];
      assert (a + b)[1..] == a[1..] + b;
      PreorderAppend(a[1..], b);
    }
  }

  /** The pre-order of a one-node forest: the node, then its subtree. */
  lemma {:induction false} PreorderSingle(n: TreeNode)
    ensures Preorder([n]) == [n] + Preorder(n.children)
  {
    assert [n][1..] == [];
  }

  /** The ids of a sequence of nodes. */
  function IdsOf(s: seq<TreeNode>): set<string> {
    set i | 0 <= i < |s| :: s[i].id
  }

  lemma {:induction false} IdsOfAppend(a: seq<TreeNode>, b: seq<TreeNode>)
    ensures IdsOf(a + b) == IdsOf(a) + IdsOf(b)
  {
    forall x | x in IdsOf(a + b) ensures x in IdsOf(a) + IdsOf(b) {
      var i :| 0 <= i < |a + b| && (a + b)[i].id == x;
      if i >= |a| { assert b[i - |a|].id == x; }
    }
    forall x | x in IdsOf(a) + IdsOf(b) ensures x in IdsOf(a + b) {
      if x in IdsOf(a) {
        var i :| 0 <= i < |a| && a[i].id == x;
        assert (a + b)[i].id == x;
      } else {
        var i :| 0 <= i < |b| && b[i].id == x;
        assert (a + b)[|a| + i].id == x;
      }
    }
  }

  /** Every id anywhere in the forest. */
  function ForestIds(nodes: seq<TreeNode>): set<string> {
    IdsOf(Preorder(nodes))
  }

  /** A node's own id and the ids of all its descendants. */
  function SubtreeIds(n: TreeNode): set<string> {
    ForestIds([n])
  }

  lemma {:induction false} IdsOfCons(s: seq<TreeNode>)
    requires s != []
    ensures IdsOf(s) == {s[0].id} + IdsOf(s[1..])
  {
    assert s == [s[0]] + s[1..];
    IdsOfAppend([s[0]], s[1..]);
  }

  /** The first element of a flat sequence with the id. */
  function FirstWithId(s: seq<TreeNode>, id: string): (r: Option<TreeNode>)
    ensures r.None? <==> id !in IdsOf(s)
    ensures r.Some? ==> r.value in s && r.value.id == id
  {
    if s == [] then None
    else if s[0].id == id then Some(s[0])
    else
      IdsOfCons(s);
      FirstWithId(s[1..], id)
  }

  /** What `FirstWithId` finds is the element at the first position holding the id. */
  lemma {:induction false} FirstWithIdIsFirst(s: seq<TreeNode>, id: string)
    requires FirstWithId(s, id).Some?
    ensures exists k :: (0 <= k < |s| && s[k] == FirstWithId(s, id).value
      && forall j :: 0 <= j < k ==> s[j].id != id)
  {
    if s[0].id != id {
      FirstWithIdIsFirst(s[1..], id);
      var k :| 0 <= k < |s[1..]| && s[1..][k] == FirstWithId(s[1..], id).value
        && forall j :: 0 <= j < k ==> s[1..][j].id != id;
      assert s[k + 1] == FirstWithId(s, id).value;
      assert forall j :: 1 <= j < k + 1 ==> s[j].id == s[1..][j - 1].id;
    } else {
      assert s[0] == FirstWithId(s, id).value;
    }
  }

  lemma {:induction false} FirstWithIdAppend(a: seq<TreeNode>, b: seq<TreeNode>, id: string)
    ensures FirstWithId(a + b, id) ==
      (if FirstWithId(a, id).Some? then FirstWithId(a, id) else FirstWithId(b, id))
  {
    if a == [] {
      assert a + b == b;
    } else {
      assert (a + b)[0] == a[0];
      assert (a + b)[1..] == a[1..] + b;
      FirstWithIdAppend(a[1..], b, id);
    }
  }

  /** The search of `findNode` and of `getDescendantIds`' traversal: a node is
      tested before its children, its children before its next sibling, and the
      search stops at the first hit. */
  function FindFirst(nodes: seq<TreeNode>, id: string): (r: Option<TreeNode>)
    ensures r.Some? ==> r.value.id == id
    decreases nodes
  {
    if nodes == [] then None
    else if nodes[0].id == id then Some(nodes[0])
    else
      var inKids := FindFirst(nodes[0].children, id);
      if inKids.Some? then inKids else FindFirst(nodes[1..], id)
  }

  /** The search finds exactly the first node with the id in pre-order, and
      nothing when no node of the forest has the id. */
  lemma {:induction false} FindFirstIsFirstInPreorder(nodes: seq<TreeNode>, id: string)
    ensures FindFirst(nodes, id) == FirstWithId(Preorder(nodes), id)
    ensures FindFirst(nodes, id).None? <==> id !in ForestIds(nodes)
    decreases nodes
  {
    if nodes != [] {
      var n := nodes[0];
      FindFirstIsFirstInPreorder(n.children, id);
      FindFirstIsFirstInPreorder(nodes[1..], id);
      FirstWithIdAppend([n] + Preorder(n.children), Preorder(nodes[1..]), id);
      FirstWithIdAppend([n], Preorder(n.children), id);
    }
  }

  /** A node found by the search lies in the forest. */
  lemma {:induction false} FindFirstInForest(nodes: seq<TreeNode>, id: string)
    requires FindFirst(nodes, id).Some?
    ensures FindFirst(nodes, id).value in Preorder(nodes)
  {
    FindFirstIsFirstInPreorder(nodes, id);
  }
}
