/**
  The relay tree of a group, `src/group/index.ts`: a binary tree filled breadth first from a ranking of the members.
 */
module RelayTree {
  import opened Wrappers

  type Peer = string

  datatype TreeNode = TreeNode(peerId: Peer, children: seq<TreeNode>, activityScore: nat, lastActive: int)

  // ---- Searching a tree ----

  /** `findNodeInTree`. */
  function FindNode(root: TreeNode, id: Peer): Option<TreeNode>
    decreases root, 0
  {
    if root.peerId == id then Some(root) else FindNodeFrom(root, id, 0)
  }

  function FindNodeFrom(root: TreeNode, id: Peer, i: nat): Option<TreeNode>
    requires i <= |root.children|
    decreases root, 0, |root.children| - i
  {
    if i == |root.children| then None else
    var found := FindNode(root.children[i], id);
    if found.Some? then found else FindNodeFrom(root, id, i + 1)
  }

  /** `findParentInTree`. */
  function FindParent(root: TreeNode, id: Peer, i: nat := 0): Option<TreeNode>
    requires i <= |root.children|
    decreases root, |root.children| - i
  {
    if i == |root.children| then None
    else if root.children[i].peerId == id then Some(root)
    else
      var found := FindParent(root.children[i], id);
      if found.Some? then found else FindParent(root, id, i + 1)
  }

  /** `isInSubtree`. */
  predicate InSubtree(node: TreeNode, id: Peer)
    decreases node, 0
  {
    node.peerId == id || InSomeSubtree(node, id, 0)
  }

  predicate InSomeSubtree(node: TreeNode, id: Peer, i: nat)
    requires i <= |node.children|
    decreases node, 0, |node.children| - i
  {
    i < |node.children| && (InSubtree(node.children[i], id) || InSomeSubtree(node, id, i + 1))
  }

  /** `collectDescendants` for a sender. */
  function Descendants(node: TreeNode, sender: Peer, i: nat := 0): seq<Peer>
    requires i <= |node.children|
    decreases node, |node.children| - i
  {
    if i == |node.children| then [] else
    var child := node.children[i];
    (if child.peerId != sender then [child.peerId] else []) + Descendants(child, sender) +
      Descendants(node, sender, i + 1)
  }

  function Height(node: TreeNode, i: nat := 0): nat
    requires i <= |node.children|
    decreases node, |node.children| - i
  {
    if i == |node.children| then 0 else
    var here, rest := 1 + Height(node.children[i]), Height(node, i + 1);
    if here > rest then here else rest
  }

  // ---- The shape ----

  /** Where the children of the i-th of n ranked nodes are. */
  function ChildIndices(n: nat, i: nat): seq<nat> {
    (if 2 * i + 1 < n then [2 * i + 1] else []) + (if 2 * i + 2 < n then [2 * i + 2] else [])
  }

  /** The tree below the i-th node of a ranking. */
  function TreeOf(nodes: seq<TreeNode>, i: nat): TreeNode
    requires i < |nodes|
    decreases |nodes| - i
  {
    nodes[i].(children := (if 2 * i + 1 < |nodes| then [TreeOf(nodes, 2 * i + 1)] else []) +
                          (if 2 * i + 2 < |nodes| then [TreeOf(nodes, 2 * i + 2)] else []))
  }

  ghost predicate DistinctPeers(nodes: seq<TreeNode>) {
    forall i, j | 0 <= i < j < |nodes| :: nodes[i].peerId != nodes[j].peerId
  }

  function Parent(j: nat): nat
    requires j > 0
  {
    (j - 1) / 2
  }

  /** Node j is in the subtree of node i. */
  ghost predicate Under(j: nat, i: nat) {
    j == i || (j > i && Under(Parent(j), i))
  }

  lemma {:induction false} AllUnderRoot(j: nat)
    ensures Under(j, 0)
  {
    if j == 0 {
    } else {
      AllUnderRoot(Parent(j));
    }
  }

  /** A proper descendant is under exactly one child. */
  lemma {:induction false} UnderOneChild(j: nat, i: nat)
    ensures Under(j, i) && j != i <==> Under(j, 2 * i + 1) || Under(j, 2 * i + 2)
    ensures !(Under(j, 2 * i + 1) && Under(j, 2 * i + 2))
    ensures Under(j, i) ==> j >= i
  {
    if j == 0 {
    } else {
      UnderOneChild(Parent(j), i);
    }
  }

  /** Positions past the end are above no node. */
  lemma UnderBound(j: nat, i: nat, n: nat)
    requires j < n <= i
    ensures !Under(j, i)
  {
  }

  // ---- What the searches find ----

  lemma ChildrenOf(nodes: seq<TreeNode>, i: nat)
    requires i < |nodes|
    ensures var t := TreeOf(nodes, i);
            && t.peerId == nodes[i].peerId
            && |t.children| == (if 2 * i + 2 < |nodes| then 2 else if 2 * i + 1 < |nodes| then 1 else 0)
            && (2 * i + 1 < |nodes| ==> t.children[0] == TreeOf(nodes, 2 * i + 1))
            && (2 * i + 2 < |nodes| ==> t.children[1] == TreeOf(nodes, 2 * i + 2))
  {
  }

  lemma FindNodeFromChildren(t: TreeNode, id: Peer)
    requires |t.children| <= 2
    ensures FindNodeFrom(t, id, 0) ==
              if |t.children| > 0 && FindNode(t.children[0], id).Some? then FindNode(t.children[0], id)
              else if |t.children| > 1 then FindNode(t.children[1], id) else None
  {
    if |t.children| == 2 {
      assert FindNodeFrom(t, id, 2) == None;
      assert FindNodeFrom(t, id, 1) == FindNode(t.children[1], id);
    }
  }

  lemma {:induction false} FindNodeAt(nodes: seq<TreeNode>, i: nat, j: nat)
    requires DistinctPeers(nodes) && i < |nodes| && j < |nodes|
    ensures FindNode(TreeOf(nodes, i), nodes[j].peerId) == if Under(j, i) then Some(TreeOf(nodes, j)) else None
    decreases |nodes| - i
  {
    var t, id := TreeOf(nodes, i), nodes[j].peerId;
    UnderOneChild(j, i);
    ChildrenOf(nodes, i);
    if i != j {
      assert t.peerId != id;
      FindNodeFromChildren(t, id);
      hide TreeOf, FindNodeFrom;
      if 2 * i + 1 < |nodes| { FindNodeAt(nodes, 2 * i + 1, j); } else { UnderBound(j, 2 * i + 1, |nodes|); }
      if 2 * i + 2 < |nodes| { FindNodeAt(nodes, 2 * i + 2, j); } else { UnderBound(j, 2 * i + 2, |nodes|); }
    }
  }

  lemma FindParentFromChildren(t: TreeNode, id: Peer)
    requires |t.children| <= 2
    ensures FindParent(t, id) ==
              if |t.children| > 0 && t.children[0].peerId == id then Some(t)
              else if |t.children| > 0 && FindParent(t.children[0], id).Some? then FindParent(t.children[0], id)
              else if |t.children| > 1 && t.children[1].peerId == id then Some(t)
              else if |t.children| > 1 then FindParent(t.children[1], id) else None
  {
    if |t.children| == 2 {
      assert FindParent(t, id, 2) == None;
    }
  }

  lemma {:induction false} FindParentBelow(nodes: seq<TreeNode>, i: nat, c: nat, j: nat)
    requires DistinctPeers(nodes) && (c == 2 * i + 1 || c == 2 * i + 2) && c < |nodes| && j < |nodes|
    ensures (if TreeOf(nodes, c).peerId == nodes[j].peerId then Some(TreeOf(nodes, i))
             else FindParent(TreeOf(nodes, c), nodes[j].peerId)) ==
              if Under(j, c) then Some(TreeOf(nodes, Parent(j))) else None
    decreases |nodes| - c, 1
  {
    FindParentAt(nodes, c, j);
    ChildrenOf(nodes, c);
    hide TreeOf, FindParent;
    assert nodes[c].peerId == nodes[j].peerId <==> c == j;
  }

  lemma {:induction false} FindParentAt(nodes: seq<TreeNode>, i: nat, j: nat)
    requires DistinctPeers(nodes) && i < |nodes| && j < |nodes|
    ensures FindParent(TreeOf(nodes, i), nodes[j].peerId) ==
              if Under(j, i) && j != i then Some(TreeOf(nodes, Parent(j))) else None
    decreases |nodes| - i, 0
  {
    hide *;
    UnderOneChild(j, i);
    ChildrenOf(nodes, i);
    FindParentFromChildren(TreeOf(nodes, i), nodes[j].peerId);
    if 2 * i + 1 < |nodes| { FindParentBelow(nodes, i, 2 * i + 1, j); } else { UnderBound(j, 2 * i + 1, |nodes|); }
    if 2 * i + 2 < |nodes| { FindParentBelow(nodes, i, 2 * i + 2, j); } else { UnderBound(j, 2 * i + 2, |nodes|); }
  }

  lemma InSomeOfChildren(t: TreeNode, id: Peer)
    requires |t.children| <= 2
    ensures InSomeSubtree(t, id, 0) <==> exists c <- t.children :: InSubtree(c, id)
  {
    if |t.children| == 2 {
      assert InSomeSubtree(t, id, 1) <==> InSubtree(t.children[1], id) || InSomeSubtree(t, id, 2);
      assert t.children[0] in t.children && t.children[1] in t.children;
    } else if |t.children| == 1 {
      assert !InSomeSubtree(t, id, 1);
      assert t.children[0] in t.children;
    }
  }

  lemma {:induction false} InSubtreeAt(nodes: seq<TreeNode>, i: nat, j: nat)
    requires DistinctPeers(nodes) && i < |nodes| && j < |nodes|
    ensures InSubtree(TreeOf(nodes, i), nodes[j].peerId) <==> Under(j, i)
    decreases |nodes| - i
  {
    var t, id := TreeOf(nodes, i), nodes[j].peerId;
    UnderOneChild(j, i);
    ChildrenOf(nodes, i);
    if i != j {
      assert t.peerId != id;
      InSomeOfChildren(t, id);
      hide TreeOf, InSomeSubtree;
      if 2 * i + 1 < |nodes| { InSubtreeAt(nodes, 2 * i + 1, j); } else { UnderBound(j, 2 * i + 1, |nodes|); }
      if 2 * i + 2 < |nodes| { InSubtreeAt(nodes, 2 * i + 2, j); } else { UnderBound(j, 2 * i + 2, |nodes|); }
    }
  }

  // ---- Who is where ----

  /** The positions of a subtree, in the order in which its nodes are collected. */
  ghost function Positions(n: nat, i: nat): seq<nat>
    decreases n - i
  {
    if i >= n then [] else [i] + Positions(n, 2 * i + 1) + Positions(n, 2 * i + 2)
  }

  lemma CountConcat(a: seq<nat>, b: seq<nat>, j: nat)
    ensures multiset(a + b)[j] == multiset(a)[j] + multiset(b)[j]
  {
    assert multiset(a + b) == multiset(a) + multiset(b);
  }

  lemma PositionsCount(n: nat, i: nat, j: nat)
    ensures multiset(Positions(n, i))[j] ==
              if i >= n then 0
              else
                var left, right := Positions(n, 2 * i + 1), Positions(n, 2 * i + 2);
                (if i == j then 1 else 0) + multiset(left)[j] + multiset(right)[j]
  {
    if i < n {
      CountConcat([i] + Positions(n, 2 * i + 1), Positions(n, 2 * i + 2), j);
      CountConcat([i], Positions(n, 2 * i + 1), j);
    }
  }

  lemma UnderSelf(i: nat)
    ensures Under(i, i)
  {
  }

  /** A subtree holds exactly the positions under its root, each once. */
  lemma {:induction false} PositionsOnce(n: nat, i: nat, j: nat)
    ensures multiset(Positions(n, i))[j] == if j < n && Under(j, i) then 1 else 0
    decreases n - i
  {
    hide Positions, Under;
    PositionsCount(n, i, j);
    UnderSelf(i);
    UnderOneChild(j, i);
    if i < n {
      PositionsOnce(n, 2 * i + 1, j);
      PositionsOnce(n, 2 * i + 2, j);
    }
  }

  ghost function PeersAt(nodes: seq<TreeNode>, positions: seq<nat>): seq<Peer>
    requires forall p <- positions :: p < |nodes|
  {
    seq(|positions|, k requires 0 <= k < |positions| => assert positions[k] in positions; nodes[positions[k]].peerId)
  }

  lemma {:induction false} PositionsBound(n: nat, i: nat)
    ensures forall p <- Positions(n, i) :: p < n
    decreases n - i
  {
    if i < n {
      PositionsBound(n, 2 * i + 1);
      PositionsBound(n, 2 * i + 2);
    }
  }

  lemma PositionsEnd(n: nat, i: nat)
    ensures i >= n ==> Positions(n, i) == []
  {
  }

  lemma DescendantsFromChildren(t: TreeNode, sender: Peer)
    requires |t.children| <= 2
    ensures Descendants(t, sender) ==
              (if |t.children| > 0 then Delivered(t.children[0], sender) else []) +
              (if |t.children| > 1 then Delivered(t.children[1], sender) else [])
  {
    if |t.children| == 2 {
      assert Descendants(t, sender, 2) == [];
      assert Descendants(t, sender, 1) == Delivered(t.children[1], sender);
    } else if |t.children| == 1 {
      assert Descendants(t, sender, 1) == [];
    }
  }

  function Delivered(child: TreeNode, sender: Peer): seq<Peer> {
    (if child.peerId != sender then [child.peerId] else []) + Descendants(child, sender)
  }

  lemma PeersAtConcat(nodes: seq<TreeNode>, a: seq<nat>, b: seq<nat>)
    requires (forall p <- a :: p < |nodes|) && forall p <- b :: p < |nodes|
    ensures forall p <- a + b :: p < |nodes|
    ensures PeersAt(nodes, a + b) == PeersAt(nodes, a) + PeersAt(nodes, b)
    ensures PeersAt(nodes, []) == []
  {
  }

  ghost predicate SenderAbove(nodes: seq<TreeNode>, i: nat, sender: Peer) {
    forall j | i <= j < |nodes| :: nodes[j].peerId != sender
  }

  /** What a sender above a subtree delivers in it: every node once. */
  lemma {:induction false} DeliveredAt(nodes: seq<TreeNode>, i: nat, sender: Peer)
    requires i < |nodes| && SenderAbove(nodes, i, sender)
    ensures forall p <- Positions(|nodes|, i) :: p < |nodes|
    ensures Delivered(TreeOf(nodes, i), sender) == PeersAt(nodes, Positions(|nodes|, i))
    decreases |nodes| - i, 1
  {
    PositionsBound(|nodes|, i);
    DescendantsAt(nodes, i, sender);
    ChildrenOf(nodes, i);
    assert PeersAt(nodes, [i]) == [nodes[i].peerId];
    BelowBound(|nodes|, i);
    PeersAtConcat(nodes, [i], Below(|nodes|, i));
    assert Positions(|nodes|, i) == [i] + Below(|nodes|, i);
  }

  /** The positions of the proper descendants. */
  ghost function Below(n: nat, i: nat): seq<nat> {
    Positions(n, 2 * i + 1) + Positions(n, 2 * i + 2)
  }

  lemma BelowBound(n: nat, i: nat)
    ensures forall p <- Below(n, i) :: p < n
  {
    PositionsBound(n, 2 * i + 1);
    PositionsBound(n, 2 * i + 2);
  }

  /** A sender collects its proper descendants. */
  lemma {:induction false} DescendantsAt(nodes: seq<TreeNode>, i: nat, sender: Peer)
    requires i < |nodes| && SenderAbove(nodes, i + 1, sender)
    ensures forall p <- Below(|nodes|, i) :: p < |nodes|
    ensures Descendants(TreeOf(nodes, i), sender) == PeersAt(nodes, Below(|nodes|, i))
    decreases |nodes| - i, 0
  {
    hide TreeOf, Descendants, Delivered, Positions;
    var n, t := |nodes|, TreeOf(nodes, i);
    ChildrenOf(nodes, i);
    DescendantsFromChildren(t, sender);
    PositionsBound(n, 2 * i + 1);
    PositionsBound(n, 2 * i + 2);
    PositionsEnd(n, 2 * i + 1);
    PositionsEnd(n, 2 * i + 2);
    PeersAtConcat(nodes, Positions(n, 2 * i + 1), Positions(n, 2 * i + 2));
    hide PeersAt;
    if 2 * i + 1 < n { DeliveredAt(nodes, 2 * i + 1, sender); }
    if 2 * i + 2 < n { DeliveredAt(nodes, 2 * i + 2, sender); }
  }

  lemma {:induction false} PeersAtOnce(nodes: seq<TreeNode>, positions: seq<nat>, j: nat)
    requires DistinctPeers(nodes) && j < |nodes| && forall p <- positions :: p < |nodes|
    ensures multiset(PeersAt(nodes, positions))[nodes[j].peerId] == multiset(positions)[j]
  {
    if positions == [] {
    } else {
      var front, p := positions[..|positions| - 1], positions[|positions| - 1];
      assert positions == front + [p];
      assert p in positions && forall q <- front :: q in positions;
      PeersAtOnce(nodes, front, j);
      assert PeersAt(nodes, positions) == PeersAt(nodes, front) + [nodes[p].peerId];
    }
  }

  /** The power of two that a tree of this height needs. */
  function Power2(k: nat): nat {
    if k == 0 then 1 else 2 * Power2(k - 1)
  }

  lemma HeightFromChildren(t: TreeNode)
    requires |t.children| <= 2
    ensures |t.children| == 0 ==> Height(t) == 0
    ensures |t.children| == 1 ==> Height(t) == 1 + Height(t.children[0])
    ensures |t.children| == 2 ==> Height(t) == 1 + Height(t.children[0]) || Height(t) == 1 + Height(t.children[1])
  {
    if |t.children| == 2 {
      assert Height(t, 2) == 0;
      assert Height(t, 1) == 1 + Height(t.children[1]);
    }
  }

  lemma PowerStep(i: nat, c: nat, h: nat, n: nat)
    requires c == 2 * i + 1 || c == 2 * i + 2
    requires (c + 1) * Power2(h) <= n
    ensures (i + 1) * Power2(h + 1) <= n
  {
    var p := Power2(h);
    assert (i + 1) * (2 * p) == (2 * i + 2) * p <= (c + 1) * p;
  }

  /** Logarithmic depth: a chain of d links below the root needs at least 2^d nodes. */
  lemma {:induction false} TreeIsShallow(nodes: seq<TreeNode>, i: nat)
    requires i < |nodes|
    ensures (i + 1) * Power2(Height(TreeOf(nodes, i))) <= |nodes|
    decreases |nodes| - i
  {
    var t := TreeOf(nodes, i);
    ChildrenOf(nodes, i);
    HeightFromChildren(t);
    assert Power2(0) == 1;
    hide TreeOf, Height, Power2;
    if 2 * i + 1 < |nodes| {
      TreeIsShallow(nodes, 2 * i + 1);
      PowerStep(i, 2 * i + 1, Height(TreeOf(nodes, 2 * i + 1)), |nodes|);
    }
    if 2 * i + 2 < |nodes| {
      TreeIsShallow(nodes, 2 * i + 2);
      PowerStep(i, 2 * i + 2, Height(TreeOf(nodes, 2 * i + 2)), |nodes|);
    }
  }

  lemma FindNodeElsewhere(t: TreeNode, id: Peer)
    requires t.peerId != id
    ensures FindNode(t, id) == FindNodeFrom(t, id, 0)
  {
  }

  lemma {:induction false} AbsentNotFound(nodes: seq<TreeNode>, i: nat, id: Peer)
    requires i < |nodes| && forall j | 0 <= j < |nodes| :: nodes[j].peerId != id
    ensures FindParent(TreeOf(nodes, i), id) == None && FindNode(TreeOf(nodes, i), id) == None
    decreases |nodes| - i
  {
    hide *;
    var t := TreeOf(nodes, i);
    ChildrenOf(nodes, i);
    FindParentFromChildren(t, id);
    FindNodeFromChildren(t, id);
    FindNodeElsewhere(t, id);
    if 2 * i + 1 < |nodes| {
      AbsentNotFound(nodes, 2 * i + 1, id);
      ChildrenOf(nodes, 2 * i + 1);
    }
    if 2 * i + 2 < |nodes| {
      AbsentNotFound(nodes, 2 * i + 2, id);
      ChildrenOf(nodes, 2 * i + 2);
    }
  }
}
