/**
  What the relay tree guarantees: one place per member, logarithmic depth, inverse parent and child queries, exact
  delivery.
 */
module GroupLaws {
  import opened Wrappers
  import opened RelayTree
  import opened Group

  /** The ranking a tree was built from. */
  ghost function Nodes(tree: TreeNode, members: seq<Peer>, treeRoot: Peer): (nodes: seq<TreeNode>)
    requires Spans(tree, members, treeRoot)
    ensures nodes != [] && DistinctPeers(nodes) && |nodes| == |members| && tree == TreeOf(nodes, 0)
    ensures forall p :: p in members <==> exists n <- nodes :: n.peerId == p
    ensures treeRoot in members ==> nodes[0].peerId == treeRoot
  {
    var nodes: seq<TreeNode> :| nodes != [] && DistinctPeers(nodes) && |nodes| == |members| && tree == TreeOf(nodes, 0)
      && (forall p :: p in members <==> exists n <- nodes :: n.peerId == p)
      && (treeRoot in members ==> nodes[0].peerId == treeRoot);
    nodes
  }

  lemma Position(nodes: seq<TreeNode>, members: seq<Peer>, p: Peer) returns (j: nat)
    requires forall q :: q in members <==> exists n <- nodes :: n.peerId == q
    ensures p in members <==> j < |nodes|
    ensures if j < |nodes| then nodes[j].peerId == p else forall k | 0 <= k < |nodes| :: nodes[k].peerId != p
  {
    if p in members {
      var n :| n in nodes && n.peerId == p;
      j :| 0 <= j < |nodes| && nodes[j] == n;
    } else {
      j := |nodes|;
      assert forall k | 0 <= k < |nodes| :: nodes[k] in nodes;
    }
  }

  lemma PeersAtAbsent(nodes: seq<TreeNode>, positions: seq<nat>, p: Peer)
    requires (forall q <- positions :: q < |nodes|) && forall k | 0 <= k < |nodes| :: nodes[k].peerId != p
    ensures multiset(PeersAt(nodes, positions))[p] == 0
  {
    forall i | 0 <= i < |positions| ensures PeersAt(nodes, positions)[i] != p {
      assert positions[i] in positions;
    }
    assert p !in PeersAt(nodes, positions);
  }

  lemma BelowCount(n: nat, i: nat, j: nat)
    requires j < n
    ensures multiset(Below(n, i))[j] == if j != i && Under(j, i) then 1 else 0
  {
    CountConcat(Positions(n, 2 * i + 1), Positions(n, 2 * i + 2), j);
    hide Positions, Under;
    PositionsOnce(n, 2 * i + 1, j);
    PositionsOnce(n, 2 * i + 2, j);
    UnderOneChild(j, i);
  }

  /** How often each peer is delivered to by a sender at position i. */
  lemma DeliveryCount(nodes: seq<TreeNode>, i: nat, j: nat)
    requires DistinctPeers(nodes) && i < |nodes| && j < |nodes|
    ensures multiset(Descendants(TreeOf(nodes, i), nodes[i].peerId))[nodes[j].peerId] ==
              if j != i && Under(j, i) then 1 else 0
  {
    SelfAbove(nodes, i);
    hide Descendants, TreeOf, Below, PeersAt, Under, SenderAbove;
    DescendantsAt(nodes, i, nodes[i].peerId);
    PeersAtOnce(nodes, Below(|nodes|, i), j);
    BelowCount(|nodes|, i, j);
  }

  /**
    A sender in the group delivers to exactly its proper descendants, each once; a sender at the root to every other
    member.
   */
  lemma SenderReachesDescendants(tree: TreeNode, members: seq<Peer>, treeRoot: Peer, local: Peer, p: Peer)
    requires Spans(tree, members, treeRoot)
    ensures local in members <==> FindNode(tree, local).Some?
    ensures multiset(Routed(tree, local, local))[p] ==
              if local in members && p in members && p != local && InSubtree(FindNode(tree, local).value, p)
              then 1 else 0
    ensures local == tree.peerId ==>
              multiset(Routed(tree, local, local))[p] == if p in members && p != local then 1 else 0
  {
    var nodes := Nodes(tree, members, treeRoot);
    var i := Position(nodes, members, local);
    var j := Position(nodes, members, p);
    hide Spans, DistinctPeers;
    if i < |nodes| {
      AllUnderRoot(i);
      FindNodeAt(nodes, 0, i);
      if j < |nodes| {
        InSubtreeAt(nodes, i, j);
        DeliveryCount(nodes, i, j);
        AllUnderRoot(j);
        PositionUnique(nodes, i, j);
        ChildrenOf(nodes, 0);
        PositionUnique(nodes, 0, i);
      } else {
        DescendantsAt(nodes, i, local) by {
          SelfAbove(nodes, i);
        }
        PeersAtAbsent(nodes, Below(|nodes|, i), p);
      }
    } else {
      AbsentNotFound(nodes, 0, local);
      ChildrenOf(nodes, 0);
    }
  }

  lemma PositionUnique(nodes: seq<TreeNode>, i: nat, j: nat)
    requires DistinctPeers(nodes) && i < |nodes| && j < |nodes|
    ensures nodes[i].peerId == nodes[j].peerId <==> i == j
  {
  }

  lemma SelfAbove(nodes: seq<TreeNode>, i: nat)
    requires DistinctPeers(nodes) && i < |nodes|
    ensures SenderAbove(nodes, i + 1, nodes[i].peerId)
  {
  }

  lemma RosterCount(nodes: seq<TreeNode>, j: nat)
    requires DistinctPeers(nodes) && j < |nodes|
    ensures multiset([nodes[0].peerId] + Descendants(TreeOf(nodes, 0), nodes[0].peerId))[nodes[j].peerId] == 1
  {
    DeliveryCount(nodes, 0, j);
    AllUnderRoot(j);
    PositionUnique(nodes, 0, j);
    hide TreeOf, Descendants, Under, DistinctPeers;
    OneMore(nodes[0].peerId, Descendants(TreeOf(nodes, 0), nodes[0].peerId), nodes[j].peerId);
  }

  lemma OneMore(first: Peer, rest: seq<Peer>, p: Peer)
    ensures multiset([first] + rest)[p] == (if p == first then 1 else 0) + multiset(rest)[p]
  {
    assert multiset([first] + rest) == multiset{first} + multiset(rest);
  }

  lemma StrangerCount(nodes: seq<TreeNode>, p: Peer)
    requires DistinctPeers(nodes) && nodes != [] && forall k | 0 <= k < |nodes| :: nodes[k].peerId != p
    ensures multiset([nodes[0].peerId] + Descendants(TreeOf(nodes, 0), nodes[0].peerId))[p] == 0
  {
    SelfAbove(nodes, 0);
    hide SenderAbove, Below, PeersAt, TreeOf, Descendants;
    DescendantsAt(nodes, 0, nodes[0].peerId);
    PeersAtAbsent(nodes, Below(|nodes|, 0), p);
    OneMore(nodes[0].peerId, Descendants(TreeOf(nodes, 0), nodes[0].peerId), p);
  }

  lemma RosterCounted(nodes: seq<TreeNode>, members: seq<Peer>, p: Peer)
    requires DistinctPeers(nodes) && nodes != [] && forall q :: q in members <==> exists n <- nodes :: n.peerId == q
    ensures multiset([nodes[0].peerId] + Descendants(TreeOf(nodes, 0), nodes[0].peerId))[p] ==
              if p in members then 1 else 0
  {
    hide TreeOf, Descendants, DistinctPeers;
    var j := Position(nodes, members, p);
    if j < |nodes| {
      RosterCount(nodes, j);
    } else {
      StrangerCount(nodes, p);
    }
  }

  lemma RootIsShallow(nodes: seq<TreeNode>)
    requires nodes != []
    ensures Power2(Height(TreeOf(nodes, 0))) <= |nodes|
  {
    TreeIsShallow(nodes, 0);
  }

  /** Each member is in the tree once, the admin is its root if a member, and the depth is logarithmic. */
  lemma TreeHoldsRoster(tree: TreeNode, members: seq<Peer>, treeRoot: Peer, p: Peer)
    requires Spans(tree, members, treeRoot)
    ensures multiset([tree.peerId] + Descendants(tree, tree.peerId))[p] == if p in members then 1 else 0
    ensures treeRoot in members ==> tree.peerId == treeRoot
    ensures Power2(Height(tree)) <= |members|
  {
    var nodes := Nodes(tree, members, treeRoot);
    ChildrenOf(nodes, 0);
    hide *;
    RootIsShallow(nodes);
    RosterCounted(nodes, members, p);
  }

  /** Entries of the last five minutes. */
  function Sent(activity: map<Peer, Activity>, p: Peer, now: int): nat {
    if p in activity then |Recent(activity[p].timestamps, now - 300000)| else 0
  }

  /** By falling activity, ties by id, except for the admin; each node notes what it was ranked by. */
  ghost predicate RankedByActivity(nodes: seq<TreeNode>, treeRoot: Peer, activity: map<Peer, Activity>, now: int) {
    && (forall i | 0 <= i < |nodes| ::
          var p := nodes[i].peerId;
          nodes[i].activityScore == Sent(activity, p, now) && (p in activity ==>
            nodes[i].lastActive == activity[p].lastActive))
    && (forall i, j | 0 <= i < j < |nodes| && nodes[i].peerId != treeRoot ::
          || nodes[i].activityScore > nodes[j].activityScore
          || (nodes[i].activityScore == nodes[j].activityScore && LexLess(nodes[i].peerId, nodes[j].peerId)))
  }

  /** A newly built tree holds the members breadth first by the activity the group has recorded. */
  lemma TreeFollowsActivity(members: seq<Peer>, treeRoot: Peer, activity: map<Peer, Activity>, now: int)
    requires members != [] && Distinct(members)
    ensures exists nodes: seq<TreeNode> ::
              && |nodes| == |members| && multiset(PeersOf(nodes)) == multiset(members)
              && RankedByActivity(nodes, treeRoot, activity, now)
              && Rebuilt(members, treeRoot, activity, now) == TreeOf(nodes, 0)
  {
    var r := Ranking(treeRoot, activity, now - ACTIVITY_WINDOW_MS);
    RankingPutsRootFirst(r, members);
    var nodes := Leaves(r, Ranked(r, members));
    assert PeersOf(nodes) == Ranked(r, members);
    hide TreeOf, Ranked, Recent, LexLess;
    assert RankedByActivity(nodes, treeRoot, activity, now);
  }

  function PeersOf(nodes: seq<TreeNode>): seq<Peer> {
    seq(|nodes|, i requires 0 <= i < |nodes| => nodes[i].peerId)
  }

  lemma ChildIdsAt(nodes: seq<TreeNode>, i: nat, j: nat)
    requires DistinctPeers(nodes) && i < |nodes| && j < |nodes|
    ensures nodes[j].peerId in ChildIds(TreeOf(nodes, i)) <==> j > 0 && Parent(j) == i
  {
    ChildrenOf(nodes, i);
    hide TreeOf, DistinctPeers;
    var ids := ChildIds(TreeOf(nodes, i));
    if 2 * i + 1 < |nodes| {
      ChildrenOf(nodes, 2 * i + 1);
      PositionUnique(nodes, 2 * i + 1, j);
      assert ids[0] == nodes[2 * i + 1].peerId;
    }
    if 2 * i + 2 < |nodes| {
      ChildrenOf(nodes, 2 * i + 2);
      PositionUnique(nodes, 2 * i + 2, j);
      assert ids[1] == nodes[2 * i + 2].peerId;
    }
  }

  /** The member ranked j has the member ranked (j - 1) / 2 as its relay target, and the first has none. */
  lemma TargetIsParent(nodes: seq<TreeNode>, j: nat)
    requires DistinctPeers(nodes) && j < |nodes|
    ensures Target(TreeOf(nodes, 0), nodes[j].peerId) == if j == 0 then None else Some(nodes[(j - 1) / 2].peerId)
  {
    AllUnderRoot(j);
    FindParentAt(nodes, 0, j);
  }

  /** `getRelayTarget` and `getRelayChildren` are inverse. */
  lemma TargetAndChildrenInverse(tree: TreeNode, members: seq<Peer>, treeRoot: Peer, parent: Peer, child: Peer)
    requires Spans(tree, members, treeRoot)
    ensures child in Children(tree, parent) <==> Target(tree, child) == Some(parent)
  {
    var nodes := Nodes(tree, members, treeRoot);
    var i := Position(nodes, members, parent);
    var j := Position(nodes, members, child);
    hide Spans;
    if j < |nodes| {
      TargetIsParent(nodes, j);
    } else {
      AbsentNotFound(nodes, 0, child);
    }
    if i < |nodes| {
      AllUnderRoot(i);
      FindNodeAt(nodes, 0, i);
      if j < |nodes| {
        ChildIdsAt(nodes, i, j);
        if j > 0 {
          PositionUnique(nodes, Parent(j), i);
        }
      } else {
        ChildrenAreNodes(nodes, i, child);
      }
    } else {
      AbsentNotFound(nodes, 0, parent);
    }
  }

  lemma ChildrenAreNodes(nodes: seq<TreeNode>, i: nat, p: Peer)
    requires i < |nodes| && forall k | 0 <= k < |nodes| :: nodes[k].peerId != p
    ensures p !in ChildIds(TreeOf(nodes, i))
  {
    ChildrenOf(nodes, i);
    if 2 * i + 1 < |nodes| {
      ChildrenOf(nodes, 2 * i + 1);
    }
    if 2 * i + 2 < |nodes| {
      ChildrenOf(nodes, 2 * i + 2);
    }
  }

  lemma {:induction false} ForwardedElements(node: TreeNode, sender: Peer, k: nat, p: Peer)
    requires k <= |node.children|
    ensures p in Forwarded(node, sender, k) <==>
              p != sender &&
              exists c :: 0 <= c < k && node.children[c].peerId == p && !InSubtree(node.children[c], sender)
  {
    if k == 0 {
    } else {
      ForwardedElements(node, sender, k - 1, p);
    }
  }

  lemma ChildIsNode(nodes: seq<TreeNode>, i: nat, c: nat, j: nat)
    requires DistinctPeers(nodes) && i < |nodes| && j < |nodes| && c < |TreeOf(nodes, i).children|
    ensures 2 * i + 1 + c < |nodes| && TreeOf(nodes, i).children[c] == TreeOf(nodes, 2 * i + 1 + c)
    ensures TreeOf(nodes, i).children[c].peerId == nodes[j].peerId <==> 2 * i + 1 + c == j
    ensures 2 * i + 1 + c == j ==> Parent(j) == i
  {
    hide TreeOf, DistinctPeers;
    ChildrenOf(nodes, i);
    ChildrenOf(nodes, 2 * i + 1 + c);
    PositionUnique(nodes, 2 * i + 1 + c, j);
  }

  lemma ForwardedAt(nodes: seq<TreeNode>, i: nat, j: nat, sender: Peer)
    requires DistinctPeers(nodes) && i < |nodes| && j < |nodes|
    ensures var node := TreeOf(nodes, i);
            nodes[j].peerId in Forwarded(node, sender, |node.children|) <==>
              nodes[j].peerId != sender && j > 0 && Parent(j) == i && !InSubtree(TreeOf(nodes, j), sender)
  {
    hide TreeOf, InSubtree, Forwarded, DistinctPeers;
    var p, node := nodes[j].peerId, TreeOf(nodes, i);
    ChildrenOf(nodes, i);
    ForwardedElements(node, sender, |node.children|, p);
    if p in Forwarded(node, sender, |node.children|) {
      var c :| 0 <= c < |node.children| && node.children[c].peerId == p && !InSubtree(node.children[c], sender);
      ChildIsNode(nodes, i, c, j);
    }
    if j > 0 && Parent(j) == i {
      ChildIsNode(nodes, i, j - 1 - 2 * i, j);
    }
  }

  /**
    A relay forwards to each child that is neither the sender nor above it, and to its parent unless that is the sender.
    The source's comment says the parent only gets messages that came from a child; the code does not look.
   */
  lemma RelayTargets(nodes: seq<TreeNode>, i: nat, j: nat, sender: Peer)
    requires DistinctPeers(nodes) && i < |nodes| && j < |nodes| && sender != nodes[i].peerId
    ensures nodes[j].peerId in Routed(TreeOf(nodes, 0), nodes[i].peerId, sender) <==>
              nodes[j].peerId != sender &&
              ((j > 0 && Parent(j) == i && !InSubtree(TreeOf(nodes, j), sender)) || (i > 0 && j == Parent(i)))
  {
    AllUnderRoot(i);
    FindNodeAt(nodes, 0, i);
    FindParentAt(nodes, 0, i);
    ForwardedAt(nodes, i, j, sender);
    if i > 0 {
      PositionUnique(nodes, Parent(i), j);
      ChildrenOf(nodes, Parent(i));
    }
    hide TreeOf, InSubtree, Forwarded, FindNode, FindParent, Under, DistinctPeers;
  }

  /**
    So a relayed message goes back up towards its sender exactly when it came from above but not from the parent itself.
   */
  lemma RelayEchoesUpward(nodes: seq<TreeNode>, i: nat, s: nat)
    requires DistinctPeers(nodes) && 0 < i < |nodes| && s < |nodes| && !Under(s, i)
    ensures nodes[Parent(i)].peerId in Routed(TreeOf(nodes, 0), nodes[i].peerId, nodes[s].peerId) <==> s != Parent(i)
  {
    assert s != i;
    PositionUnique(nodes, s, i);
    PositionUnique(nodes, s, Parent(i));
    RelayTargets(nodes, i, Parent(i), nodes[s].peerId);
  }
}
