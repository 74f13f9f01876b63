/**
  A group's roster, its cached relay tree, and message routing over it: `GroupManager` in `src/group/index.ts`, for one
  group.
 */
module Group {
  import opened Wrappers
  import opened RelayTree

  const ACTIVITY_WINDOW_MS := 300000
  const TREE_REBUILD_INTERVAL_MS := 60000
  const MAX_CHILDREN := 2

  datatype Activity = Activity(timestamps: seq<int>, lastActive: int)

  datatype Error = NoMembers

  // ---- Ranking ----

  /** What the comparator of the sort looks at. */
  datatype Ranking = Ranking(treeRoot: Peer, activity: map<Peer, Activity>, cutoff: int)

  function Recent(timestamps: seq<int>, cutoff: int): seq<int> {
    if timestamps == [] then [] else
    var rest, t := Recent(timestamps[..|timestamps| - 1], cutoff), timestamps[|timestamps| - 1];
    if t >= cutoff then rest + [t] else rest
  }

  /** The score counts exactly the entries within the window. */
  lemma {:induction false} RecentKeepsWindow(timestamps: seq<int>, cutoff: int, t: int)
    ensures multiset(Recent(timestamps, cutoff))[t] == if t >= cutoff then multiset(timestamps)[t] else 0
  {
    if timestamps == [] {
    } else {
      var front, last := timestamps[..|timestamps| - 1], timestamps[|timestamps| - 1];
      RecentKeepsWindow(front, cutoff, t);
      assert timestamps == front + [last];
    }
  }

  /** A member sent something: its entries within the window and the new one remain. */
  function Used(a: Activity, now: int): Activity {
    Activity(Recent(a.timestamps + [now], now - ACTIVITY_WINDOW_MS), now)
  }

  /** Of the entries so far those within the window stay, and the new one is among them. */
  lemma UsedKeepsRecent(a: Activity, now: int, t: int)
    ensures var kept, all := multiset(Used(a, now).timestamps), multiset(a.timestamps);
            kept[t] == if t < now - 300000 then 0 else if t == now then all[t] + 1 else all[t]
    ensures Used(a, now).lastActive == now
  {
    RecentKeepsWindow(a.timestamps + [now], now - ACTIVITY_WINDOW_MS, t);
  }

  function Score(r: Ranking, p: Peer): nat {
    if p in r.activity then |Recent(r.activity[p].timestamps, r.cutoff)| else 0
  }

  /** `localeCompare` on the hexadecimal ids. */
  predicate LexLess(a: Peer, b: Peer) {
    b != [] && (a == [] || a[0] < b[0] || (a[0] == b[0] && LexLess(a[1..], b[1..])))
  }

  /** The comparator is negative: the tree root first, then by activity, then by id. */
  predicate Precedes(r: Ranking, a: Peer, b: Peer) {
    if a == r.treeRoot && b != r.treeRoot then true
    else if b == r.treeRoot && a != r.treeRoot then false
    else if Score(r, a) != Score(r, b) then Score(r, a) > Score(r, b)
    else LexLess(a, b)
  }

  function InsertRanked(r: Ranking, sorted: seq<Peer>, p: Peer): seq<Peer> {
    if sorted == [] || Precedes(r, sorted[|sorted| - 1], p) then sorted + [p]
    else InsertRanked(r, sorted[..|sorted| - 1], p) + [sorted[|sorted| - 1]]
  }

  /** The sorted member ids. */
  function Ranked(r: Ranking, members: seq<Peer>): seq<Peer> {
    if members == [] then [] else
    InsertRanked(r, Ranked(r, members[..|members| - 1]), members[|members| - 1])
  }

  function Leaf(r: Ranking, p: Peer): TreeNode {
    TreeNode(p, [], Score(r, p), if p in r.activity then r.activity[p].lastActive else 0)
  }

  function Leaves(r: Ranking, peers: seq<Peer>): seq<TreeNode> {
    seq(|peers|, i requires 0 <= i < |peers| => Leaf(r, peers[i]))
  }

  ghost predicate Distinct(peers: seq<Peer>) {
    forall i, j | 0 <= i < j < |peers| :: peers[i] != peers[j]
  }

  lemma {:induction false} LexLessTrans(a: Peer, b: Peer, c: Peer)
    requires LexLess(a, b) && LexLess(b, c)
    ensures LexLess(a, c)
  {
    if a != [] && a[0] == b[0] == c[0] {
      LexLessTrans(a[1..], b[1..], c[1..]);
    }
  }

  lemma {:induction false} LexLessTotal(a: Peer, b: Peer)
    ensures a == b || LexLess(a, b) || LexLess(b, a)
    ensures !(LexLess(a, b) && LexLess(b, a))
  {
    if a != [] && b != [] {
      LexLessTotal(a[1..], b[1..]);
      assert a[0] == b[0] && a[1..] == b[1..] ==> a == [b[0]] + b[1..] == b;
    }
  }

  lemma PrecedesTrans(r: Ranking, a: Peer, b: Peer, c: Peer)
    requires Precedes(r, a, b) && Precedes(r, b, c)
    ensures Precedes(r, a, c)
  {
    LexLessTotal(a, b);
    if LexLess(a, b) && LexLess(b, c) {
      LexLessTrans(a, b, c);
    }
  }

  ghost predicate SortedBy(r: Ranking, peers: seq<Peer>) {
    forall i, j | 0 <= i < j < |peers| :: Precedes(r, peers[i], peers[j])
  }

  lemma {:induction false} InsertRankedElements(r: Ranking, sorted: seq<Peer>, p: Peer)
    ensures multiset(InsertRanked(r, sorted, p)) == multiset(sorted) + multiset{p}
  {
    if sorted != [] && !Precedes(r, sorted[|sorted| - 1], p) {
      var front := sorted[..|sorted| - 1];
      InsertRankedElements(r, front, p);
      assert sorted == front + [sorted[|sorted| - 1]];
    }
  }

  lemma {:induction false} InsertRankedSorts(r: Ranking, sorted: seq<Peer>, p: Peer)
    requires SortedBy(r, sorted) && p !in sorted
    ensures SortedBy(r, InsertRanked(r, sorted, p))
  {
    if sorted == [] {
    } else if Precedes(r, sorted[|sorted| - 1], p) {
      var last := sorted[|sorted| - 1];
      forall i | 0 <= i < |sorted| ensures Precedes(r, sorted[i], p) {
        if i < |sorted| - 1 {
          PrecedesTrans(r, sorted[i], last, p);
        }
      }
    } else {
      var front, last := sorted[..|sorted| - 1], sorted[|sorted| - 1];
      assert last in sorted;
      LexLessTotal(last, p);
      InsertRankedSorts(r, front, p);
      InsertRankedElements(r, front, p);
      forall i | 0 <= i < |front| + 1 ensures Precedes(r, InsertRanked(r, front, p)[i], last) {
        var x := InsertRanked(r, front, p)[i];
        assert x in multiset(InsertRanked(r, front, p));
        assert x == p || x in front;
      }
    }
  }

  lemma {:induction false} RankedSorts(r: Ranking, members: seq<Peer>)
    requires Distinct(members)
    ensures SortedBy(r, Ranked(r, members)) && multiset(Ranked(r, members)) == multiset(members)
    ensures |Ranked(r, members)| == |members|
  {
    if members != [] {
      var front, last := members[..|members| - 1], members[|members| - 1];
      RankedSorts(r, front);
      assert members == front + [last];
      assert last !in Ranked(r, front) by {
        assert last in Ranked(r, front) ==> last in multiset(Ranked(r, front));
      }
      InsertRankedElements(r, Ranked(r, front), last);
      InsertRankedSorts(r, Ranked(r, front), last);
    }
    assert |multiset(Ranked(r, members))| == |multiset(members)|;
  }

  /** The ranking lists every member once, the tree root first if it is one, and the others by falling activity. */
  lemma RankingPutsRootFirst(r: Ranking, members: seq<Peer>)
    requires Distinct(members) && members != []
    ensures var ranked := Ranked(r, members);
            && |ranked| == |members|
            && multiset(ranked) == multiset(members)
            && Distinct(ranked)
            && (r.treeRoot in members ==> ranked[0] == r.treeRoot)
            && (forall i, j | 0 <= i < j < |ranked| && ranked[i] != r.treeRoot ::
                  Score(r, ranked[i]) == Score(r, ranked[j]) ==> LexLess(ranked[i], ranked[j]))
            && (forall i, j | 0 <= i < j < |ranked| && ranked[i] != r.treeRoot ::
                  Score(r, ranked[i]) >= Score(r, ranked[j]))
  {
    var ranked := Ranked(r, members);
    RankedSorts(r, members);
    if r.treeRoot in members {
      assert r.treeRoot in multiset(ranked);
      var k :| 0 <= k < |ranked| && ranked[k] == r.treeRoot;
    }
    forall i, j | 0 <= i < j < |ranked| ensures ranked[i] != ranked[j] {
      assert Precedes(r, ranked[i], ranked[j]);
      LexLessTotal(ranked[i], ranked[j]);
    }
  }

  lemma SameLast(r: Ranking, a: seq<Peer>, b: seq<Peer>)
    requires SortedBy(r, a) && SortedBy(r, b) && multiset(a) == multiset(b) && a != [] && b != []
    ensures a[|a| - 1] == b[|b| - 1]
  {
    var la, lb := a[|a| - 1], b[|b| - 1];
    assert la in multiset(b) && lb in multiset(a);
    var i :| 0 <= i < |b| && b[i] == la;
    var j :| 0 <= j < |a| && a[j] == lb;
    LexLessTotal(la, lb);
  }

  lemma WithoutLast(a: seq<Peer>)
    requires a != []
    ensures multiset(a[..|a| - 1]) == multiset(a) - multiset{a[|a| - 1]} && a == a[..|a| - 1] + [a[|a| - 1]]
  {
    assert a == a[..|a| - 1] + [a[|a| - 1]];
  }

  lemma SortedFront(r: Ranking, a: seq<Peer>)
    requires SortedBy(r, a) && a != []
    ensures SortedBy(r, a[..|a| - 1])
  {
  }

  lemma {:induction false} SortedIsUnique(r: Ranking, a: seq<Peer>, b: seq<Peer>)
    requires SortedBy(r, a) && SortedBy(r, b) && multiset(a) == multiset(b)
    ensures a == b
  {
    hide *;
    assert |multiset(a)| == |a| && |multiset(b)| == |b|;
    if a == [] {
    } else {
      SameLast(r, a, b);
      WithoutLast(a);
      WithoutLast(b);
      SortedFront(r, a);
      SortedFront(r, b);
      SortedIsUnique(r, a[..|a| - 1], b[..|b| - 1]);
    }
  }

  /** The ranking, and so the tree, does not depend on the order in which members joined. */
  lemma RankingIgnoresJoinOrder(r: Ranking, a: seq<Peer>, b: seq<Peer>)
    requires Distinct(a) && Distinct(b) && multiset(a) == multiset(b)
    ensures Ranked(r, a) == Ranked(r, b)
  {
    RankedSorts(r, a);
    RankedSorts(r, b);
    SortedIsUnique(r, Ranked(r, a), Ranked(r, b));
  }

  // ---- Queries on a tree ----

  /** `getRelayTarget`: the parent's id. */
  function Target(tree: TreeNode, id: Peer): Option<Peer> {
    var parent := FindParent(tree, id);
    if parent.Some? then Some(parent.value.peerId) else None
  }

  function ChildIds(node: TreeNode): seq<Peer> {
    seq(|node.children|, i requires 0 <= i < |node.children| => node.children[i].peerId)
  }

  /** `getRelayChildren`, for any local peer. */
  function Children(tree: TreeNode, local: Peer): seq<Peer> {
    var node := FindNode(tree, local);
    if node.Some? then ChildIds(node.value) else []
  }

  /** The first `k` children a relay forwards to: never the sender or towards it. */
  function Forwarded(node: TreeNode, sender: Peer, k: nat): seq<Peer>
    requires k <= |node.children|
  {
    if k == 0 then [] else
    var child := node.children[k - 1];
    Forwarded(node, sender, k - 1) +
    (if child.peerId != sender && !InSubtree(child, sender) then [child.peerId] else [])
  }

  /** `routeGroupMessage`; every target gets the same ciphertext. */
  function Routed(tree: TreeNode, local: Peer, sender: Peer): seq<Peer> {
    var node := FindNode(tree, local);
    if node.None? then []
    else if sender == local then Descendants(node.value, sender)
    else
      var parent := FindParent(tree, local);
      Forwarded(node.value, sender, |node.value.children|) +
      (if parent.Some? && parent.value.peerId != sender then [parent.value.peerId] else [])
  }

  method ForwardToChildren(node: TreeNode, sender: Peer) returns (targets: seq<Peer>)
    ensures targets == Forwarded(node, sender, |node.children|)
  {
    targets := [];
    var k := 0;
    while k < |node.children|
      invariant 0 <= k <= |node.children|
      invariant targets == Forwarded(node, sender, k)
    {
      if node.children[k].peerId != sender && !InSubtree(node.children[k], sender) {
        targets := targets + [node.children[k].peerId];
      }
      k := k + 1;
    }
  }

  // ---- Building ----

  /** The children lists once nodes 1 to m - 1 are inserted. */
  ghost predicate Inserted(children: seq<seq<nat>>, m: nat) {
    forall p | 0 <= p < |children| :: children[p] == ChildIndices(m, p)
  }

  /** The tree that linked nodes form; links go to later positions. */
  function Linked(nodes: seq<TreeNode>, children: seq<seq<nat>>, i: nat): TreeNode
    requires i < |nodes| == |children|
    requires forall p, c | 0 <= p < |children| && 0 <= c < |children[p]| :: p < children[p][c] < |nodes|
    decreases |nodes| - i
  {
    var below := children[i];
    nodes[i].(children := seq(|below|, c requires 0 <= c < |below| => Linked(nodes, children, below[c])))
  }

  lemma {:induction false} LinkedShape(nodes: seq<TreeNode>, children: seq<seq<nat>>, i: nat)
    requires i < |nodes| == |children|
    requires Inserted(children, |nodes|)
    ensures Linked(nodes, children, i) == TreeOf(nodes, i)
    decreases |nodes| - i
  {
    assert children[i] == ChildIndices(|nodes|, i);
    ChildrenOf(nodes, i);
    if 2 * i + 1 < |nodes| {
      LinkedShape(nodes, children, 2 * i + 1);
    }
    if 2 * i + 2 < |nodes| {
      LinkedShape(nodes, children, 2 * i + 2);
    }
    assert Linked(nodes, children, i).children == TreeOf(nodes, i).children;
  }

  lemma ChildIndicesGrow(i: nat)
    requires i > 0
    ensures forall p: nat :: ChildIndices(i + 1, p) == ChildIndices(i, p) + (if p == Parent(i) then [i] else [])
  {
  }

  /**
    Breadth-first insertion: each node goes below the first queued one that has room. Nodes are named by their rank.
   */
  method InsertAll(nodes: seq<TreeNode>) returns (root: TreeNode)
    requires nodes != []
    ensures root == TreeOf(nodes, 0)
  {
    var children: seq<seq<nat>> := seq(|nodes|, _ => []);
    var queue: seq<nat> := [0];
    var queueIdx := 0;
    var i := 1;
    while i < |nodes|
      invariant 1 <= i <= |nodes| == |children|
      invariant queue == seq(i, k => k)
      invariant Inserted(children, i)
      invariant 0 <= 2 * queueIdx < i
    {
      while queueIdx < |queue| && |children[queue[queueIdx]]| >= MAX_CHILDREN
        invariant 0 <= 2 * queueIdx < i
      {
        queueIdx := queueIdx + 1;
      }
      if queueIdx < |queue| {
        assert children[queueIdx] == ChildIndices(i, queueIdx);
        assert queueIdx == Parent(i);
        ChildIndicesGrow(i);
        children := children[queue[queueIdx] := children[queue[queueIdx]] + [i]];
        queue := queue + [i];
      }
      i := i + 1;
    }
    LinkedShape(nodes, children, 0);
    root := Linked(nodes, children, 0);
  }

  // ---- The group ----

  ghost predicate Spans(tree: TreeNode, members: seq<Peer>, treeRoot: Peer) {
    exists nodes: seq<TreeNode> ::
      && nodes != [] && DistinctPeers(nodes)
      && |nodes| == |members| && (forall p :: p in members <==> exists n <- nodes :: n.peerId == p)
      && (treeRoot in members ==> nodes[0].peerId == treeRoot)
      && tree == TreeOf(nodes, 0)
  }

  function Rebuilt(members: seq<Peer>, treeRoot: Peer, activity: map<Peer, Activity>, now: int): TreeNode
    requires members != [] && Distinct(members)
  {
    var r := Ranking(treeRoot, activity, now - ACTIVITY_WINDOW_MS);
    RankingPutsRootFirst(r, members);
    TreeOf(Leaves(r, Ranked(r, members)), 0)
  }

  lemma RebuiltSpans(members: seq<Peer>, treeRoot: Peer, activity: map<Peer, Activity>, now: int)
    requires members != [] && Distinct(members)
    ensures Spans(Rebuilt(members, treeRoot, activity, now), members, treeRoot)
  {
    var r := Ranking(treeRoot, activity, now - ACTIVITY_WINDOW_MS);
    RankingPutsRootFirst(r, members);
    var ranked := Ranked(r, members);
    var nodes := Leaves(r, ranked);
    forall p ensures p in members <==> exists n <- nodes :: n.peerId == p {
      assert p in members <==> p in multiset(ranked) by {
        assert p in members <==> p in multiset(members);
      }
      if p in ranked {
        var k :| 0 <= k < |ranked| && ranked[k] == p;
        assert nodes[k].peerId == p && nodes[k] in nodes;
      }
    }
  }

  predicate Fresh(relayTree: Option<TreeNode>, lastTreeBuild: int, now: int) {
    relayTree.Some? && now - lastTreeBuild < TREE_REBUILD_INTERVAL_MS
  }

  class GroupState {
    const localPeerId: Peer
    var members: seq<Peer>                  // in joining order
    var activity: map<Peer, Activity>
    var treeRoot: Peer                      // the admin, or ""
    var relayTree: Option<TreeNode>
    var lastTreeBuild: int

    /** A cached tree always spans the current roster. */
    ghost predicate Valid()
      reads this
    {
      && Distinct(members)
      && (relayTree.Some? ==> Spans(relayTree.value, members, treeRoot))
    }

    constructor (local: Peer, roster: seq<Peer>, admin: Peer, now: int)
      requires Distinct(roster)
      ensures Valid() && localPeerId == local && members == roster && treeRoot == admin && relayTree == None
    {
      localPeerId, members, treeRoot := local, roster, admin;
      activity := map p | p in roster :: Activity([], now);
      relayTree, lastTreeBuild := None, 0;
    }

    method AddMember(p: Peer, now: int)
      requires Valid()
      modifies this`members, this`activity, this`relayTree
      ensures Valid()
      ensures members == if p in old(members) then old(members) else old(members) + [p]
      ensures p in old(members) ==> relayTree == old(relayTree) && activity == old(activity)
      ensures p !in old(members) ==> relayTree == None && activity == old(activity)[p := Activity([], now)]
    {
      if p in members {
        return;
      }
      members := members + [p];
      activity := activity[p := Activity([], now)];
      relayTree := None;
    }

    method RemoveMember(p: Peer)
      requires Valid()
      modifies this`members, this`activity, this`relayTree
      ensures Valid()
      ensures members == WithoutPeer(old(members), p)
      ensures p !in old(members) ==> relayTree == old(relayTree) && activity == old(activity)
      ensures p in old(members) ==> relayTree == None && activity == old(activity) - {p}
    {
      WithoutPeerElements(members, p);
      WithoutPeerDistinct(members, p);
      if p !in members {
        return;
      }
      members := WithoutPeer(members, p);
      activity := activity - {p};
      relayTree := None;
    }

    method SetAdmin(p: Peer)
      requires Valid()
      modifies this`treeRoot, this`relayTree
      ensures Valid()
      ensures if p == "" || p in members then treeRoot == p && relayTree == None
              else treeRoot == old(treeRoot) && relayTree == old(relayTree)
    {
      if p != "" && p !in members {
        return;
      }
      treeRoot := p;
      relayTree := None;
    }

    method UpdateActivity(p: Peer, now: int)
      requires Valid()
      modifies this`activity
      ensures Valid()
      ensures activity == if p in old(activity) then old(activity)[p := Used(old(activity)[p], now)] else old(activity)
    {
      if p in activity {
        activity := activity[p := Used(activity[p], now)];
      }
    }

    /** A cached tree younger than the interval is returned as it is; otherwise the tree is built from the roster. */
    method BuildRelayTree(now: int) returns (r: Result<TreeNode, Error>)
      requires Valid()
      modifies this`relayTree, this`lastTreeBuild
      ensures Valid()
      ensures Fresh(old(relayTree), old(lastTreeBuild), now) ==>
                r == Success(old(relayTree).value) && relayTree == old(relayTree) && lastTreeBuild == old(lastTreeBuild)
      ensures !Fresh(old(relayTree), old(lastTreeBuild), now) && members == [] ==>
                r == Failure(NoMembers) && relayTree == old(relayTree) && lastTreeBuild == old(lastTreeBuild)
      ensures !Fresh(old(relayTree), old(lastTreeBuild), now) && members != [] ==>
                r == Success(Rebuilt(members, treeRoot, activity, now)) && relayTree == Some(r.value) &&
                  lastTreeBuild == now
      ensures r.Success? ==> Spans(r.value, members, treeRoot)
      ensures r.Success? ==> relayTree == Some(r.value) && now - lastTreeBuild < 60000
    {
      if relayTree.Some? && now - lastTreeBuild < TREE_REBUILD_INTERVAL_MS {
        return Success(relayTree.value);
      }
      if members == [] {
        return Failure(NoMembers);
      }
      RebuiltSpans(members, treeRoot, activity, now);
      var rank := Ranking(treeRoot, activity, now - ACTIVITY_WINDOW_MS);
      RankingPutsRootFirst(rank, members);
      var root := InsertAll(Leaves(rank, Ranked(rank, members)));
      relayTree, lastTreeBuild := Some(root), now;
      return Success(root);
    }

    method GetRelayTarget(target: Peer, now: int) returns (r: Result<Option<Peer>, Error>)
      requires Valid()
      modifies this`relayTree, this`lastTreeBuild
      ensures Valid()
      ensures r.Failure? <==> members == []
      ensures r.Success? ==> relayTree.Some? && r.value == Target(relayTree.value, target)
    {
      var tree := BuildRelayTree(now);
      if tree.Failure? {
        return Failure(tree.error);
      }
      var found := ParentByBreadth(tree.value, target, members, treeRoot);
      r := Success(found);
    }

    method GetRelayChildren(now: int) returns (r: Result<seq<Peer>, Error>)
      requires Valid()
      modifies this`relayTree, this`lastTreeBuild
      ensures Valid()
      ensures r.Failure? <==> members == []
      ensures r.Success? ==> relayTree.Some? && r.value == Children(relayTree.value, localPeerId)
    {
      var tree := BuildRelayTree(now);
      if tree.Failure? {
        return Failure(tree.error);
      }
      r := Success(Children(tree.value, localPeerId));
    }

    method RouteGroupMessage(sender: Peer, now: int) returns (r: Result<seq<Peer>, Error>)
      requires Valid()
      modifies this`relayTree, this`lastTreeBuild
      ensures Valid()
      ensures r.Failure? <==> members == []
      ensures r.Success? ==> relayTree.Some? && r.value == Routed(relayTree.value, localPeerId, sender)
    {
      var tree := BuildRelayTree(now);
      if tree.Failure? {
        return Failure(tree.error);
      }
      hide FindNode, FindParent, Forwarded, Descendants, Spans;
      var localNode := FindNode(tree.value, localPeerId);
      if localNode.None? {
        return Success([]);
      }
      var targets: seq<Peer> := [];
      if sender == localPeerId {
        targets := Descendants(localNode.value, sender);
      } else {
        targets := ForwardToChildren(localNode.value, sender);
        var parent := FindParent(tree.value, localPeerId);
        if parent.Some? && parent.value.peerId != sender {
          targets := targets + [parent.value.peerId];
        }
      }
      r := Success(targets);
    }
  }

  function WithoutPeer(peers: seq<Peer>, p: Peer): seq<Peer> {
    if peers == [] then [] else
    var rest, last := WithoutPeer(peers[..|peers| - 1], p), peers[|peers| - 1];
    if last == p then rest else rest + [last]
  }

  lemma {:induction false} WithoutPeerElements(peers: seq<Peer>, p: Peer)
    ensures forall q :: q in WithoutPeer(peers, p) <==> q in peers && q != p
    ensures p !in peers ==> WithoutPeer(peers, p) == peers
  {
    if peers == [] {
    } else {
      WithoutPeerElements(peers[..|peers| - 1], p);
      assert peers == peers[..|peers| - 1] + [peers[|peers| - 1]];
    }
  }

  lemma {:induction false} WithoutPeerDistinct(peers: seq<Peer>, p: Peer)
    requires Distinct(peers)
    ensures Distinct(WithoutPeer(peers, p))
  {
    if peers == [] {
    } else {
      var front, last := peers[..|peers| - 1], peers[|peers| - 1];
      WithoutPeerDistinct(front, p);
      WithoutPeerElements(front, p);
      var rest := WithoutPeer(front, p);
      forall i | 0 <= i < |rest| ensures rest[i] != last {
        assert rest[i] in rest;
        var k :| 0 <= k < |front| && front[k] == rest[i];
        assert peers[k] != peers[|front|];
      }
    }
  }

  /** How many of n nodes a breadth-first walk has queued when it has visited h of them. */
  function Queued(h: nat, n: nat): nat {
    if h == 0 then 1 else if 2 * h + 1 < n then 2 * h + 1 else n
  }

  ghost function Visit(nodes: seq<TreeNode>, k: nat): (TreeNode, Option<TreeNode>)
    requires k < |nodes|
  {
    (TreeOf(nodes, k), if k == 0 then None else Some(TreeOf(nodes, Parent(k))))
  }

  /** The queue of the walk: positions from h on, each with its parent. */
  ghost function Queue(nodes: seq<TreeNode>, h: nat): seq<(TreeNode, Option<TreeNode>)>
    requires nodes != [] && h <= |nodes|
  {
    seq(Queued(h, |nodes|) - h, k requires 0 <= k < Queued(h, |nodes|) - h => Visit(nodes, h + k))
  }

  function WithParent(node: TreeNode, m: nat): seq<(TreeNode, Option<TreeNode>)>
    requires m <= |node.children|
  {
    seq(m, c requires 0 <= c < m => (node.children[c], Some(node)))
  }

  lemma QueueHead(nodes: seq<TreeNode>, h: nat)
    requires nodes != [] && h <= |nodes|
    ensures Queue(nodes, h) == [] <==> h == |nodes|
    ensures h < |nodes| ==>
              Queue(nodes, h)[0] == (TreeOf(nodes, h), if h == 0 then None else Some(TreeOf(nodes, Parent(h))))
  {
    hide TreeOf;
    if h < |nodes| {
      assert Queue(nodes, h)[0] == Visit(nodes, h);
    }
  }

  /** Visiting a node takes it off the queue and appends its children. */
  lemma QueueStep(nodes: seq<TreeNode>, h: nat)
    requires h < |nodes|
    ensures var node := TreeOf(nodes, h);
            Queue(nodes, h) != [] && Queue(nodes, h)[1..] + WithParent(node, |node.children|) == Queue(nodes, h + 1)
  {
    var node := TreeOf(nodes, h);
    ChildrenOf(nodes, h);
    hide TreeOf;
    var after, next := Queue(nodes, h)[1..] + WithParent(node, |node.children|), Queue(nodes, h + 1);
    assert |after| == |next|;
    forall k | 0 <= k < |next| ensures after[k] == next[k] {
      if k < |Queue(nodes, h)| - 1 {
        assert after[k] == Visit(nodes, h + 1 + k);
      }
    }
  }

  method PushChildren(queue: seq<(TreeNode, Option<TreeNode>)>, node: TreeNode)
    returns (longer: seq<(TreeNode, Option<TreeNode>)>)
    ensures longer == queue + WithParent(node, |node.children|)
  {
    longer := queue;
    var i := 0;
    while i < |node.children|
      invariant 0 <= i <= |node.children|
      invariant longer == queue + WithParent(node, i)
    {
      longer := longer + [(node.children[i], Some(node))];
      i := i + 1;
    }
  }

  lemma TargetAt(nodes: seq<TreeNode>, h: nat)
    requires DistinctPeers(nodes) && h < |nodes|
    ensures Target(TreeOf(nodes, 0), nodes[h].peerId) == if h == 0 then None else Some(TreeOf(nodes, Parent(h)).peerId)
  {
    hide FindParent, TreeOf;
    FindParentAt(nodes, 0, h);
    AllUnderRoot(h);
  }

  lemma TargetOfStranger(nodes: seq<TreeNode>, id: Peer)
    requires nodes != [] && forall k | 0 <= k < |nodes| :: nodes[k].peerId != id
    ensures Target(TreeOf(nodes, 0), id) == None
  {
    AbsentNotFound(nodes, 0, id);
  }

  lemma SpanningNodes(tree: TreeNode, members: seq<Peer>, treeRoot: Peer) returns (nodes: seq<TreeNode>)
    requires Spans(tree, members, treeRoot)
    ensures nodes != [] && DistinctPeers(nodes) && tree == TreeOf(nodes, 0) && [(tree, None)] == Queue(nodes, 0)
  {
    nodes :| nodes != [] && DistinctPeers(nodes) && tree == TreeOf(nodes, 0);
  }

  /** The breadth-first search of `getRelayTarget`. */
  method ParentByBreadth(tree: TreeNode, target: Peer, ghost members: seq<Peer>, ghost treeRoot: Peer)
    returns (r: Option<Peer>)
    requires Spans(tree, members, treeRoot)
    ensures r == Target(tree, target)
  {
    hide *;
    ghost var nodes := SpanningNodes(tree, members, treeRoot);
    ghost var n, h := |nodes|, 0;
    var queue: seq<(TreeNode, Option<TreeNode>)> := [(tree, None)];
    while |queue| > 0
      invariant 0 <= h <= n && queue == Queue(nodes, h)
      invariant forall k | 0 <= k < h :: nodes[k].peerId != target
      decreases n - h
    {
      QueueHead(nodes, h);
      QueueStep(nodes, h);
      ChildrenOf(nodes, h);
      var (node, parent) := queue[0];
      if node.peerId == target {
        TargetAt(nodes, h);
        return if parent.Some? then Some(parent.value.peerId) else None;
      }
      queue := PushChildren(queue[1..], node);
      h := h + 1;
    }
    QueueHead(nodes, h);
    TargetOfStranger(nodes, target);
    r := None;
  }
}
