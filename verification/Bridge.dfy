/** The breadth-first search for an onion bridge, `findBridge` in `node/src/federation.ts`. */
module Bridge {
  import opened Wrappers
  import opened Gossip

  /** What a relay knows of the topology. `order` lists the address book in insertion order. */
  datatype View = View(
    self: Relay, order: seq<Relay>, book: Book, established: set<Relay>, noDial: bool, maxTransitHops: int)

  predicate CanReachDirectly(v: View, relay: Relay) {
    relay in v.established || (!v.noDial && relay in v.book && v.book[relay].endpoint.Some?)
  }

  /** They share a link, since either dials the other, or `to` is publicly dialable. */
  predicate CanReach(v: View, from: Relay, to: Relay) {
    && to in v.book
    && (|| v.book[to].endpoint.Some?
        || (from in v.book && to in v.book[from].via)
        || from in v.book[to].via)
  }

  predicate OnionRelay(v: View, relay: Relay) {
    relay in v.book && v.book[relay].onionKey.Some? && relay != v.self
  }

  /** A path of length one is always looked at. */
  function Bound(v: View): nat {
    if v.maxTransitHops < 1 then 1 else v.maxTransitHops
  }

  ghost predicate BookListed(v: View) {
    && (forall k :: k in v.order <==> k in v.book)
    && (forall i, j | 0 <= i < j < |v.order| :: v.order[i] != v.order[j])
  }

  function Last(p: seq<Relay>): Relay
    requires p != []
  {
    p[|p| - 1]
  }

  /** Onion relays, the first within direct reach, each able to reach the next. */
  predicate Chain(v: View, p: seq<Relay>) {
    && p != []
    && (forall x <- p :: OnionRelay(v, x))
    && CanReachDirectly(v, p[0])
    && (forall i | 0 <= i < |p| - 1 :: CanReach(v, p[i], p[i + 1]))
  }

  predicate Distinct(p: seq<Relay>) {
    forall i, j | 0 <= i < j < |p| :: p[i] != p[j]
  }

  // ---- The search ----

  /* `done` are the heads already taken from the queue, `dist` the length of the path to each visited relay. */

  ghost predicate PathOk(v: View, p: seq<Relay>, done: set<Relay>, dist: map<Relay, nat>) {
    && Chain(v, p) && Distinct(p) && |p| <= Bound(v)
    && Last(p) in dist && dist[Last(p)] == |p| && Last(p) !in done
    && forall x <- p :: x in dist
  }

  ghost predicate QueueOk(v: View, queue: seq<seq<Relay>>, done: set<Relay>, dist: map<Relay, nat>) {
    && (forall i | 0 <= i < |queue| :: PathOk(v, queue[i], done, dist))
    && (forall i, j | 0 <= i < j < |queue| :: |queue[i]| <= |queue[j]| <= |queue[0]| + 1)
    && (forall i, j | 0 <= i < j < |queue| :: Last(queue[i]) != Last(queue[j]))
  }

  ghost predicate IsHead(queue: seq<seq<Relay>>, x: Relay) {
    exists i :: 0 <= i < |queue| && queue[i] != [] && Last(queue[i]) == x
  }

  ghost predicate VisitedOk(v: View, queue: seq<seq<Relay>>, done: set<Relay>, dist: map<Relay, nat>) {
    && (forall x <- dist :: x in done || IsHead(queue, x))
    && (forall x <- done :: x in dist && 1 <= dist[x] <= Bound(v) && (queue != [] ==> dist[x] <= |queue[0]|))
    && (forall x, y | x in done && dist[x] < Bound(v) && OnionRelay(v, y) && CanReach(v, x, y) :: y in dist)
    && (forall x | OnionRelay(v, x) && CanReachDirectly(v, x) :: x in dist)
  }

  /** Recorded lengths are shortest, and nothing as near as the front of the queue is still unvisited. */
  ghost predicate ShortestOk(v: View, queue: seq<seq<Relay>>, dist: map<Relay, nat>) {
    && (forall q | Chain(v, q) && Last(q) in dist :: dist[Last(q)] <= |q|)
    && (queue != [] ==> forall q | Chain(v, q) && |q| <= |queue[0]| :: Last(q) in dist)
  }

  ghost predicate SearchOk(v: View, queue: seq<seq<Relay>>, done: set<Relay>, dist: map<Relay, nat>) {
    QueueOk(v, queue, done, dist) && VisitedOk(v, queue, done, dist) && ShortestOk(v, queue, dist)
  }

  /** The unvisited onion relays `head` can reach, among the first `n` of the book. */
  function Discovered(v: View, head: Relay, visited: set<Relay>, n: nat): seq<Relay>
    requires n <= |v.order|
  {
    if n == 0 then [] else
    var found := Discovered(v, head, visited, n - 1);
    var x := v.order[n - 1];
    if OnionRelay(v, x) && x !in visited && CanReach(v, head, x) then found + [x] else found
  }

  function Extended(path: seq<Relay>, found: seq<Relay>): seq<seq<Relay>> {
    seq(|found|, i requires 0 <= i < |found| => path + [found[i]])
  }

  function Elements(s: seq<Relay>): set<Relay> {
    set x <- s
  }

  lemma {:induction false} DiscoveredElements(v: View, head: Relay, visited: set<Relay>, n: nat)
    requires BookListed(v) && n <= |v.order|
    ensures var found := Discovered(v, head, visited, n);
            && (forall x :: x in found <==>
                  x in v.order[..n] && OnionRelay(v, x) && x !in visited && CanReach(v, head, x))
            && Distinct(found)
  {
    hide OnionRelay, CanReach;
    if n == 0 {
    } else {
      DiscoveredElements(v, head, visited, n - 1);
      assert v.order[..n] == v.order[..n - 1] + [v.order[n - 1]];
    }
  }

  /** The inner loop of the search. */
  method Expand(v: View, path: seq<Relay>, queue: seq<seq<Relay>>, visited: set<Relay>)
    returns (queue': seq<seq<Relay>>, visited': set<Relay>)
    requires BookListed(v) && path != []
    ensures var found := Discovered(v, Last(path), visited, |v.order|);
            queue' == queue + Extended(path, found) && visited' == visited + Elements(found)
  {
    queue', visited' := queue, visited;
    var i := 0;
    while i < |v.order|
      invariant 0 <= i <= |v.order|
      invariant queue' == queue + Extended(path, Discovered(v, Last(path), visited, i))
      invariant visited' == visited + Elements(Discovered(v, Last(path), visited, i))
    {
      var cand := v.order[i];
      ghost var found := Discovered(v, Last(path), visited, i);
      DiscoveredElements(v, Last(path), visited, i);
      if OnionRelay(v, cand) && cand !in visited' && CanReach(v, Last(path), cand) {
        assert Extended(path, found + [cand]) == Extended(path, found) + [path + [cand]];
        visited' := visited' + {cand};
        queue' := queue' + [path + [cand]];
      }
      i := i + 1;
    }
  }

  // ---- Why one round keeps the search correct ----

  ghost function Recorded(dist: map<Relay, nat>, found: seq<Relay>, length: nat): map<Relay, nat> {
    dist + map x | x in found :: length
  }

  /** One round: the front path is taken, and `found` are its unvisited successors unless it is at the bound. */
  ghost predicate Round(v: View, queue: seq<seq<Relay>>, dist: map<Relay, nat>, found: seq<Relay>) {
    && queue != [] && queue[0] != []
    && (forall x :: x in found <==>
          |queue[0]| < Bound(v) && OnionRelay(v, x) && x !in dist && CanReach(v, Last(queue[0]), x))
    && Distinct(found)
  }

  lemma OldPathOk(v: View, p: seq<Relay>, done: set<Relay>, dist: map<Relay, nat>, head: Relay, dist': map<Relay, nat>)
    requires PathOk(v, p, done, dist) && Last(p) != head
    requires forall x <- dist :: x in dist' && dist'[x] == dist[x]
    ensures PathOk(v, p, done + {head}, dist')
  {
  }

  lemma NewPathOk(v: View, path: seq<Relay>, done: set<Relay>, dist: map<Relay, nat>, x: Relay, dist': map<Relay, nat>)
    requires PathOk(v, path, done, dist) && |path| < Bound(v)
    requires OnionRelay(v, x) && x !in dist && CanReach(v, Last(path), x)
    requires forall y <- dist :: y in dist'
    requires forall y <- done :: y in dist
    requires x in dist' && dist'[x] == |path| + 1
    ensures PathOk(v, path + [x], done + {Last(path)}, dist')
  {
    assert forall y <- path :: y in dist;
    forall y <- path + [x] ensures OnionRelay(v, y) && y in dist' {
      assert y == x || y in path;
    }
  }

  lemma RecordedLengths(dist: map<Relay, nat>, found: seq<Relay>, length: nat)
    requires forall x <- found :: x !in dist
    ensures forall x <- dist :: x in Recorded(dist, found, length) && Recorded(dist, found, length)[x] == dist[x]
    ensures forall x <- found :: x in Recorded(dist, found, length) && Recorded(dist, found, length)[x] == length
    ensures forall x <- Recorded(dist, found, length) :: x in dist || x in found
  {
  }

  lemma NewHeads(v: View, queue: seq<seq<Relay>>, done: set<Relay>, dist: map<Relay, nat>, found: seq<Relay>)
    requires Round(v, queue, dist, found) && QueueOk(v, queue, done, dist)
    ensures var queue' := queue[1..] + Extended(queue[0], found);
            forall i, j | 0 <= i < j < |queue'| ::
              queue'[i] != [] && queue'[j] != [] && Last(queue'[i]) != Last(queue'[j])
  {
    var queue' := queue[1..] + Extended(queue[0], found);
    forall i, j | 0 <= i < j < |queue'|
      ensures queue'[i] != [] && queue'[j] != [] && Last(queue'[i]) != Last(queue'[j])
    {
      assert i < |queue| - 1 ==> queue'[i] == queue[i + 1] && PathOk(v, queue[i + 1], done, dist);
      assert j < |queue| - 1 ==> queue'[j] == queue[j + 1] && PathOk(v, queue[j + 1], done, dist);
      assert i >= |queue| - 1 ==> Last(queue'[i]) == found[i - (|queue| - 1)];
      assert j >= |queue| - 1 ==> Last(queue'[j]) == found[j - (|queue| - 1)] && found[j - (|queue| - 1)] in found;
    }
  }

  /** The queue after a round: the rest of the old one, then the extensions of the front path. */
  ghost function NextQueue(queue: seq<seq<Relay>>, found: seq<Relay>): seq<seq<Relay>>
    requires queue != []
  {
    queue[1..] + Extended(queue[0], found)
  }

  ghost function NextDist(queue: seq<seq<Relay>>, dist: map<Relay, nat>, found: seq<Relay>): map<Relay, nat>
    requires queue != []
  {
    Recorded(dist, found, |queue[0]| + 1)
  }

  lemma RoundPathOk(v: View, queue: seq<seq<Relay>>, done: set<Relay>, dist: map<Relay, nat>, found: seq<Relay>, i: nat)
    requires Round(v, queue, dist, found) && QueueOk(v, queue, done, dist) && forall x <- done :: x in dist
    requires i < |NextQueue(queue, found)|
    ensures PathOk(v, NextQueue(queue, found)[i], done + {Last(queue[0])}, NextDist(queue, dist, found))
    ensures |queue[0]| <= |NextQueue(queue, found)[i]| <= |queue[0]| + 1
  {
    var dist' := NextDist(queue, dist, found);
    RecordedLengths(dist, found, |queue[0]| + 1);
    hide Recorded;
    assert PathOk(v, queue[0], done, dist);
    if i < |queue| - 1 {
      assert NextQueue(queue, found)[i] == queue[i + 1];
      OldPathOk(v, queue[i + 1], done, dist, Last(queue[0]), dist');
    } else {
      var x := found[i - (|queue| - 1)];
      assert x in found && NextQueue(queue, found)[i] == queue[0] + [x];
      NewPathOk(v, queue[0], done, dist, x, dist');
    }
  }

  lemma RoundOrdered(v: View, queue: seq<seq<Relay>>, done: set<Relay>, dist: map<Relay, nat>, found: seq<Relay>,
                     i: nat, j: nat)
    requires Round(v, queue, dist, found) && QueueOk(v, queue, done, dist) && i < j < |NextQueue(queue, found)|
    ensures |NextQueue(queue, found)[i]| <= |NextQueue(queue, found)[j]|
  {
    var next := NextQueue(queue, found);
    assert i < |queue| - 1 ==> next[i] == queue[i + 1];
    assert j < |queue| - 1 ==> next[j] == queue[j + 1];
    assert j >= |queue| - 1 ==> |next[j]| == |queue[0]| + 1;
    assert i >= |queue| - 1 ==> |next[i]| == |queue[0]| + 1;
  }

  lemma RoundKeepsQueue(v: View, queue: seq<seq<Relay>>, done: set<Relay>, dist: map<Relay, nat>, found: seq<Relay>)
    requires Round(v, queue, dist, found) && QueueOk(v, queue, done, dist)
    requires forall x <- done :: x in dist
    ensures QueueOk(v, NextQueue(queue, found), done + {Last(queue[0])}, NextDist(queue, dist, found))
  {
    var next := NextQueue(queue, found);
    NewHeads(v, queue, done, dist, found);
    forall i: nat | i < |next|
      ensures PathOk(v, next[i], done + {Last(queue[0])}, NextDist(queue, dist, found))
      ensures |queue[0]| <= |next[i]| <= |queue[0]| + 1
    {
      RoundPathOk(v, queue, done, dist, found, i);
    }
    forall i: nat, j: nat | i < j < |next| ensures |next[i]| <= |next[j]| {
      RoundOrdered(v, queue, done, dist, found, i, j);
    }
    hide NextQueue, NextDist, PathOk, Round;
  }

  lemma NextHeads(v: View, queue: seq<seq<Relay>>, done: set<Relay>, dist: map<Relay, nat>, found: seq<Relay>, x: Relay)
    requires Round(v, queue, dist, found) && x in NextDist(queue, dist, found)
    requires x in dist ==> x in done || IsHead(queue, x)
    ensures x in done || x == Last(queue[0]) || IsHead(NextQueue(queue, found), x)
  {
    var next := NextQueue(queue, found);
    RecordedLengths(dist, found, |queue[0]| + 1);
    if x in found {
      var i :| 0 <= i < |found| && found[i] == x;
      assert next[|queue| - 1 + i] == queue[0] + [x];
    } else if x !in done && x != Last(queue[0]) {
      var i :| 0 <= i < |queue| && queue[i] != [] && Last(queue[i]) == x;
      assert next[i - 1] == queue[i];
    }
  }

  lemma RoundKeepsVisited(v: View, queue: seq<seq<Relay>>, done: set<Relay>, dist: map<Relay, nat>, found: seq<Relay>)
    requires Round(v, queue, dist, found) && QueueOk(v, queue, done, dist) && VisitedOk(v, queue, done, dist)
    ensures VisitedOk(v, NextQueue(queue, found), done + {Last(queue[0])}, NextDist(queue, dist, found))
  {
    hide IsHead;
    var next, dist' := NextQueue(queue, found), NextDist(queue, dist, found);
    RecordedLengths(dist, found, |queue[0]| + 1);
    assert PathOk(v, queue[0], done, dist);
    forall x <- dist' ensures x in done + {Last(queue[0])} || IsHead(next, x) {
      NextHeads(v, queue, done, dist, found, x);
    }
    if next != [] {
      RoundPathOk(v, queue, done, dist, found, 0);
    }
    hide NextQueue, NextDist, QueueOk, CanReach, CanReachDirectly, Chain, Distinct, Recorded;
  }

  lemma RoundKeepsShortest(v: View, queue: seq<seq<Relay>>, done: set<Relay>, dist: map<Relay, nat>, found: seq<Relay>)
    requires Round(v, queue, dist, found) && SearchOk(v, queue, done, dist)
    ensures ShortestOk(v, NextQueue(queue, found), NextDist(queue, dist, found))
  {
    var next, dist' := NextQueue(queue, found), NextDist(queue, dist, found);
    RecordedLengths(dist, found, |queue[0]| + 1);
    if next != [] {
      RoundPathOk(v, queue, done, dist, found, 0);
      assert |queue| > 1 ==> next[0] == queue[1];
    }
    hide QueueOk, VisitedOk, CanReach, CanReachDirectly, OnionRelay, Distinct, Recorded, PathOk;
    forall q | next != [] && Chain(v, q) && |q| <= |next[0]| ensures Last(q) in dist' {
      if |q| > |queue[0]| {
        FrontierAdvances(v, queue, done, dist, found, q);
      }
    }
  }

  /** A chain one longer than the front path ends in a relay visited by the time that path has been expanded. */
  lemma FrontierAdvances(v: View, queue: seq<seq<Relay>>, done: set<Relay>, dist: map<Relay, nat>, found: seq<Relay>,
                         q: seq<Relay>)
    requires Round(v, queue, dist, found) && SearchOk(v, queue, done, dist)
    requires Chain(v, q) && |q| == |queue[0]| + 1
    requires NextQueue(queue, found) != [] && |NextQueue(queue, found)[0]| == |queue[0]| + 1
    ensures Last(q) in dist || Last(q) in found
  {
    ChainPrefix(v, q);
    var u := Last(q[..|q| - 1]);
    RoundPathOk(v, queue, done, dist, found, 0);
    hide Chain, OnionRelay, CanReach, PathOk, IsHead;
    assert u in dist && dist[u] <= |queue[0]|;
    FrontDone(v, queue, done, dist, found, u);
  }

  lemma ChainPrefix(v: View, q: seq<Relay>)
    requires Chain(v, q) && |q| > 1
    ensures var before := q[..|q| - 1];
            Chain(v, before) && CanReach(v, Last(before), Last(q)) && OnionRelay(v, Last(q))
  {
    assert Last(q) in q;
  }

  /** When the front path is the last of its length, all relays that near are taken, or are its own head. */
  lemma FrontDone(v: View, queue: seq<seq<Relay>>, done: set<Relay>, dist: map<Relay, nat>, found: seq<Relay>, u: Relay)
    requires Round(v, queue, dist, found) && QueueOk(v, queue, done, dist) && VisitedOk(v, queue, done, dist)
    requires NextQueue(queue, found) != [] && |NextQueue(queue, found)[0]| == |queue[0]| + 1
    requires u in dist && dist[u] <= |queue[0]|
    ensures u in done || u == Last(queue[0])
    ensures PathOk(v, queue[0], done, dist)
  {
    assert |queue| > 1 ==> NextQueue(queue, found)[0] == queue[1];
    if u !in done {
      var i :| 0 <= i < |queue| && queue[i] != [] && Last(queue[i]) == u;
      assert PathOk(v, queue[i], done, dist);
    }
  }

  lemma RoundKeepsSearch(v: View, queue: seq<seq<Relay>>, done: set<Relay>, dist: map<Relay, nat>, found: seq<Relay>)
    requires Round(v, queue, dist, found) && SearchOk(v, queue, done, dist)
    ensures SearchOk(v, NextQueue(queue, found), done + {Last(queue[0])}, NextDist(queue, dist, found))
  {
    hide QueueOk, VisitedOk, ShortestOk, Round, Recorded;
    assert forall x <- done :: x in dist by {
      DoneVisited(v, queue, done, dist);
    }
    assert queue != [] && queue[0] != [] by {
      RoundFront(v, queue, dist, found);
    }
    RoundKeepsQueue(v, queue, done, dist, found);
    RoundKeepsVisited(v, queue, done, dist, found);
    RoundKeepsShortest(v, queue, done, dist, found);
  }

  lemma DoneVisited(v: View, queue: seq<seq<Relay>>, done: set<Relay>, dist: map<Relay, nat>)
    requires VisitedOk(v, queue, done, dist)
    ensures forall x <- done :: x in dist
  {
  }

  lemma RoundFront(v: View, queue: seq<seq<Relay>>, dist: map<Relay, nat>, found: seq<Relay>)
    requires Round(v, queue, dist, found)
    ensures queue != [] && queue[0] != []
  {
  }

  // ---- The whole search ----

  /** With the queue empty, every relay at the end of a chain within the bound has been taken. */
  lemma {:induction false} ExhaustedSearch(v: View, done: set<Relay>, dist: map<Relay, nat>, q: seq<Relay>)
    requires SearchOk(v, [], done, dist) && Chain(v, q) && |q| <= Bound(v)
    ensures Last(q) in done
    decreases |q|
  {
    if |q| > 1 {
      var before := q[..|q| - 1];
      ChainPrefix(v, q);
      ExhaustedSearch(v, done, dist, before);
      assert dist[Last(before)] <= |before|;
    }
  }

  /** The onion relays within direct reach, among the first `n` of the book. */
  function DirectRelays(v: View, n: nat): seq<Relay>
    requires n <= |v.order|
  {
    if n == 0 then [] else
    var x := v.order[n - 1];
    if OnionRelay(v, x) && CanReachDirectly(v, x) then DirectRelays(v, n - 1) + [x] else DirectRelays(v, n - 1)
  }

  lemma {:induction false} DirectRelaysElements(v: View, n: nat)
    requires BookListed(v) && n <= |v.order|
    ensures var direct := DirectRelays(v, n);
            && (forall x :: x in direct <==> x in v.order[..n] && OnionRelay(v, x) && CanReachDirectly(v, x))
            && Distinct(direct)
  {
    hide OnionRelay, CanReachDirectly;
    if n == 0 {
    } else {
      DirectRelaysElements(v, n - 1);
      assert v.order[..n] == v.order[..n - 1] + [v.order[n - 1]];
    }
  }

  /** The state the search starts from: every direct relay queued as a path of its own. */
  ghost predicate Started(v: View, direct: seq<Relay>) {
    (forall x :: x in direct <==> OnionRelay(v, x) && CanReachDirectly(v, x)) && Distinct(direct)
  }

  lemma StartedQueueOk(v: View, direct: seq<Relay>)
    requires Started(v, direct)
    ensures QueueOk(v, Extended([], direct), {}, Recorded(map[], direct, 1))
  {
    var queue := Extended([], direct);
    RecordedLengths(map[], direct, 1);
    hide Recorded;
    forall i | 0 <= i < |queue| ensures PathOk(v, queue[i], {}, Recorded(map[], direct, 1)) {
      assert queue[i] == [direct[i]] && direct[i] in direct;
    }
  }

  lemma StartedVisitedOk(v: View, direct: seq<Relay>)
    requires Started(v, direct)
    ensures VisitedOk(v, Extended([], direct), {}, Recorded(map[], direct, 1))
  {
    hide OnionRelay, CanReachDirectly, CanReach, Distinct;
    var queue := Extended([], direct);
    RecordedLengths(map[], direct, 1);
    forall x <- direct ensures IsHead(queue, x) {
      var i :| 0 <= i < |direct| && direct[i] == x;
      assert queue[i] == [x];
    }
    hide Extended, IsHead, Recorded;
  }

  lemma StartedShortestOk(v: View, direct: seq<Relay>)
    requires Started(v, direct)
    ensures ShortestOk(v, Extended([], direct), Recorded(map[], direct, 1))
  {
    hide OnionRelay, CanReachDirectly, CanReach, Distinct;
    var queue, dist := Extended([], direct), Recorded(map[], direct, 1);
    RecordedLengths(map[], direct, 1);
    hide Recorded;
    assert queue != [] ==> |queue[0]| == 1;
    hide Extended;
    forall q | Chain(v, q) && |q| <= 1 ensures Last(q) in dist {
      assert q[0] in q;
    }
  }

  lemma StartedSearchOk(v: View, direct: seq<Relay>)
    requires Started(v, direct)
    ensures SearchOk(v, Extended([], direct), {}, Recorded(map[], direct, 1))
  {
    hide QueueOk, VisitedOk, ShortestOk, Started;
    StartedQueueOk(v, direct);
    StartedVisitedOk(v, direct);
    StartedShortestOk(v, direct);
  }

  /** The chain returned is sound and shortest. */
  ghost predicate ShortestChain(v: View, anchor: Relay, p: seq<Relay>) {
    && Chain(v, p) && Distinct(p) && Last(p) == anchor && |p| <= Bound(v)
    && forall q | Chain(v, q) && Last(q) == anchor :: |p| <= |q|
  }

  method FindBridge(v: View, anchor: Relay) returns (r: Option<seq<Relay>>)
    requires BookListed(v)
    ensures r.Some? ==> ShortestChain(v, anchor, r.value)
    ensures r.None? <==> forall q | Chain(v, q) && Last(q) == anchor :: |q| > Bound(v)
  {
    hide SearchOk, Chain, Discovered, Recorded;
    var direct := DirectRelays(v, |v.order|);
    var queue, visited := Extended([], direct), Elements(direct);
    ghost var done: set<Relay>, dist := {}, Recorded(map[], direct, 1);
    StartSearch(v, direct);
    while queue != []
      invariant SearchOk(v, queue, done, dist)
      invariant visited == dist.Keys && anchor !in done
      decreases v.book.Keys - done
    {
      var path := queue[0];
      FrontOk(v, queue, done, dist);
      if Last(path) == anchor {
        return Some(path);
      }
      ghost var found := if |path| < v.maxTransitHops then Discovered(v, Last(path), visited, |v.order|) else [];
      OneRound(v, queue, done, dist, found);
      done, dist := done + {Last(path)}, Recorded(dist, found, |path| + 1);
      queue := queue[1..];
      if |path| < v.maxTransitHops {
        queue, visited := Expand(v, path, queue, visited);
      }
    }
    ExhaustedFor(v, done, dist, anchor);
    return None;
  }

  lemma StartSearch(v: View, direct: seq<Relay>)
    requires BookListed(v) && direct == DirectRelays(v, |v.order|)
    ensures SearchOk(v, Extended([], direct), {}, Recorded(map[], direct, 1))
    ensures Recorded(map[], direct, 1).Keys == Elements(direct)
  {
    hide SearchOk;
    DirectRelaysElements(v, |v.order|);
    assert v.order[..|v.order|] == v.order;
    StartedSearchOk(v, direct);
  }

  lemma OneRound(v: View, queue: seq<seq<Relay>>, done: set<Relay>, dist: map<Relay, nat>, found: seq<Relay>)
    requires BookListed(v) && queue != [] && SearchOk(v, queue, done, dist)
    requires queue[0] != []
    requires found == if |queue[0]| < v.maxTransitHops then Discovered(v, Last(queue[0]), dist.Keys, |v.order|) else []
    ensures var queue' := queue[1..] + Extended(queue[0], found);
            var dist' := Recorded(dist, found, |queue[0]| + 1);
            && SearchOk(v, queue', done + {Last(queue[0])}, dist')
            && dist'.Keys == dist.Keys + Elements(found)
            && (found == [] ==> queue' == queue[1..])
  {
    hide SearchOk;
    DiscoveredElements(v, Last(queue[0]), dist.Keys, |v.order|);
    assert v.order[..|v.order|] == v.order;
    RoundKeepsSearch(v, queue, done, dist, found);
  }

  lemma ExhaustedFor(v: View, done: set<Relay>, dist: map<Relay, nat>, anchor: Relay)
    requires SearchOk(v, [], done, dist) && anchor !in done
    ensures forall q | Chain(v, q) && Last(q) == anchor :: |q| > Bound(v)
  {
    forall q | Chain(v, q) && Last(q) == anchor ensures |q| > Bound(v) {
      if |q| <= Bound(v) {
        ExhaustedSearch(v, done, dist, q);
      }
    }
  }

  lemma FrontOk(v: View, queue: seq<seq<Relay>>, done: set<Relay>, dist: map<Relay, nat>)
    requires queue != [] && SearchOk(v, queue, done, dist)
    ensures queue[0] != [] && ShortestChain(v, Last(queue[0]), queue[0])
    ensures Last(queue[0]) in v.book && Last(queue[0]) !in done
  {
    assert PathOk(v, queue[0], done, dist);
    assert Last(queue[0]) in queue[0];
  }
}
