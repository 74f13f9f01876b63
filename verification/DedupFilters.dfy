/**
  The two bounded duplicate filters: `PacketIdCache` of `node/src/federation.ts` and `SeenPacketSet` of
  `src/routing/index.ts`.
 */
module DedupFilters {

  const PACKET_ID_CACHE_SIZE := 1024
  const PACKET_ID_TTL_MS := 60000

  // ---- The packet-id cache ----

  /** An id and when it was inserted. */
  datatype Insert = Insert(id: string, at: int)

  ghost function IdsOf(inserts: seq<Insert>): set<string> {
    set i | 0 <= i < |inserts| :: inserts[i].id
  }

  /** The id's last insertion is at k. */
  ghost predicate LastAt(inserts: seq<Insert>, k: nat, id: string) {
    k < |inserts| && inserts[k].id == id && forall j | k < j < |inserts| :: inserts[j].id != id
  }

  /** The history specification: among the most recently inserted distinct ids, and younger than the time to live. */
  ghost predicate SeenRecently(inserts: seq<Insert>, id: string, now: int) {
    exists k: nat :: LastAt(inserts, k, id) && now - inserts[k].at < PACKET_ID_TTL_MS &&
      |IdsOf(inserts[k + 1..])| < PACKET_ID_CACHE_SIZE
  }

  /** `Map.delete`: entries keep their order. */
  function Without(entries: seq<Insert>, id: string): seq<Insert> {
    if entries == [] then [] else
    var rest, last := Without(entries[..|entries| - 1], id), entries[|entries| - 1];
    if last.id == id then rest else rest + [last]
  }

  function Newest(entries: seq<Insert>, n: nat): seq<Insert> {
    if |entries| > n then entries[|entries| - n..] else entries
  }

  /** Every id's last insertion, in order: the map without its bound. */
  function Latest(inserts: seq<Insert>): seq<Insert> {
    if inserts == [] then [] else
    var last := inserts[|inserts| - 1];
    Without(Latest(inserts[..|inserts| - 1]), last.id) + [last]
  }

  function Find(entries: seq<Insert>, id: string): (i: nat)
    ensures i <= |entries|
    ensures i < |entries| ==> entries[i].id == id
    ensures forall j | 0 <= j < i :: entries[j].id != id
  {
    if entries == [] || entries[0].id == id then 0 else 1 + Find(entries[1..], id)
  }

  ghost predicate DistinctIds(entries: seq<Insert>) {
    forall i, j | 0 <= i < j < |entries| :: entries[i].id != entries[j].id
  }

  lemma {:induction false} WithoutConcat(a: seq<Insert>, b: seq<Insert>, id: string)
    ensures Without(a + b, id) == Without(a, id) + Without(b, id)
  {
    if b == [] {
      assert a + b == a;
    } else {
      WithoutConcat(a, b[..|b| - 1], id);
      assert (a + b)[..|a + b| - 1] == a + b[..|b| - 1];
    }
  }

  lemma {:induction false} WithoutAbsent(entries: seq<Insert>, id: string)
    requires forall e <- entries :: e.id != id
    ensures Without(entries, id) == entries
  {
    if entries == [] {
    } else {
      WithoutAbsent(entries[..|entries| - 1], id);
    }
  }

  lemma {:induction false} WithoutElements(entries: seq<Insert>, id: string)
    ensures forall e :: e in Without(entries, id) <==> e in entries && e.id != id
    ensures |Without(entries, id)| <= |entries|
  {
    if entries == [] {
    } else {
      WithoutElements(entries[..|entries| - 1], id);
      assert entries == entries[..|entries| - 1] + [entries[|entries| - 1]];
    }
  }

  lemma {:induction false} WithoutDistinct(entries: seq<Insert>, id: string)
    requires DistinctIds(entries)
    ensures DistinctIds(Without(entries, id))
  {
    if entries == [] {
    } else {
      var front, last := entries[..|entries| - 1], entries[|entries| - 1];
      WithoutDistinct(front, id);
      WithoutElements(front, id);
      var rest := Without(front, id);
      forall i | 0 <= i < |rest| ensures rest[i].id != last.id {
        assert rest[i] in front;
        var k :| 0 <= k < |front| && front[k] == rest[i];
        assert entries[k].id != entries[|front|].id;
      }
    }
  }

  lemma {:induction false} LatestDistinct(inserts: seq<Insert>)
    ensures DistinctIds(Latest(inserts))
  {
    if inserts == [] {
    } else {
      var front, last := inserts[..|inserts| - 1], inserts[|inserts| - 1];
      LatestDistinct(front);
      WithoutDistinct(Latest(front), last.id);
      WithoutElements(Latest(front), last.id);
      var rest := Without(Latest(front), last.id);
      forall i | 0 <= i < |rest| ensures rest[i].id != last.id {
        assert rest[i] in rest;
      }
    }
  }

  /** One element of a duplicate-free list taken out. */
  lemma WithoutAt(entries: seq<Insert>, i: nat)
    requires DistinctIds(entries) && i < |entries|
    ensures Without(entries, entries[i].id) == entries[..i] + entries[i + 1..]
  {
    var front, e, back := entries[..i], entries[i], entries[i + 1..];
    assert entries == (front + [e]) + back;
    WithoutConcat(front + [e], back, e.id);
    WithoutConcat(front, [e], e.id);
    WithoutAbsent(front, e.id);
    WithoutAbsent(back, e.id);
  }

  lemma {:induction false} DistinctCount(entries: seq<Insert>)
    requires DistinctIds(entries)
    ensures |IdsOf(entries)| == |entries|
  {
    if entries == [] {
    } else {
      var front, last := entries[..|entries| - 1], entries[|entries| - 1];
      DistinctCount(front);
      assert IdsOf(entries) == IdsOf(front) + {last.id};
      assert last.id !in IdsOf(front);
    }
  }

  lemma IdsOfWithout(entries: seq<Insert>, last: Insert)
    ensures IdsOf(Without(entries, last.id) + [last]) == IdsOf(entries) + {last.id}
  {
    WithoutElements(entries, last.id);
    var after := Without(entries, last.id) + [last];
    forall i | 0 <= i < |entries| && entries[i].id != last.id ensures entries[i].id in IdsOf(after) {
      assert entries[i] in Without(entries, last.id);
      var j :| 0 <= j < |Without(entries, last.id)| && Without(entries, last.id)[j] == entries[i];
      assert after[j] == entries[i];
    }
    assert after[|after| - 1] == last;
    forall i | 0 <= i < |after| ensures after[i].id in IdsOf(entries) + {last.id} {
      if i < |after| - 1 {
        assert after[i] in Without(entries, last.id);
      }
    }
  }

  /** After an id's last insertion come, in the map, exactly the ids inserted since, each once. */
  lemma {:induction false} LatestSplit(inserts: seq<Insert>, k: nat, id: string)
    returns (a: seq<Insert>, b: seq<Insert>)
    requires LastAt(inserts, k, id)
    ensures Latest(inserts) == a + [inserts[k]] + b
    ensures IdsOf(b) == IdsOf(inserts[k + 1..])
  {
    var n := |inserts| - 1;
    var front, last := inserts[..n], inserts[n];
    assert inserts == front + [last];
    LatestNext(front, last);
    if k == n {
      a, b := Without(Latest(front), last.id), [];
    } else {
      var a', b' := LatestSplit(front, k, id);
      a, b := Without(a', last.id), Without(b', last.id) + [last];
      assert inserts[k + 1..] == front[k + 1..] + [last];
      hide *;
      SplitWithout(a', front[k], b', last.id);
      IdsOfWithout(b', last);
      IdsOfNext(front[k + 1..], last);
      Regroup(a, inserts[k], Without(b', last.id), last);
    }
  }

  lemma Regroup(a: seq<Insert>, e: Insert, b: seq<Insert>, last: Insert)
    ensures a + [e] + b + [last] == a + [e] + (b + [last])
  {
  }

  lemma LatestNext(inserts: seq<Insert>, last: Insert)
    ensures Latest(inserts + [last]) == Without(Latest(inserts), last.id) + [last]
  {
    assert (inserts + [last])[..|inserts|] == inserts;
  }

  lemma IdsOfNext(entries: seq<Insert>, last: Insert)
    ensures IdsOf(entries + [last]) == IdsOf(entries) + {last.id}
  {
    var all := entries + [last];
    assert all[|entries|] == last;
    assert forall i | 0 <= i < |entries| :: all[i] == entries[i];
  }

  lemma SplitWithout(a: seq<Insert>, e: Insert, b: seq<Insert>, id: string)
    requires e.id != id
    ensures Without(a + [e] + b, id) == Without(a, id) + [e] + Without(b, id)
  {
    WithoutConcat(a + [e], b, id);
    WithoutConcat(a, [e], id);
    assert Without([e], id) == [e];
  }

  lemma {:induction false} LatestMember(inserts: seq<Insert>, e: Insert) returns (k: nat)
    requires e in Latest(inserts)
    ensures LastAt(inserts, k, e.id) && inserts[k] == e
  {
    var n := |inserts| - 1;
    var front, last := inserts[..n], inserts[n];
    if e == last {
      k := n;
    } else {
      WithoutElements(Latest(front), last.id);
      k := LatestMember(front, e);
    }
  }

  lemma NewestIsSuffix(a: seq<Insert>, b: seq<Insert>)
    ensures Newest(a + b, |b|) == b
  {
  }

  lemma WithoutBetween(a: seq<Insert>, x: Insert, b: seq<Insert>)
    requires DistinctIds(a + [x] + b)
    ensures Without(a + [x] + b, x.id) == a + b
  {
    var all := a + [x] + b;
    assert all[|a|] == x && all[..|a|] == a && all[|a| + 1..] == b;
    hide Without, DistinctIds;
    WithoutAt(all, |a|);
  }

  lemma DistinctBack(a: seq<Insert>, b: seq<Insert>)
    requires DistinctIds(a + b)
    ensures DistinctIds(b)
  {
    assert forall i | 0 <= i < |b| :: b[i] == (a + b)[|a| + i];
  }

  lemma Regrouped(d: seq<Insert>, a: seq<Insert>, x: Insert, b: seq<Insert>, e: Insert)
    ensures d + (a + [x] + b) == d + a + [x] + b
    ensures d + a + b + [e] == d + (a + b + [e]) && [] + (a + b + [e]) == a + b + [e]
  {
  }

  /** An id among the kept entries is taken out and goes last. */
  lemma TrimFound(dropped: seq<Insert>, a: seq<Insert>, x: Insert, b: seq<Insert>, e: Insert)
    requires DistinctIds(dropped + (a + [x] + b)) && x.id == e.id
    ensures Newest(Without(a + [x] + b, e.id) + [e], |a| + 1 + |b|) ==
            Newest(Without(dropped + (a + [x] + b), e.id) + [e], |a| + 1 + |b|)
  {
    hide *;
    DistinctBack(dropped, a + [x] + b);
    Regrouped(dropped, a, x, b, e);
    WithoutBetween(a, x, b);
    WithoutBetween(dropped + a, x, b);
    NewestIsSuffix([], a + b + [e]);
    NewestIsSuffix(dropped, a + b + [e]);
  }

  lemma FirstApart(d: seq<Insert>, kept: seq<Insert>, e: Insert)
    requires kept != []
    ensures kept + [e] == kept[..1] + (kept[1..] + [e])
    ensures d + kept + [e] == (d + kept[..1]) + (kept[1..] + [e])
  {
  }

  /** A new id pushes out the oldest kept entry. */
  lemma TrimAbsent(dropped: seq<Insert>, kept: seq<Insert>, e: Insert)
    requires kept != [] && forall x <- kept :: x.id != e.id
    ensures Newest(Without(kept, e.id) + [e], |kept|) == Newest(Without(dropped + kept, e.id) + [e], |kept|)
  {
    hide *;
    WithoutConcat(dropped, kept, e.id);
    WithoutAbsent(kept, e.id);
    FirstApart(Without(dropped, e.id), kept, e);
    NewestIsSuffix(kept[..1], kept[1..] + [e]);
    NewestIsSuffix(Without(dropped, e.id) + kept[..1], kept[1..] + [e]);
  }

  /** Deleting, appending and dropping the oldest commutes with the bound. */
  lemma TrimNext(latest: seq<Insert>, e: Insert, n: nat)
    requires DistinctIds(latest) && n > 0
    ensures Newest(Without(Newest(latest, n), e.id) + [e], n) == Newest(Without(latest, e.id) + [e], n)
    ensures |Without(Newest(latest, n), e.id) + [e]| <= n + 1
  {
    WithoutElements(Newest(latest, n), e.id);
    if |latest| > n {
      var dropped, kept := latest[..|latest| - n], latest[|latest| - n..];
      assert latest == dropped + kept;
      NewestIsSuffix(dropped, kept);
      TrimKept(dropped, kept, e);
    }
  }

  lemma TrimKept(dropped: seq<Insert>, kept: seq<Insert>, e: Insert)
    requires DistinctIds(dropped + kept) && kept != []
    ensures Newest(Without(kept, e.id) + [e], |kept|) == Newest(Without(dropped + kept, e.id) + [e], |kept|)
  {
    var i := Find(kept, e.id);
    if i < |kept| {
      var a, x, b := kept[..i], kept[i], kept[i + 1..];
      assert kept == a + [x] + b;
      hide *;
      TrimFound(dropped, a, x, b, e);
    } else {
      hide *;
      TrimAbsent(dropped, kept, e);
    }
  }

  lemma NewestDistinct(entries: seq<Insert>, n: nat)
    requires DistinctIds(entries)
    ensures DistinctIds(Newest(entries, n))
  {
  }

  /** What the bounded map answers is what the history says. */
  lemma CacheMeetsHistory(inserts: seq<Insert>, id: string, now: int)
    ensures var entries := Newest(Latest(inserts), PACKET_ID_CACHE_SIZE);
            var i := Find(entries, id);
            i < |entries| && now - entries[i].at < PACKET_ID_TTL_MS <==> SeenRecently(inserts, id, now)
  {
    var latest := Latest(inserts);
    var entries := Newest(latest, PACKET_ID_CACHE_SIZE);
    var i := Find(entries, id);
    LatestDistinct(inserts);
    NewestDistinct(latest, PACKET_ID_CACHE_SIZE);
    hide Latest;
    if i < |entries| {
      var e := entries[i];
      assert e in latest;
      var k := LatestMember(inserts, e);
      assert LastAt(inserts, k, id);
      FoundRank(inserts, k, id, i);
      forall j: nat | LastAt(inserts, j, id) ensures j == k {
      }
    } else {
      forall k: nat | LastAt(inserts, k, id) ensures |IdsOf(inserts[k + 1..])| >= PACKET_ID_CACHE_SIZE {
        RecentIsKept(inserts, k, id);
      }
    }
  }

  lemma FoundRank(inserts: seq<Insert>, k: nat, id: string, i: nat)
    requires LastAt(inserts, k, id) && DistinctIds(Latest(inserts))
    requires var entries := Newest(Latest(inserts), PACKET_ID_CACHE_SIZE); i < |entries| && entries[i].id == id
    ensures Newest(Latest(inserts), PACKET_ID_CACHE_SIZE)[i] == inserts[k]
    ensures |IdsOf(inserts[k + 1..])| < PACKET_ID_CACHE_SIZE
  {
    var a, b := LatestSplit(inserts, k, id);
    var latest := Latest(inserts);
    hide Latest;
    assert latest[|a|] == inserts[k];
    assert DistinctIds(b) by {
      assert forall j | 0 <= j < |b| :: b[j] == latest[|a| + 1 + j];
    }
    DistinctCount(b);
  }

  lemma RecentIsKept(inserts: seq<Insert>, k: nat, id: string)
    requires LastAt(inserts, k, id) && DistinctIds(Latest(inserts))
    ensures |IdsOf(inserts[k + 1..])| < PACKET_ID_CACHE_SIZE ==>
            inserts[k] in Newest(Latest(inserts), PACKET_ID_CACHE_SIZE)
  {
    var a, b := LatestSplit(inserts, k, id);
    var latest := Latest(inserts);
    var entries := Newest(latest, PACKET_ID_CACHE_SIZE);
    hide Latest;
    assert latest[|a|] == inserts[k];
    assert DistinctIds(b) by {
      assert forall j | 0 <= j < |b| :: b[j] == latest[|a| + 1 + j];
    }
    DistinctCount(b);
    if |b| < PACKET_ID_CACHE_SIZE {
      assert inserts[k] == entries[|entries| - 1 - |b|];
    }
  }

  class PacketIdCache {
    var entries: seq<Insert>            // in the map's insertion order
    ghost var inserts: seq<Insert>      // every call that answered false

    ghost predicate Valid()
      reads this
    {
      entries == Newest(Latest(inserts), PACKET_ID_CACHE_SIZE)
    }

    constructor ()
      ensures Valid() && inserts == []
    {
      entries, inserts := [], [];
    }

    method CheckAndInsert(id: string, now: int) returns (seen: bool)
      requires Valid()
      modifies this
      ensures Valid()
      ensures seen <==> SeenRecently(old(inserts), id, now)
      ensures inserts == if seen then old(inserts) else old(inserts) + [Insert(id, now)]
    {
      CacheMeetsHistory(inserts, id, now);
      var existing := Find(entries, id);
      if existing < |entries| && now - entries[existing].at < PACKET_ID_TTL_MS {
        return true;
      }
      var e := Insert(id, now);
      LatestDistinct(inserts);
      TrimNext(Latest(inserts), e, PACKET_ID_CACHE_SIZE);
      LatestNext(inserts, e);
      hide Latest, Without, SeenRecently;
      entries := Without(entries, id) + [e];
      ghost var longer := entries;
      while |entries| > PACKET_ID_CACHE_SIZE
        invariant inserts == old(inserts)
        invariant entries == longer || entries == Newest(longer, PACKET_ID_CACHE_SIZE)
        decreases |entries|
      {
        entries := entries[1..];
      }
      inserts := inserts + [e];
      return false;
    }
  }

  // ---- The ring of seen packets ----

  const SEEN_PACKET_CAPACITY := 10000

  /** The last `capacity` additions. */
  function Window(added: seq<string>, capacity: nat): seq<string> {
    if |added| > capacity then added[|added| - capacity..] else added
  }

  ghost predicate Distinct(strings: seq<string>) {
    forall i, j | 0 <= i < j < |strings| :: strings[i] != strings[j]
  }

  ghost function SetOf(strings: seq<string>): set<string> {
    set s | s in strings
  }

  /** A fingerprint is added again only after `capacity` others. */
  ghost predicate SpacedOut(added: seq<string>, capacity: nat) {
    forall i, j | 0 <= i < j < |added| && added[i] == added[j] :: j - i > capacity
  }

  lemma {:induction false} DistinctSetSize(strings: seq<string>)
    requires Distinct(strings)
    ensures |SetOf(strings)| == |strings|
  {
    if strings == [] {
    } else {
      var front, last := strings[..|strings| - 1], strings[|strings| - 1];
      DistinctSetSize(front);
      assert SetOf(strings) == SetOf(front) + {last};
    }
  }

  lemma WindowIsDistinct(added: seq<string>, capacity: nat)
    requires SpacedOut(added, capacity)
    ensures Distinct(Window(added, capacity)) && |SetOf(Window(added, capacity))| == |Window(added, capacity)|
    ensures |added| < capacity ==> |Window(added, capacity)| < capacity
    ensures forall s :: s in SetOf(Window(added, capacity)) <==> s in Window(added, capacity)
  {
    DistinctSetSize(Window(added, capacity));
  }

  lemma NextSpacedOut(added: seq<string>, capacity: nat, fingerprint: string)
    requires SpacedOut(added, capacity) && fingerprint !in Window(added, capacity)
    ensures SpacedOut(added + [fingerprint], capacity)
  {
    var w := Window(added, capacity);
    forall i | |added| - |w| <= i < |added| ensures added[i] != fingerprint {
      assert w[i - (|added| - |w|)] in w;
    }
  }

  /** A full window drops its oldest entry for a new one. */
  lemma NextWindow(added: seq<string>, capacity: nat, fingerprint: string)
    requires capacity > 0 && SpacedOut(added, capacity) && fingerprint !in Window(added, capacity)
    ensures var w, next := Window(added, capacity), Window(added + [fingerprint], capacity);
            if |added| < capacity then next == w + [fingerprint] && SetOf(next) == SetOf(w) + {fingerprint}
            else next == w[1..] + [fingerprint] && SetOf(next) == SetOf(w) - {w[0]} + {fingerprint}
  {
    var w := Window(added, capacity);
    WindowMoves(added, capacity, fingerprint);
    WindowIsDistinct(added, capacity);
    hide Window, SpacedOut;
    if |added| < capacity {
      SetOfNext(w, fingerprint);
    } else {
      SetOfNext(w[1..], fingerprint);
      SetOfRest(w);
    }
  }

  lemma WindowMoves(added: seq<string>, capacity: nat, fingerprint: string)
    requires capacity > 0
    ensures var w, next := Window(added, capacity), Window(added + [fingerprint], capacity);
            if |added| < capacity then next == w + [fingerprint] else w != [] && next == w[1..] + [fingerprint]
  {
  }

  lemma SetOfNext(strings: seq<string>, s: string)
    ensures SetOf(strings + [s]) == SetOf(strings) + {s}
  {
  }

  lemma SetOfRest(strings: seq<string>)
    requires strings != [] && Distinct(strings)
    ensures SetOf(strings[1..]) == SetOf(strings) - {strings[0]}
  {
    assert strings == [strings[0]] + strings[1..];
  }

  /** The ring holds the window, its oldest entry at the cursor once it is full. */
  ghost predicate RingOk(ring: seq<string>, cursor: nat, added: seq<string>) {
    && cursor < |ring|
    && if |added| < |ring| then cursor == |added| && ring[..cursor] == added
       else ring[cursor..] + ring[..cursor] == Window(added, |ring|)
  }

  function Successor(cursor: nat, n: nat): (next: nat)
    requires cursor < n
    ensures next == (cursor + 1) % n
  {
    if cursor + 1 < n then cursor + 1 else 0
  }

  lemma Rotate(ring: seq<string>, cursor: nat, fingerprint: string)
    requires cursor < |ring|
    ensures var after, next := ring[cursor := fingerprint], Successor(cursor, |ring|);
            after[next..] + after[..next] == (ring[cursor..] + ring[..cursor])[1..] + [fingerprint]
    ensures (ring[cursor..] + ring[..cursor])[0] == ring[cursor]
  {
    var after := ring[cursor := fingerprint];
    if cursor + 1 < |ring| {
      assert after[cursor + 1..] == ring[cursor + 1..] && after[..cursor + 1] == ring[..cursor] + [fingerprint];
      assert (ring[cursor..] + ring[..cursor])[1..] == ring[cursor + 1..] + ring[..cursor];
    } else {
      assert after[0..] + after[..0] == ring[..cursor] + [fingerprint];
    }
  }

  lemma NextRing(ring: seq<string>, cursor: nat, added: seq<string>, fingerprint: string)
    requires RingOk(ring, cursor, added)
    requires SpacedOut(added, |ring|) && fingerprint !in Window(added, |ring|)
    ensures |added| >= |ring| ==> Window(added, |ring|) != [] && ring[cursor] == Window(added, |ring|)[0]
    ensures RingOk(ring[cursor := fingerprint], Successor(cursor, |ring|), added + [fingerprint])
  {
    var n := |ring|;
    NextWindow(added, n, fingerprint);
    WindowAmong(added, n);
    hide Window, SpacedOut, SetOf, Successor;
    if |added| >= n {
      Rotate(ring, cursor, fingerprint);
    } else {
      assert ring[cursor := fingerprint][..cursor + 1] == added + [fingerprint];
      WindowAmong(added + [fingerprint], n);
      FilledUp(cursor, n);
    }
  }

  lemma FilledUp(cursor: nat, n: nat)
    requires cursor < n
    ensures Successor(cursor, n) == if cursor + 1 < n then cursor + 1 else 0
  {
  }

  lemma WindowAmong(added: seq<string>, n: nat)
    ensures forall s <- Window(added, n) :: s in added
    ensures |added| == n ==> Window(added, n) == added
    ensures |added| >= n ==> |Window(added, n)| == n
  {
  }

  ghost predicate ShowsWindow(fingerprints: set<string>, ring: seq<string>, cursor: nat, added: seq<string>) {
    && fingerprints == SetOf(Window(added, |ring|))
    && SpacedOut(added, |ring|)
    && (forall s <- added :: s != "")
    && RingOk(ring, cursor, added)
  }

  lemma NextShown(fingerprints: set<string>, ring: seq<string>, cursor: nat, added: seq<string>, fingerprint: string)
    requires ShowsWindow(fingerprints, ring, cursor, added) && fingerprint !in fingerprints && fingerprint != ""
    ensures cursor < |ring|
    ensures var kept := if |fingerprints| >= |ring| then fingerprints - {ring[cursor]} else fingerprints;
            ShowsWindow(kept + {fingerprint}, ring[cursor := fingerprint], Successor(cursor, |ring|),
              added + [fingerprint])
    ensures |fingerprints| >= |ring| ==> ring[cursor] != ""
  {
    hide RingOk, SpacedOut, Window, SetOf, Successor;
    var n := |ring|;
    assert cursor < n by { RingBound(ring, cursor, added); }
    WindowIsDistinct(added, n);
    NextSpacedOut(added, n, fingerprint);
    NextWindow(added, n, fingerprint);
    NextRing(ring, cursor, added, fingerprint);
    WindowAmong(added, n);
    if |added| >= n {
      assert ring[cursor] in Window(added, n);
    }
  }

  lemma RingBound(ring: seq<string>, cursor: nat, added: seq<string>)
    requires RingOk(ring, cursor, added)
    ensures cursor < |ring|
  {
  }

  lemma ShownMeansInWindow(fingerprints: set<string>, ring: seq<string>, cursor: nat, added: seq<string>)
    requires ShowsWindow(fingerprints, ring, cursor, added)
    ensures forall s :: s in fingerprints <==> s in Window(added, |ring|)
  {
  }

  class SeenPacketSet {
    const capacity: nat
    const ring: array<string>
    var fingerprints: set<string>
    var cursor: nat
    ghost var added: seq<string>        // every fingerprint answered false, in order

    ghost predicate Valid()
      reads this, ring
    {
      capacity > 0 && ring.Length == capacity && cursor < capacity && ShowsWindow(fingerprints, ring[..], cursor, added)
    }

    constructor (size: nat)
      requires size > 0
      ensures Valid() && added == [] && capacity == size
    {
      capacity, ring, fingerprints, cursor, added := size, new string[size](_ => ""), {}, 0, [];
    }

    /** True exactly for one of the last `capacity` additions. */
    method TestAndAdd(fingerprint: string) returns (already: bool)
      requires Valid() && fingerprint != ""
      modifies this, ring
      ensures Valid()
      ensures already <==> fingerprint in Window(old(added), capacity)
      ensures added == if already then old(added) else old(added) + [fingerprint]
    {
      hide ShowsWindow, Window;
      ShownMeansInWindow(fingerprints, ring[..], cursor, added);
      if fingerprint in fingerprints {
        return true;
      }
      ghost var before := ring[..];
      NextShown(fingerprints, before, cursor, added, fingerprint);
      if |fingerprints| >= capacity {
        var evict := ring[cursor];
        if evict != "" {
          fingerprints := fingerprints - {evict};
        }
      }
      ring[cursor] := fingerprint;
      assert ring[..] == before[cursor := fingerprint];
      fingerprints := fingerprints + {fingerprint};
      cursor := (cursor + 1) % capacity;
      added := added + [fingerprint];
      return false;
    }

    /** A packet is relayed when it may still travel and its fingerprint is new to the window. */
    method ShouldRelay(ttl: int, fingerprint: string) returns (relay: bool)
      requires Valid() && fingerprint != ""
      modifies this, ring
      ensures Valid()
      ensures relay <==> ttl > 0 && fingerprint !in Window(old(added), capacity)
      ensures added == if relay then old(added) + [fingerprint] else old(added)
    {
      if ttl <= 0 {
        return false;
      }
      var alreadySeen := TestAndAdd(fingerprint);
      return !alreadySeen;
    }
  }
}
