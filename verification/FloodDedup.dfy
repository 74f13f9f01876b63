/** Which copies of a flooded packet one relay acts on: `handleFrame` in `node/src/federation.ts` with its id cache. */
module FloodDedup {
  import opened DedupFilters

  /** A copy of a flooded packet reaching the relay, with the count it carries. */
  datatype Arrival = Arrival(id: string, forwardCount: nat, at: int)

  /** What the packet-id cache has inserted: it is asked before the count is looked at. */
  ghost function Inserts(arrivals: seq<Arrival>): seq<Insert> {
    if arrivals == [] then [] else
    var before, a := Inserts(arrivals[..|arrivals| - 1]), arrivals[|arrivals| - 1];
    if SeenRecently(before, a.id, a.at) then before else before + [Insert(a.id, a.at)]
  }

  /** The copy passes both checks and is delivered, stored or sent on. */
  ghost predicate ActedOn(arrivals: seq<Arrival>, i: nat, maxHops: nat)
    requires i < |arrivals|
  {
    !SeenRecently(Inserts(arrivals[..i]), arrivals[i].id, arrivals[i].at) && arrivals[i].forwardCount < maxHops
  }

  ghost function IdsBetween(arrivals: seq<Arrival>, i: nat, j: nat): set<string>
    requires i <= j <= |arrivals|
  {
    set k | i <= k < j :: arrivals[k].id
  }

  /** Until the window is over, the copy that came first is the last insertion of its id. */
  lemma {:induction false} StaysInserted(arrivals: seq<Arrival>, i: nat, j: nat) returns (k: nat)
    requires i < j <= |arrivals|
    requires forall m | 0 <= m < i :: arrivals[m].id != arrivals[i].id
    requires forall m | i <= m < j :: arrivals[m].at - arrivals[i].at < PACKET_ID_TTL_MS
    requires |IdsBetween(arrivals, i, j)| <= PACKET_ID_CACHE_SIZE
    ensures var inserts := Inserts(arrivals[..j]);
            && LastAt(inserts, k, arrivals[i].id)
            && inserts[k].at == arrivals[i].at
            && IdsOf(inserts[k + 1..]) <= IdsBetween(arrivals, i, j) - {arrivals[i].id}
  {
    if j == i + 1 {
      hide *;
      k := FirstInserted(arrivals, i);
    } else {
      BetweenGrows(arrivals, i, j - 1);
      k := StaysInserted(arrivals, i, j - 1);
      hide *;
      InsertsNext(arrivals, j - 1);
      StillSeen(Inserts(arrivals[..j - 1]), k, arrivals, i, j - 1);
      InsertedAfter(Inserts(arrivals[..j - 1]), k, arrivals[i].id, arrivals[j - 1]);
    }
  }

  lemma FirstInserted(arrivals: seq<Arrival>, i: nat) returns (k: nat)
    requires i < |arrivals| && forall m | 0 <= m < i :: arrivals[m].id != arrivals[i].id
    ensures var inserts := Inserts(arrivals[..i + 1]);
            && LastAt(inserts, k, arrivals[i].id)
            && inserts[k].at == arrivals[i].at
            && IdsOf(inserts[k + 1..]) == {}
  {
    InsertsNext(arrivals, i);
    NeverInserted(arrivals[..i], arrivals[i].id);
    k := |Inserts(arrivals[..i])|;
    hide SeenRecently, Inserts;
    assert Inserts(arrivals[..i + 1])[k + 1..] == [];
  }

  function Next(inserts: seq<Insert>, a: Arrival, seen: bool): seq<Insert> {
    if seen then inserts else inserts + [Insert(a.id, a.at)]
  }

  lemma InsertsNext(arrivals: seq<Arrival>, j: nat)
    requires j < |arrivals|
    ensures var before, a := Inserts(arrivals[..j]), arrivals[j];
            Inserts(arrivals[..j + 1]) == Next(before, a, SeenRecently(before, a.id, a.at))
  {
    assert arrivals[..j + 1][..j] == arrivals[..j] && arrivals[..j + 1][j] == arrivals[j];
  }

  lemma InsertedAfter(inserts: seq<Insert>, k: nat, id: string, a: Arrival)
    requires LastAt(inserts, k, id) && (a.id == id ==> SeenRecently(inserts, a.id, a.at))
    ensures var after := Next(inserts, a, SeenRecently(inserts, a.id, a.at));
            && LastAt(after, k, id) && after[k] == inserts[k]
            && IdsOf(after[k + 1..]) <= IdsOf(inserts[k + 1..]) + ({a.id} - {id})
  {
    var e := Insert(a.id, a.at);
    assert (inserts + [e])[k + 1..] == inserts[k + 1..] + [e];
    IdsOfNext(inserts[k + 1..], e);
  }

  lemma BetweenGrows(arrivals: seq<Arrival>, i: nat, j: nat)
    requires i <= j < |arrivals|
    ensures IdsBetween(arrivals, i, j + 1) == IdsBetween(arrivals, i, j) + {arrivals[j].id}
    ensures |IdsBetween(arrivals, i, j)| <= |IdsBetween(arrivals, i, j + 1)|
  {
    assert IdsBetween(arrivals, i, j + 1) == IdsBetween(arrivals, i, j) + {arrivals[j].id};
    SubsetSize(IdsBetween(arrivals, i, j), IdsBetween(arrivals, i, j + 1));
  }

  lemma {:induction false} NeverInserted(arrivals: seq<Arrival>, id: string)
    requires forall a <- arrivals :: a.id != id
    ensures forall e <- Inserts(arrivals) :: e.id != id
    ensures forall now :: !SeenRecently(Inserts(arrivals), id, now)
  {
    if arrivals == [] {
    } else {
      NeverInserted(arrivals[..|arrivals| - 1], id);
    }
  }

  lemma StillSeen(inserts: seq<Insert>, k: nat, arrivals: seq<Arrival>, i: nat, j: nat)
    requires i < j < |arrivals| && LastAt(inserts, k, arrivals[i].id) && inserts[k].at == arrivals[i].at
    requires IdsOf(inserts[k + 1..]) <= IdsBetween(arrivals, i, j) - {arrivals[i].id}
    requires |IdsBetween(arrivals, i, j)| <= PACKET_ID_CACHE_SIZE && arrivals[j].at - arrivals[i].at < PACKET_ID_TTL_MS
    ensures SeenRecently(inserts, arrivals[i].id, arrivals[j].at)
  {
    var id := arrivals[i].id;
    assert id in IdsBetween(arrivals, i, j);
    SubsetSize(IdsOf(inserts[k + 1..]), IdsBetween(arrivals, i, j) - {id});
  }

  lemma {:induction false} SubsetSize(a: set<string>, b: set<string>)
    requires a <= b
    ensures |a| <= |b|
  {
    if a != {} {
      var x :| x in a;
      SubsetSize(a - {x}, b - {x});
    }
  }

  /**
    Within the cache's window the first copy of a packet decides alone: it is acted on exactly when its count is below
    the limit, and no later copy ever is. So a packet whose first copy arrives exhausted is lost at this relay, even
    when a copy that came a shorter way is next.
   */
  lemma FirstCopyDecides(arrivals: seq<Arrival>, i: nat, j: nat, maxHops: nat)
    requires i < j < |arrivals| && arrivals[j].id == arrivals[i].id
    requires forall m | 0 <= m < i :: arrivals[m].id != arrivals[i].id
    requires forall m | i <= m <= j :: arrivals[m].at - arrivals[i].at < PACKET_ID_TTL_MS
    requires |IdsBetween(arrivals, i, j)| <= PACKET_ID_CACHE_SIZE
    ensures ActedOn(arrivals, i, maxHops) <==> arrivals[i].forwardCount < maxHops
    ensures !ActedOn(arrivals, j, maxHops)
  {
    forall a <- arrivals[..i] ensures a.id != arrivals[i].id {
    }
    NeverInserted(arrivals[..i], arrivals[i].id);
    var k := StaysInserted(arrivals, i, j);
    StillSeen(Inserts(arrivals[..j]), k, arrivals, i, j);
  }
}
