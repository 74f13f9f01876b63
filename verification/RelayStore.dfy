/**
  The store-and-forward store of `src/relay/index.ts`: blobs by id, an index by destination, insertion order and a byte
  count.
 */
module RelayStore {
  import opened Wrappers

  type DestHash = seq<int>

  datatype Blob = Blob(id: string, destHash: DestHash, encryptedPayload: seq<int>, receivedAt: int, ttlHours: int)

  function BlobByteSize(b: Blob): nat {
    |b.encryptedPayload| + |b.destHash| + 2 * |b.id| + 32
  }

  function Total(blobs: seq<Blob>): nat {
    if blobs == [] then 0 else BlobByteSize(blobs[0]) + Total(blobs[1..])
  }

  function Ids(blobs: seq<Blob>): seq<string> {
    seq(|blobs|, i requires 0 <= i < |blobs| => blobs[i].id)
  }

  ghost predicate DistinctIds(blobs: seq<Blob>) {
    forall i, j | 0 <= i < j < |blobs| :: blobs[i].id != blobs[j].id
  }

  // ---- Selections ----

  function Filter(blobs: seq<Blob>, p: Blob -> bool): seq<Blob> {
    if blobs == [] then [] else (if p(blobs[0]) then [blobs[0]] else []) + Filter(blobs[1..], p)
  }

  function BoundFor(d: DestHash): Blob -> bool {
    (b: Blob) => b.destHash == d
  }

  function Elsewhere(d: DestHash): Blob -> bool {
    (b: Blob) => b.destHash != d
  }

  function OtherThan(id: string): Blob -> bool {
    (b: Blob) => b.id != id
  }

  predicate IsExpired(b: Blob, now: int) {
    now >= b.receivedAt + b.ttlHours * 3600000
  }

  function Live(now: int): Blob -> bool {
    (b: Blob) => !IsExpired(b, now)
  }

  /** `Set.delete` on ids in insertion order. */
  function Without(ids: seq<string>, id: string): seq<string> {
    if ids == [] then [] else (if ids[0] == id then [] else [ids[0]]) + Without(ids[1..], id)
  }

  lemma FilterCons(b: Blob, rest: seq<Blob>, p: Blob -> bool)
    ensures Filter([b] + rest, p) == (if p(b) then [b] else []) + Filter(rest, p)
  {
    assert ([b] + rest)[1..] == rest;
  }

  lemma Uncons<T>(a: seq<T>, b: seq<T>)
    requires a != []
    ensures a == [a[0]] + a[1..] && a + b == [a[0]] + (a[1..] + b)
  {
  }

  lemma {:induction false} FilterConcat(a: seq<Blob>, b: seq<Blob>, p: Blob -> bool)
    ensures Filter(a + b, p) == Filter(a, p) + Filter(b, p)
  {
    if a == [] {
      assert a + b == b;
    } else {
      hide *;
      Uncons(a, b);
      FilterCons(a[0], a[1..], p);
      FilterCons(a[0], a[1..] + b, p);
      FilterConcat(a[1..], b, p);
      assert (if p(a[0]) then [a[0]] else []) + (Filter(a[1..], p) + Filter(b, p)) ==
             (if p(a[0]) then [a[0]] else []) + Filter(a[1..], p) + Filter(b, p);
    }
  }

  lemma {:induction false} FilterAll(blobs: seq<Blob>, p: Blob -> bool)
    requires forall b <- blobs :: p(b)
    ensures Filter(blobs, p) == blobs
  {
    if blobs == [] {
    } else {
      assert blobs[0] in blobs && forall b <- blobs[1..] :: b in blobs;
      FilterAll(blobs[1..], p);
    }
  }

  lemma {:induction false} FilterNone(blobs: seq<Blob>, p: Blob -> bool)
    requires forall b <- blobs :: !p(b)
    ensures Filter(blobs, p) == []
  {
    if blobs == [] {
    } else {
      assert blobs[0] in blobs && forall b <- blobs[1..] :: b in blobs;
      FilterNone(blobs[1..], p);
    }
  }

  lemma {:induction false} FilterElements(blobs: seq<Blob>, p: Blob -> bool)
    ensures forall b :: b in Filter(blobs, p) <==> b in blobs && p(b)
  {
    if blobs == [] {
    } else {
      FilterElements(blobs[1..], p);
      assert blobs == [blobs[0]] + blobs[1..];
    }
  }

  lemma {:induction false} FilterDistinct(blobs: seq<Blob>, p: Blob -> bool)
    requires DistinctIds(blobs)
    ensures DistinctIds(Filter(blobs, p))
  {
    if blobs == [] {
    } else {
      FilterDistinct(blobs[1..], p);
      FilterElements(blobs[1..], p);
      var rest := Filter(blobs[1..], p);
      forall i | 0 <= i < |rest| ensures rest[i].id != blobs[0].id {
        assert rest[i] in blobs[1..];
      }
    }
  }

  lemma {:induction false} TotalConcat(a: seq<Blob>, b: seq<Blob>)
    ensures Total(a + b) == Total(a) + Total(b)
  {
    if a == [] {
      assert a + b == b;
    } else {
      TotalConcat(a[1..], b);
      assert (a + b)[1..] == a[1..] + b;
    }
  }

  lemma {:induction false} WithoutAbsent(ids: seq<string>, id: string)
    requires id !in ids
    ensures Without(ids, id) == ids
  {
    if ids == [] {
    } else {
      WithoutAbsent(ids[1..], id);
    }
  }

  lemma WithoutCons(x: string, rest: seq<string>, id: string)
    ensures Without([x] + rest, id) == (if x == id then [] else [x]) + Without(rest, id)
  {
    assert ([x] + rest)[1..] == rest;
  }

  lemma {:induction false} WithoutConcat(a: seq<string>, b: seq<string>, id: string)
    ensures Without(a + b, id) == Without(a, id) + Without(b, id)
  {
    if a == [] {
      assert a + b == b;
    } else {
      hide *;
      Uncons(a, b);
      WithoutCons(a[0], a[1..], id);
      WithoutCons(a[0], a[1..] + b, id);
      WithoutConcat(a[1..], b, id);
      assert (if a[0] == id then [] else [a[0]]) + (Without(a[1..], id) + Without(b, id)) ==
             (if a[0] == id then [] else [a[0]]) + Without(a[1..], id) + Without(b, id);
    }
  }

  // ---- Equal views ----

  type Blobs = map<string, Blob>
  type DestIndex = map<DestHash, seq<string>>

  ghost predicate BlobsOk(contents: seq<Blob>, blobs: Blobs) {
    && (forall b <- contents :: b.id in blobs && blobs[b.id] == b)
    && (forall id <- blobs :: blobs[id] in contents && blobs[id].id == id)
  }

  /** A destination's bucket lists its blobs, and there is none for a destination without blobs. */
  ghost predicate BucketOk(contents: seq<Blob>, destIndex: DestIndex, d: DestHash) {
    var ids := Ids(Filter(contents, BoundFor(d)));
    if ids == [] then d !in destIndex else d in destIndex && destIndex[d] == ids
  }

  /** The stored blobs, oldest first, are what every view shows. */
  ghost predicate Views(contents: seq<Blob>, blobs: Blobs, destIndex: DestIndex, insertionOrder: seq<string>,
                        bytes: int) {
    && DistinctIds(contents)
    && insertionOrder == Ids(contents)
    && BlobsOk(contents, blobs)
    && (forall d :: BucketOk(contents, destIndex, d))
    && bytes == Total(contents)
  }

  function Removed(destIndex: DestIndex, d: DestHash, id: string): DestIndex {
    if d !in destIndex then destIndex else
    var rest := Without(destIndex[d], id);
    if rest == [] then destIndex - {d} else destIndex[d := rest]
  }

  function Added(destIndex: DestIndex, d: DestHash, id: string): DestIndex {
    var ids := if d in destIndex then destIndex[d] else [];
    destIndex[d := if id in ids then ids else ids + [id]]
  }

  // ---- Taking one blob out from between others ----

  lemma FilterAround(front: seq<Blob>, b: Blob, back: seq<Blob>, p: Blob -> bool)
    ensures Filter(front + [b] + back, p) == Filter(front, p) + (if p(b) then [b] else []) + Filter(back, p)
    ensures Filter(front + back, p) == Filter(front, p) + Filter(back, p)
  {
    FilterConcat(front + [b], back, p);
    FilterConcat(front, [b], p);
    FilterConcat(front, back, p);
    assert Filter([b], p) == if p(b) then [b] else [];
  }

  lemma DistinctAround(front: seq<Blob>, b: Blob, back: seq<Blob>)
    requires DistinctIds(front + [b] + back)
    ensures forall x <- front :: x.id != b.id
    ensures forall x <- back :: x.id != b.id
    ensures DistinctIds(front + back)
  {
    var all := front + [b] + back;
    forall i | 0 <= i < |front| ensures front[i].id != b.id {
      assert all[i] == front[i] && all[|front|] == b;
    }
    forall i | 0 <= i < |back| ensures back[i].id != b.id {
      assert all[|front| + 1 + i] == back[i] && all[|front|] == b;
    }
    var rest := front + back;
    forall i, j | 0 <= i < j < |rest| ensures rest[i].id != rest[j].id {
      assert rest[i] == all[if i < |front| then i else i + 1] && rest[j] == all[if j < |front| then j else j + 1];
    }
  }

  lemma RemovedFromList(front: seq<Blob>, b: Blob, back: seq<Blob>)
    requires DistinctIds(front + [b] + back)
    ensures Filter(front + [b] + back, OtherThan(b.id)) == front + back
  {
    hide DistinctIds, Filter;
    var p := OtherThan(b.id);
    DistinctAround(front, b, back);
    FilterAround(front, b, back, p);
    FilterAll(front, p);
    FilterAll(back, p);
    assert front + [] + back == front + back;
  }

  lemma NotAmong(some: seq<Blob>, all: seq<Blob>, id: string)
    requires (forall b <- some :: b in all) && forall b <- all :: b.id != id
    ensures id !in Ids(some)
  {
    forall i | 0 <= i < |some| ensures Ids(some)[i] != id {
      assert some[i] in all;
    }
  }

  lemma WithoutAround(front: seq<string>, id: string, back: seq<string>)
    requires id !in front && id !in back
    ensures Without(front + [id] + back, id) == front + back
  {
    assert Without([id], id) == [];
    hide Without;
    WithoutConcat(front + [id], back, id);
    WithoutConcat(front, [id], id);
    WithoutAbsent(front, id);
    WithoutAbsent(back, id);
    assert front + [] == front;
  }

  lemma IdsAround(f: seq<Blob>, b: Blob, k: seq<Blob>)
    ensures Ids(f + [b] + k) == Ids(f) + [b.id] + Ids(k) && Ids(f + k) == Ids(f) + Ids(k)
    ensures f + [] + k == f + k
  {
  }

  lemma NotInSelection(all: seq<Blob>, p: Blob -> bool, id: string)
    requires forall b <- all :: b.id != id
    ensures id !in Ids(Filter(all, p))
  {
    FilterElements(all, p);
    NotAmong(Filter(all, p), all, id);
  }

  /** The bucket's list of ids before and after. */
  lemma BucketIds(front: seq<Blob>, b: Blob, back: seq<Blob>, d: DestHash)
    requires DistinctIds(front + [b] + back)
    ensures var before, after := Ids(Filter(front + [b] + back, BoundFor(d))), Ids(Filter(front + back, BoundFor(d)));
            if b.destHash == d then before != [] && after == Without(before, b.id) else after == before
  {
    hide DistinctIds, Filter, Without, Ids;
    var p := BoundFor(d);
    DistinctAround(front, b, back);
    FilterAround(front, b, back, p);
    IdsAround(Filter(front, p), b, Filter(back, p));
    if b.destHash == d {
      NotInSelection(front, p, b.id);
      NotInSelection(back, p, b.id);
      WithoutAround(Ids(Filter(front, p)), b.id, Ids(Filter(back, p)));
    }
  }

  lemma RemovedFromBucket(front: seq<Blob>, b: Blob, back: seq<Blob>, destIndex: DestIndex, d: DestHash)
    requires DistinctIds(front + [b] + back) && BucketOk(front + [b] + back, destIndex, d)
    ensures BucketOk(front + back, Removed(destIndex, b.destHash, b.id), d)
  {
    hide Filter, Without, Ids, DistinctIds;
    BucketIds(front, b, back, d);
  }

  lemma RemovedFromBlobs(front: seq<Blob>, b: Blob, back: seq<Blob>, blobs: Blobs)
    requires DistinctIds(front + [b] + back) && BlobsOk(front + [b] + back, blobs)
    ensures BlobsOk(front + back, blobs - {b.id})
  {
    DistinctAround(front, b, back);
    hide DistinctIds;
    var all, rest := front + [b] + back, front + back;
    assert forall x :: x in all <==> x == b || x in rest by {
      assert forall x :: x in all <==> x in front || x == b || x in back;
    }
  }

  lemma RemovedTotal(front: seq<Blob>, b: Blob, back: seq<Blob>)
    ensures Total(front + [b] + back) == Total(front + back) + BlobByteSize(b)
  {
    TotalConcat(front + [b], back);
    TotalConcat(front, [b]);
    TotalConcat(front, back);
  }

  lemma RemovedFromViews(front: seq<Blob>, b: Blob, back: seq<Blob>, blobs: Blobs, destIndex: DestIndex,
                         order: seq<string>, bytes: int)
    requires Views(front + [b] + back, blobs, destIndex, order, bytes)
    ensures order == Ids(front) + [b.id] + Ids(back)
    ensures Views(front + back, blobs - {b.id}, Removed(destIndex, b.destHash, b.id), Ids(front) + Ids(back),
            bytes - BlobByteSize(b))
  {
    var all, rest := front + [b] + back, front + back;
    hide BucketOk, Total, Removed, DistinctIds, BlobsOk, Filter;
    DistinctAround(front, b, back);
    RemovedTotal(front, b, back);
    RemovedFromBlobs(front, b, back, blobs);
    forall d ensures BucketOk(rest, Removed(destIndex, b.destHash, b.id), d) {
      RemovedFromBucket(front, b, back, destIndex, d);
    }
    assert Ids(all) == Ids(front) + [b.id] + Ids(back) && Ids(rest) == Ids(front) + Ids(back);
  }

  // ---- Adding one ----

  lemma AddedToBucket(contents: seq<Blob>, b: Blob, destIndex: DestIndex, d: DestHash)
    requires BucketOk(contents, destIndex, d) && forall x <- contents :: x.id != b.id
    ensures BucketOk(contents + [b], Added(destIndex, b.destHash, b.id), d)
  {
    var p := BoundFor(d);
    FilterElements(contents, p);
    NotAmong(Filter(contents, p), contents, b.id);
    FilterConcat(contents, [b], p);
    assert Ids(Filter(contents, p) + [b]) == Ids(Filter(contents, p)) + [b.id];
    assert Filter([b], p) == if b.destHash == d then [b] else [];
    assert Filter(contents, p) + [] == Filter(contents, p);
  }

  lemma AddedToViews(contents: seq<Blob>, b: Blob, blobs: Blobs, destIndex: DestIndex, order: seq<string>, bytes: int)
    requires Views(contents, blobs, destIndex, order, bytes) && b.id !in blobs
    ensures Views(contents + [b], blobs[b.id := b], Added(destIndex, b.destHash, b.id), order + [b.id],
            bytes + BlobByteSize(b))
  {
    var all := contents + [b];
    TotalConcat(contents, [b]);
    assert Total([b]) == BlobByteSize(b);
    assert Ids(all) == order + [b.id];
    assert forall x <- contents :: x.id != b.id;
    hide BucketOk, Total, Added, Filter;
    forall d ensures BucketOk(all, Added(destIndex, b.destHash, b.id), d) {
      AddedToBucket(contents, b, destIndex, d);
    }
    assert forall x :: x in all <==> x == b || x in contents;
  }

  // ---- Eviction ----

  /** How many of the oldest blobs go to make room. */
  function Evictions(contents: seq<Blob>, size: nat, capacity: nat): nat {
    if contents == [] || Total(contents) + size <= capacity then 0 else 1 + Evictions(contents[1..], size, capacity)
  }

  /** Exactly the shortest oldest prefix that makes room, or everything when even that is not enough. */
  lemma {:induction false} EvictionsAreShortest(contents: seq<Blob>, size: nat, capacity: nat)
    ensures var k := Evictions(contents, size, capacity);
            && k <= |contents|
            && (size <= capacity ==> Total(contents[k..]) + size <= capacity)
            && (size > capacity ==> k == |contents|)
            && (forall j | 0 <= j < k :: Total(contents[j..]) + size > capacity)
  {
    if contents != [] && Total(contents) + size > capacity {
      EvictionsAreShortest(contents[1..], size, capacity);
      var k := Evictions(contents, size, capacity);
      assert contents[1..][k - 1..] == contents[k..];
      forall j | 0 <= j < k ensures Total(contents[j..]) + size > capacity {
        if j > 0 {
          assert contents[1..][j - 1..] == contents[j..];
        } else {
          assert contents[0..] == contents;
        }
      }
    } else {
      assert contents[0..] == contents;
    }
  }

  /**
    What storing a blob leaves: the survivors of the eviction, without an older blob of the same id, then the new blob.
   */
  function Stored(contents: seq<Blob>, b: Blob, capacity: nat): seq<Blob> {
    var size := BlobByteSize(b);
    EvictionsAreShortest(contents, size, capacity);
    if size > capacity then [] else Filter(contents[Evictions(contents, size, capacity)..], OtherThan(b.id)) + [b]
  }

  /** A stored blob goes last; of the older ones exactly those survive that were not evicted and have another id. */
  lemma StoreKeepsNewest(contents: seq<Blob>, b: Blob, capacity: nat, i: nat)
    requires DistinctIds(contents) && i < |contents| && BlobByteSize(b) <= capacity
    ensures var after, k := Stored(contents, b, capacity), Evictions(contents, BlobByteSize(b), capacity);
            && after != [] && after[|after| - 1] == b
            && (contents[i] in after <==> contents[i] == b || (i >= k && contents[i].id != b.id))
  {
    var k := Evictions(contents, BlobByteSize(b), capacity);
    EvictionsAreShortest(contents, BlobByteSize(b), capacity);
    FilterElements(contents[k..], OtherThan(b.id));
    if i >= k {
      assert contents[k..][i - k] == contents[i];
    }
  }

  // ---- The store ----

  function IndexOf(ids: seq<string>, id: string): (i: nat)
    ensures i <= |ids|
    ensures if id in ids then i < |ids| && ids[i] == id else i == |ids|
  {
    if ids == [] || ids[0] == id then 0 else 1 + IndexOf(ids[1..], id)
  }

  function NotAmongIds(ids: seq<string>): Blob -> bool {
    (b: Blob) => b.id !in ids
  }

  lemma {:induction false} FilterTwice(blobs: seq<Blob>, p: Blob -> bool, q: Blob -> bool, r: Blob -> bool)
    requires forall b <- blobs :: r(b) <==> p(b) && q(b)
    ensures Filter(Filter(blobs, p), q) == Filter(blobs, r)
  {
    if blobs == [] {
    } else {
      assert blobs[0] in blobs && forall b <- blobs[1..] :: b in blobs;
      FilterTwice(blobs[1..], p, q, r);
      FilterConcat(if p(blobs[0]) then [blobs[0]] else [], Filter(blobs[1..], p), q);
    }
  }

  lemma {:induction false} FilterSame(blobs: seq<Blob>, p: Blob -> bool, q: Blob -> bool)
    requires forall b <- blobs :: p(b) <==> q(b)
    ensures Filter(blobs, p) == Filter(blobs, q)
  {
    if blobs == [] {
    } else {
      assert blobs[0] in blobs && forall b <- blobs[1..] :: b in blobs;
      FilterSame(blobs[1..], p, q);
    }
  }

  /** `indexOf` and `splice`. */
  function Spliced(order: seq<string>, id: string): seq<string> {
    var i := IndexOf(order, id);
    if i < |order| then order[..i] + order[i + 1..] else order
  }

  lemma SplicedAround(front: seq<string>, id: string, back: seq<string>)
    requires id !in front
    ensures Spliced(front + [id] + back, id) == front + back
  {
    var all := front + [id] + back;
    assert all[|front|] == id && all[..|front|] == front && all[|front| + 1..] == back;
    FirstIndex(all, id, |front|);
    hide IndexOf;
  }

  lemma {:induction false} FirstIndex(ids: seq<string>, id: string, i: nat)
    requires i < |ids| && ids[i] == id && id !in ids[..i]
    ensures IndexOf(ids, id) == i
  {
    if i == 0 {
    } else {
      assert ids[0] in ids[..i] && ids[1..][..i - 1] == ids[..i][1..];
      FirstIndex(ids[1..], id, i - 1);
    }
  }

  /** Removing a blob from every view. */
  lemma RemovalKeepsViews(contents: seq<Blob>, blobs: Blobs, destIndex: DestIndex, order: seq<string>, bytes: int,
                          id: string)
    requires Views(contents, blobs, destIndex, order, bytes) && id in blobs
    ensures var b := blobs[id];
            Views(Filter(contents, OtherThan(id)), blobs - {id}, Removed(destIndex, b.destHash, id), Spliced(order, id),
              bytes - BlobByteSize(b))
  {
    var b := blobs[id];
    var i :| 0 <= i < |contents| && contents[i] == b;
    var front, back := contents[..i], contents[i + 1..];
    assert contents == front + [b] + back && b.id == id && DistinctIds(contents);
    DistinctAround(front, b, back);
    NotAmong(front, front, id);
    hide *;
    RemovedFromViews(front, b, back, blobs, destIndex, order, bytes);
    RemovedFromList(front, b, back);
    SplicedAround(Ids(front), id, Ids(back));
  }

  lemma AbsentFromViews(contents: seq<Blob>, blobs: Blobs, destIndex: DestIndex, order: seq<string>, bytes: int,
                        id: string)
    requires Views(contents, blobs, destIndex, order, bytes) && id !in blobs
    ensures Filter(contents, OtherThan(id)) == contents
  {
    FilterAll(contents, OtherThan(id));
  }

  method Collect(ids: seq<string>, blobs: Blobs, ghost bound: seq<Blob>) returns (results: seq<Blob>)
    requires |ids| == |bound| && forall i | 0 <= i < |bound| :: ids[i] in blobs && blobs[ids[i]] == bound[i]
    ensures results == bound
  {
    results := [];
    var i := 0;
    while i < |ids|
      invariant 0 <= i <= |ids| == |results| + |ids| - i
      invariant forall j | 0 <= j < i :: results[j] == bound[j]
    {
      if ids[i] in blobs {
        results := results + [blobs[ids[i]]];
      }
      i := i + 1;
    }
  }

  class Store {
    const maxStorageBytes: nat
    var blobs: Blobs
    var destIndex: DestIndex
    var insertionOrder: seq<string>
    var currentStorageBytes: int
    ghost var contents: seq<Blob>   // oldest first

    ghost predicate Valid()
      reads this
    {
      Views(contents, blobs, destIndex, insertionOrder, currentStorageBytes) && currentStorageBytes <= maxStorageBytes
    }

    constructor (capacity: nat)
      ensures Valid() && contents == [] && maxStorageBytes == capacity
    {
      maxStorageBytes := capacity;
      blobs, destIndex, insertionOrder, currentStorageBytes, contents := map[], map[], [], 0, [];
    }

    method RemoveBlob(id: string)
      requires Views(contents, blobs, destIndex, insertionOrder, currentStorageBytes)
      modifies this
      ensures Views(contents, blobs, destIndex, insertionOrder, currentStorageBytes)
      ensures contents == Filter(old(contents), OtherThan(id)) && currentStorageBytes <= old(currentStorageBytes)
    {
      hide Views, Filter, Without;
      if id !in blobs {
        AbsentFromViews(contents, blobs, destIndex, insertionOrder, currentStorageBytes, id);
        return;
      }
      RemovalKeepsViews(contents, blobs, destIndex, insertionOrder, currentStorageBytes, id);
      var blob := blobs[id];
      currentStorageBytes := currentStorageBytes - BlobByteSize(blob);
      blobs := blobs - {id};
      if blob.destHash in destIndex {
        var ids := Without(destIndex[blob.destHash], id);
        destIndex := if ids == [] then destIndex - {blob.destHash} else destIndex[blob.destHash := ids];
      }
      var idx := IndexOf(insertionOrder, id);
      if idx < |insertionOrder| {
        insertionOrder := insertionOrder[..idx] + insertionOrder[idx + 1..];
      }
      contents := Filter(contents, OtherThan(id));
    }

    /** False exactly when the blob alone exceeds the capacity, which empties the store. */
    method StoreBlob(blob: Blob) returns (stored: bool)
      requires Valid()
      modifies this
      ensures Valid()
      ensures stored <==> |blob.encryptedPayload| + |blob.destHash| + 2 * |blob.id| + 32 <= maxStorageBytes
      ensures contents == Stored(old(contents), blob, maxStorageBytes)
    {
      hide Views, Filter, Total;
      var size := BlobByteSize(blob);
      ghost var k := 0;
      EvictionsAreShortest(contents, size, maxStorageBytes);
      while currentStorageBytes + size > maxStorageBytes && |insertionOrder| > 0
        invariant Views(contents, blobs, destIndex, insertionOrder, currentStorageBytes) &&
                  currentStorageBytes <= maxStorageBytes
        invariant k <= |old(contents)| && contents == old(contents)[k..]
        invariant Evictions(old(contents), size, maxStorageBytes) == k + Evictions(contents, size, maxStorageBytes)
        decreases |contents|
      {
        OldestFirst(contents, blobs, destIndex, insertionOrder, currentStorageBytes);
        var oldestId := insertionOrder[0];
        RemoveBlob(oldestId);
        k := k + 1;
      }
      OldestFirst(contents, blobs, destIndex, insertionOrder, currentStorageBytes);
      if currentStorageBytes + size > maxStorageBytes {
        return false;
      }
      if blob.id in blobs {
        RemoveBlob(blob.id);
        RemovedIsAbsent(contents, blobs, destIndex, insertionOrder, currentStorageBytes, blob.id);
      } else {
        AbsentFromViews(contents, blobs, destIndex, insertionOrder, currentStorageBytes, blob.id);
      }
      AddedToViews(contents, blob, blobs, destIndex, insertionOrder, currentStorageBytes);
      blobs := blobs[blob.id := blob];
      currentStorageBytes := currentStorageBytes + size;
      insertionOrder := insertionOrder + [blob.id];
      var ids := if blob.destHash in destIndex then destIndex[blob.destHash] else [];
      destIndex := destIndex[blob.destHash := if blob.id in ids then ids else ids + [blob.id]];
      contents := contents + [blob];
      return true;
    }

    method GetBlobs(destHash: DestHash) returns (results: seq<Blob>)
      requires Valid()
      ensures results == Filter(contents, BoundFor(destHash))
    {
      BucketShows(contents, blobs, destIndex, insertionOrder, currentStorageBytes, destHash);
      hide *;
      if destHash !in destIndex {
        return [];
      }
      results := Collect(destIndex[destHash], blobs, Filter(contents, BoundFor(destHash)));
    }

    method RemoveBlobsForDest(destHash: DestHash)
      requires Valid()
      modifies this
      ensures Valid()
      ensures contents == Filter(old(contents), Elsewhere(destHash))
    {
      BucketIsComplete(contents, blobs, destIndex, insertionOrder, currentStorageBytes, destHash);
      if destHash !in destIndex {
        return;
      }
      var ids := destIndex[destHash];
      hide Views, Filter;
      var i := 0;
      while i < |ids|
        invariant Valid()
        invariant 0 <= i <= |ids|
        invariant contents == Filter(old(contents), NotAmongIds(ids[..i]))
      {
        OneMoreId(old(contents), ids, i);
        RemoveBlob(ids[i]);
        i := i + 1;
      }
      assert ids[..i] == ids;
    }

    method PruneExpired(now: int) returns (removed: nat)
      requires Valid()
      modifies this
      ensures Valid()
      ensures contents == Filter(old(contents), Live(now)) && removed == |old(contents)| - |contents|
      ensures forall b :: b in contents <==> b in old(contents) && now - b.receivedAt < b.ttlHours * 3600000
    {
      FilterElements(contents, Live(now));
      removed := 0;
      OldestFirst(contents, blobs, destIndex, insertionOrder, currentStorageBytes);
      PrunedEnds(contents, now);
      hide Views, Filter, PrunedFrom;
      var i := |insertionOrder| - 1;
      while i >= 0
        invariant Valid()
        invariant -1 <= i < |old(contents)|
        invariant contents == PrunedFrom(old(contents), i + 1, now)
        invariant removed == |old(contents)| - |contents|
      {
        PruneStep(old(contents), i, now, contents, blobs, destIndex, insertionOrder, currentStorageBytes);
        var id := insertionOrder[i];
        if id in blobs && IsExpired(blobs[id], now) {
          RemoveBlob(id);
          removed := removed + 1;
        }
        i := i - 1;
      }
    }

    /**
      A peer that announces itself gets everything stored for it, in storing order, and nothing of that stays behind.
     */
    method HandlePresenceAnnouncement(destHash: DestHash, previous: Option<DestHash>) returns (delivered: seq<Blob>)
      requires Valid()
      modifies this
      ensures Valid()
      ensures delivered == Filter(old(contents), BoundFor(destHash)) +
                           (if previous.Some? && previous.value != destHash
                             then Filter(old(contents), BoundFor(previous.value)) else [])
      ensures contents == Filter(old(contents), BoundForNeither(destHash, previous))
    {
      hide Views, Filter;
      delivered := GetBlobs(destHash);
      RemoveBlobsForDest(destHash);
      if previous.Some? && previous.value != destHash {
        FilterTwice(old(contents), Elsewhere(destHash), BoundFor(previous.value), BoundFor(previous.value));
        FilterTwice(old(contents), Elsewhere(destHash), Elsewhere(previous.value), BoundForNeither(destHash, previous));
        var earlier := GetBlobs(previous.value);
        delivered := delivered + earlier;
        RemoveBlobsForDest(previous.value);
      } else {
        FilterSame(old(contents), Elsewhere(destHash), BoundForNeither(destHash, previous));
      }
    }
  }

  function BoundForNeither(destHash: DestHash, previous: Option<DestHash>): Blob -> bool {
    (b: Blob) => b.destHash != destHash && (previous.None? || b.destHash != previous.value)
  }

  lemma OldestFirst(contents: seq<Blob>, blobs: Blobs, destIndex: DestIndex, order: seq<string>, bytes: int)
    requires Views(contents, blobs, destIndex, order, bytes)
    ensures |order| == |contents| && bytes == Total(contents) && Total([]) == 0
    ensures contents != [] ==> order[0] == contents[0].id && Filter(contents, OtherThan(order[0])) == contents[1..]
  {
    if contents != [] {
      assert contents == [] + [contents[0]] + contents[1..];
      RemovedFromList([], contents[0], contents[1..]);
    }
  }

  lemma RemovedIsAbsent(contents: seq<Blob>, blobs: Blobs, destIndex: DestIndex, order: seq<string>, bytes: int,
                        id: string)
    requires Views(contents, blobs, destIndex, order, bytes)
    requires exists before :: contents == Filter(before, OtherThan(id))
    ensures id !in blobs
  {
    var before :| contents == Filter(before, OtherThan(id));
    FilterElements(before, OtherThan(id));
  }

  lemma BucketShows(contents: seq<Blob>, blobs: Blobs, destIndex: DestIndex, order: seq<string>, bytes: int,
                    d: DestHash)
    requires Views(contents, blobs, destIndex, order, bytes)
    ensures var bound := Filter(contents, BoundFor(d));
            if d !in destIndex then bound == []
            else |destIndex[d]| == |bound| &&
                 forall i | 0 <= i < |bound| :: destIndex[d][i] in blobs && blobs[destIndex[d][i]] == bound[i]
  {
    var bound := Filter(contents, BoundFor(d));
    assert BucketOk(contents, destIndex, d);
    FilterElements(contents, BoundFor(d));
    hide Filter;
    assert |Ids(bound)| == |bound|;
    forall i | 0 <= i < |bound| ensures bound[i].id in blobs && blobs[bound[i].id] == bound[i] {
      assert bound[i] in contents;
    }
  }

  lemma OneMoreId(contents: seq<Blob>, ids: seq<string>, i: nat)
    requires i < |ids|
    ensures Filter(Filter(contents, NotAmongIds(ids[..i])), OtherThan(ids[i])) ==
            Filter(contents, NotAmongIds(ids[..i + 1]))
  {
    FilterTwice(contents, NotAmongIds(ids[..i]), OtherThan(ids[i]), NotAmongIds(ids[..i + 1]));
  }

  /** Removing the ids of a bucket removes what is bound for it. */
  lemma BucketIsComplete(contents: seq<Blob>, blobs: Blobs, destIndex: DestIndex, order: seq<string>, bytes: int,
                         d: DestHash)
    requires Views(contents, blobs, destIndex, order, bytes)
    ensures if d in destIndex then Filter(contents, NotAmongIds(destIndex[d])) == Filter(contents, Elsewhere(d))
            else Filter(contents, Elsewhere(d)) == contents
    ensures d in destIndex ==> Filter(contents, NotAmongIds(destIndex[d][..0])) == contents
  {
    assert BucketOk(contents, destIndex, d);
    OnlyElsewhere(contents, d);
    if d in destIndex {
      FilterAll(contents, NotAmongIds(destIndex[d][..0]));
    }
  }

  lemma OnlyElsewhere(contents: seq<Blob>, d: DestHash)
    requires DistinctIds(contents)
    ensures var ids := Ids(Filter(contents, BoundFor(d)));
            && Filter(contents, NotAmongIds(ids)) == Filter(contents, Elsewhere(d))
            && (ids == [] ==> Filter(contents, Elsewhere(d)) == contents)
  {
    var bound := Filter(contents, BoundFor(d));
    FilterElements(contents, BoundFor(d));
    forall b <- contents ensures NotAmongIds(Ids(bound))(b) <==> Elsewhere(d)(b) {
      if b.destHash == d {
        var i :| 0 <= i < |bound| && bound[i] == b;
        assert Ids(bound)[i] == b.id;
      } else if b.id in Ids(bound) {
        var i :| 0 <= i < |bound| && Ids(bound)[i] == b.id;
        assert bound[i] in contents && bound[i].id == b.id;
      }
    }
    FilterSame(contents, NotAmongIds(Ids(bound)), Elsewhere(d));
    if bound == [] {
      FilterAll(contents, Elsewhere(d));
    }
  }

  /** The list once everything expired from position i on is gone. */
  ghost function PrunedFrom(contents: seq<Blob>, i: nat, now: int): seq<Blob>
    requires i <= |contents|
  {
    contents[..i] + Filter(contents[i..], Live(now))
  }

  lemma PrunedEnds(contents: seq<Blob>, now: int)
    ensures PrunedFrom(contents, |contents|, now) == contents
    ensures PrunedFrom(contents, 0, now) == Filter(contents, Live(now))
  {
    assert contents[0..] == contents;
  }

  lemma PrunedOne(before: seq<Blob>, i: nat, now: int)
    requires i < |before|
    ensures var front, b, back := before[..i], before[i], Filter(before[i + 1..], Live(now));
            && PrunedFrom(before, i + 1, now) == front + [b] + back
            && PrunedFrom(before, i, now) == front + (if IsExpired(b, now) then [] else [b]) + back
  {
    assert before[i..][0] == before[i] && before[i..][1..] == before[i + 1..];
  }

  lemma ViewAt(contents: seq<Blob>, blobs: Blobs, destIndex: DestIndex, order: seq<string>, bytes: int, i: nat)
    requires Views(contents, blobs, destIndex, order, bytes) && i < |contents|
    ensures i < |order| && order[i] == contents[i].id && order[i] in blobs && blobs[order[i]] == contents[i]
    ensures DistinctIds(contents)
  {
    assert contents[i] in contents;
  }

  lemma PruneStep(before: seq<Blob>, i: nat, now: int,
                  contents: seq<Blob>, blobs: Blobs, destIndex: DestIndex, order: seq<string>, bytes: int)
    requires i < |before| && contents == PrunedFrom(before, i + 1, now)
    requires Views(contents, blobs, destIndex, order, bytes)
    ensures i < |order| && order[i] == before[i].id && order[i] in blobs && blobs[order[i]] == before[i]
    ensures if IsExpired(before[i], now)
            then PrunedFrom(before, i, now) == Filter(contents, OtherThan(order[i])) &&
              |contents| == |PrunedFrom(before, i, now)| + 1
            else PrunedFrom(before, i, now) == contents
  {
    hide *;
    PrunedOne(before, i, now);
    Middle(before[..i], before[i], Filter(before[i + 1..], Live(now)));
    ViewAt(contents, blobs, destIndex, order, bytes, i);
    RemovedFromList(before[..i], before[i], Filter(before[i + 1..], Live(now)));
  }

  lemma Middle(front: seq<Blob>, b: Blob, back: seq<Blob>)
    ensures (front + [b] + back)[|front|] == b && |front + [b] + back| == |front + back| + 1
    ensures front + [] + back == front + back
  {
  }

  lemma FilterConsCount(b: Blob, rest: seq<Blob>, p: Blob -> bool)
    ensures multiset(Filter([b] + rest, p)) == multiset(Filter(rest, p)) + (if p(b) then multiset{b} else multiset{})
  {
    FilterCons(b, rest, p);
    hide Filter;
    CountCons(b, Filter(rest, p));
    assert [] + Filter(rest, p) == Filter(rest, p);
  }

  lemma {:induction false} FilterPartition(blobs: seq<Blob>, p: Blob -> bool, q: Blob -> bool)
    requires forall b <- blobs :: p(b) != q(b)
    ensures multiset(Filter(blobs, p)) + multiset(Filter(blobs, q)) == multiset(blobs)
  {
    if blobs == [] {
    } else {
      hide *;
      var b, rest := blobs[0], blobs[1..];
      assert b in blobs && forall x <- rest :: x in blobs;
      FilterPartition(rest, p, q);
      Uncons(blobs, []);
      FilterConsCount(b, rest, p);
      FilterConsCount(b, rest, q);
      CountCons(b, rest);
    }
  }

  lemma CountCons(b: Blob, rest: seq<Blob>)
    ensures multiset([b] + rest) == multiset{b} + multiset(rest)
  {
  }

  /** Nothing is lost or duplicated by a delivery. */
  lemma DeliveryConserves(contents: seq<Blob>, destHash: DestHash, previous: Option<DestHash>)
    ensures multiset(Filter(contents, BoundFor(destHash)) +
                     (if previous.Some? && previous.value != destHash
                       then Filter(contents, BoundFor(previous.value)) else [])) +
            multiset(Filter(contents, BoundForNeither(destHash, previous))) == multiset(contents)
  {
    hide Filter;
    FilterPartition(contents, BoundFor(destHash), Elsewhere(destHash));
    if previous.Some? && previous.value != destHash {
      var rest := Filter(contents, Elsewhere(destHash));
      FilterPartition(rest, BoundFor(previous.value), Elsewhere(previous.value));
      FilterTwice(contents, Elsewhere(destHash), BoundFor(previous.value), BoundFor(previous.value));
      FilterTwice(contents, Elsewhere(destHash), Elsewhere(previous.value), BoundForNeither(destHash, previous));
    } else {
      FilterSame(contents, Elsewhere(destHash), BoundForNeither(destHash, previous));
      assert Filter(contents, BoundFor(destHash)) + [] == Filter(contents, BoundFor(destHash));
    }
  }
}
