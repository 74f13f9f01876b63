/** Pagination of the address book, `sendAddrGossip` in `node/src/federation.ts`. */
module GossipFrames {
  import opened Gossip
  import GossipRuns

  const MAX_FRAME_BODY: nat := 8192

  /** UTF-8 length of one record's JSON text. */
  type RecordSize = AddrRecord -> nat

  function TotalSize(size: RecordSize, batch: Frame): nat {
    if batch == [] then 0 else TotalSize(size, batch[..|batch| - 1]) + size(batch[|batch| - 1])
  }

  /** UTF-8 length of `JSON.stringify(batch)`: brackets, records and the commas between them. */
  function JsonLength(size: RecordSize, batch: Frame): nat {
    2 + TotalSize(size, batch) + if |batch| <= 1 then 0 else |batch| - 1
  }

  predicate Overfull(size: RecordSize, batchMax: nat, batch: Frame) {
    |batch| > batchMax || JsonLength(size, batch) > MAX_FRAME_BODY - 16
  }

  /** The record fits a frame of its own. */
  predicate Fits(size: RecordSize, r: AddrRecord) {
    JsonLength(size, [r]) <= MAX_FRAME_BODY - 16
  }

  /** Sending one batch: empty batches and frames over the body limit are not sent. */
  function Flush(size: RecordSize, sent: seq<Frame>, batch: Frame): seq<Frame> {
    if batch == [] || JsonLength(size, batch) > MAX_FRAME_BODY then sent else sent + [batch]
  }

  /** The frames sent and the batch being filled, after some records. */
  function Paged(size: RecordSize, batchMax: nat, records: Frame): (seq<Frame>, Frame) {
    if records == [] then ([], []) else
    var (sent, batch) := Paged(size, batchMax, records[..|records| - 1]);
    var r := records[|records| - 1];
    if !Overfull(size, batchMax, batch + [r]) then (sent, batch + [r])
    else if batch == [] then (sent, batch)
    else (Flush(size, sent, batch), [r])
  }

  function Paginate(size: RecordSize, batchMax: nat, records: Frame): seq<Frame> {
    var (sent, batch) := Paged(size, batchMax, records);
    Flush(size, sent, batch)
  }

  function Pages(size: RecordSize, batchMax: nat): GossipRuns.Framing {
    records => Paginate(size, batchMax, records)
  }

  method SendAddrGossip(size: RecordSize, batchMax: nat, records: Frame) returns (sent: seq<Frame>)
    ensures sent == Paginate(size, batchMax, records)
  {
    sent := [];
    var batch: Frame := [];
    var i := 0;
    while i < |records|
      invariant 0 <= i <= |records|
      invariant (sent, batch) == Paged(size, batchMax, records[..i])
    {
      var r := records[i];
      assert records[..i + 1][..i] == records[..i];
      batch := batch + [r];
      if |batch| > batchMax || JsonLength(size, batch) > MAX_FRAME_BODY - 16 {
        batch := batch[..|batch| - 1];
        if batch != [] {
          sent := Flush(size, sent, batch);
          batch := [r];
        }
      }
      i := i + 1;
    }
    assert records[..i] == records;
    sent := Flush(size, sent, batch);
  }

  // ---- What the frames carry ----

  function Flatten(frames: seq<Frame>): Frame {
    if frames == [] then [] else Flatten(frames[..|frames| - 1]) + frames[|frames| - 1]
  }

  /** `s` is `t` with some records left out. */
  ghost predicate Subsequence(s: Frame, t: Frame) {
    s == [] ||
    (t != [] &&
     (|| (s[|s| - 1] == t[|t| - 1] && Subsequence(s[..|s| - 1], t[..|t| - 1]))
      || Subsequence(s, t[..|t| - 1])))
  }

  function OnlyFitting(size: RecordSize, records: Frame): Frame {
    if records == [] then [] else
    var fitting := OnlyFitting(size, records[..|records| - 1]);
    if Fits(size, records[|records| - 1]) then fitting + [records[|records| - 1]] else fitting
  }

  lemma {:induction false} OnlyFittingAppend(size: RecordSize, s: Frame, t: Frame)
    ensures OnlyFitting(size, s + t) == OnlyFitting(size, s) + OnlyFitting(size, t)
  {
    if t == [] {
      assert s + t == s;
    } else {
      var shorter := t[..|t| - 1];
      OnlyFittingAppend(size, s, shorter);
      assert (s + t)[..|s + t| - 1] == s + shorter;
    }
  }

  lemma {:induction false} SubsequenceDropsLast(s: Frame, r: AddrRecord, t: Frame)
    requires Subsequence(s + [r], t)
    ensures Subsequence(s, t)
    decreases |t|
  {
    assert (s + [r])[..|s|] == s;
    var shorter := t[..|t| - 1];
    if r == t[|t| - 1] && Subsequence(s, shorter) {
    } else {
      SubsequenceDropsLast(s, r, shorter);
    }
  }

  lemma SubsequenceExtends(s: Frame, t: Frame, r: AddrRecord)
    requires Subsequence(s, t)
    ensures Subsequence(s, t + [r]) && Subsequence(s + [r], t + [r])
  {
    assert (s + [r])[..|s|] == s && (t + [r])[..|t|] == t;
  }

  predicate FrameOk(size: RecordSize, batchMax: nat, frame: Frame) {
    frame != [] && |frame| <= batchMax && JsonLength(size, frame) <= MAX_FRAME_BODY
  }

  /** The open batch is within limits, or is one record too large for the filling rule. */
  predicate BatchOk(size: RecordSize, batchMax: nat, batch: Frame) {
    !Overfull(size, batchMax, batch) || (batchMax >= 1 && |batch| == 1 && !Fits(size, batch[0]))
  }

  lemma FlushLosesNothingFitting(size: RecordSize, batchMax: nat, sent: seq<Frame>, batch: Frame, records: Frame)
    requires BatchOk(size, batchMax, batch)
    requires forall f <- sent :: FrameOk(size, batchMax, f)
    requires Subsequence(Flatten(sent) + batch, records)
    ensures var sent' := Flush(size, sent, batch);
            && (forall f <- sent' :: FrameOk(size, batchMax, f))
            && Subsequence(Flatten(sent'), records)
            && OnlyFitting(size, Flatten(sent')) == OnlyFitting(size, Flatten(sent) + batch)
  {
    if batch == [] {
      assert Flatten(sent) + batch == Flatten(sent);
    } else if JsonLength(size, batch) > MAX_FRAME_BODY {
      assert batch == [batch[0]];
      SubsequenceDropsLast(Flatten(sent), batch[0], records);
      OnlyFittingAppend(size, Flatten(sent), batch);
      assert OnlyFitting(size, batch) == [];
    } else {
      assert (sent + [batch])[..|sent|] == sent;
    }
  }

  ghost predicate PagesOk(size: RecordSize, batchMax: nat, sent: seq<Frame>, batch: Frame, records: Frame) {
    && BatchOk(size, batchMax, batch)
    && (forall f <- sent :: FrameOk(size, batchMax, f))
    && Subsequence(Flatten(sent) + batch, records)
    && OnlyFitting(size, Flatten(sent) + batch) == OnlyFitting(size, records)
  }

  lemma JoinBatch(size: RecordSize, batchMax: nat, sent: seq<Frame>, batch: Frame, records: Frame, r: AddrRecord)
    requires PagesOk(size, batchMax, sent, batch, records) && BatchOk(size, batchMax, batch + [r])
    ensures PagesOk(size, batchMax, sent, batch + [r], records + [r])
  {
    assert Flatten(sent) + (batch + [r]) == (Flatten(sent) + batch) + [r];
    SubsequenceExtends(Flatten(sent) + batch, records, r);
    OnlyFittingAppend(size, Flatten(sent) + batch, [r]);
    OnlyFittingAppend(size, records, [r]);
  }

  lemma BatchRules(size: RecordSize, batchMax: nat, batch: Frame, r: AddrRecord)
    requires batchMax >= 1
    ensures BatchOk(size, batchMax, []) && BatchOk(size, batchMax, [] + [r])
    ensures !Overfull(size, batchMax, batch + [r]) ==> BatchOk(size, batchMax, batch + [r])
    ensures [] + [r] == [r]
  {
    assert [r][..0] == [] && TotalSize(size, [r]) == size(r);
    assert [] + [r] == [r];
  }

  lemma {:induction false} PagedKeepsFitting(size: RecordSize, batchMax: nat, records: Frame)
    requires batchMax >= 1
    ensures var (sent, batch) := Paged(size, batchMax, records);
            PagesOk(size, batchMax, sent, batch, records)
  {
    if records == [] {
    } else {
      hide Subsequence, OnlyFitting, Flatten, FrameOk, BatchOk, Overfull, Flush;
      var before, r := records[..|records| - 1], records[|records| - 1];
      PagedKeepsFitting(size, batchMax, before);
      var (sent, batch) := Paged(size, batchMax, before);
      assert records == before + [r];
      BatchRules(size, batchMax, batch, r);
      if !Overfull(size, batchMax, batch + [r]) {
        JoinBatch(size, batchMax, sent, batch, before, r);
      } else if batch == [] {
        SkipOversized(size, batchMax, sent, before, r);
      } else {
        FlushLosesNothingFitting(size, batchMax, sent, batch, before);
        assert Flatten(Flush(size, sent, batch)) + [] == Flatten(Flush(size, sent, batch));
        JoinBatch(size, batchMax, Flush(size, sent, batch), [], before, r);
      }
    }
  }

  lemma SkipOversized(size: RecordSize, batchMax: nat, sent: seq<Frame>, records: Frame, r: AddrRecord)
    requires batchMax >= 1 && PagesOk(size, batchMax, sent, [], records) && Overfull(size, batchMax, [r])
    ensures PagesOk(size, batchMax, sent, [], records + [r])
  {
    SubsequenceExtends(Flatten(sent) + [], records, r);
    OnlyFittingAppend(size, records, [r]);
  }

  /** Every frame is within both limits; the frames carry, in order and without repeats, a part of the
      records that leaves out none that fits a frame of its own. */
  lemma PaginationDropsNothingFitting(size: RecordSize, batchMax: nat, records: Frame)
    requires batchMax >= 1
    ensures var frames := Paginate(size, batchMax, records);
            && (forall f <- frames :: FrameOk(size, batchMax, f))
            && Subsequence(Flatten(frames), records)
            && OnlyFitting(size, Flatten(frames)) == OnlyFitting(size, records)
  {
    PagedKeepsFitting(size, batchMax, records);
    var (sent, batch) := Paged(size, batchMax, records);
    FlushLosesNothingFitting(size, batchMax, sent, batch, records);
  }

  /** With a batch limit of zero nothing is ever sent. */
  lemma {:induction false} ZeroBatchSendsNothing(size: RecordSize, records: Frame)
    ensures Paginate(size, 0, records) == [] && Paged(size, 0, records) == ([], [])
  {
    if records == [] {
    } else {
      ZeroBatchSendsNothing(size, records[..|records| - 1]);
    }
  }

  // ---- Gossip over these frames ----

  lemma {:induction false} FlattenCarries(frames: seq<Frame>, r: AddrRecord)
    ensures r in Flatten(frames) <==> GossipRuns.InFrames(frames, r)
  {
    if frames == [] {
    } else {
      var front, last := frames[..|frames| - 1], frames[|frames| - 1];
      FlattenCarries(front, r);
      assert frames == front + [last];
      GossipRuns.InFramesAppend(front, [last], r);
      assert last in [last];
    }
  }

  lemma {:induction false} AllFit(size: RecordSize, records: Frame)
    requires forall r <- records :: Fits(size, r)
    ensures OnlyFitting(size, records) == records
  {
    if records == [] {
    } else {
      AllFit(size, records[..|records| - 1]);
    }
  }

  lemma {:induction false} SubsequenceElements(s: Frame, t: Frame, r: AddrRecord)
    requires Subsequence(s, t) && r in s
    ensures r in t
    decreases |t|
  {
    if s[|s| - 1] == t[|t| - 1] && Subsequence(s[..|s| - 1], t[..|t| - 1]) {
      if r != s[|s| - 1] {
        SubsequenceElements(s[..|s| - 1], t[..|t| - 1], r);
      }
    } else {
      SubsequenceElements(s, t[..|t| - 1], r);
    }
  }

  lemma {:induction false} OnlyFittingElements(size: RecordSize, s: Frame, r: AddrRecord)
    ensures r in OnlyFitting(size, s) <==> r in s && Fits(size, r)
  {
    if s == [] {
    } else {
      OnlyFittingElements(size, s[..|s| - 1], r);
    }
  }

  // The parts of a record's JSON text, in bytes at most.
  const KEYS_AND_HEX: nat := 321     // field names and punctuation, and the hexadecimal fields of fixed length
  const NUMBER_SLACK: nat := 24      // what a number's text may take beyond its digits before the point
  const ESCAPED_CHAR: nat := 6       // a character of the endpoint, escaped
  const VIA_ENTRY: nat := 67         // 64 hexadecimal digits, quotes and comma

  /** What is known of the JSON text of a record that passes the format checks. */
  ghost predicate JsonLaw(size: RecordSize) {
    forall r | WellFormed(r) ::
      size(r) <= KEYS_AND_HEX + NUMBER_SLACK + Digits(r.ts) + VIA_ENTRY * |r.via| +
                 ESCAPED_CHAR * (if r.endpoint.Some? then |r.endpoint.value| else 0)
  }

  /** A record that passes the format checks fits a frame of its own: its text stays below 3300 bytes. */
  lemma WellFormedFits(size: RecordSize, r: AddrRecord)
    requires JsonLaw(size) && WellFormed(r)
    ensures size(r) <= 3262 && Fits(size, r)
  {
    hide Digits, IsHex;
    assert [r][..0] == [] && TotalSize(size, [r]) == size(r);
  }

  /** Since every record that passes the format checks fits a frame, pagination loses none of them,
      which is what agreement at rest asks of the framing. */
  lemma PaginationIsComplete(size: RecordSize, batchMax: nat)
    requires batchMax >= 1 && JsonLaw(size)
    ensures GossipRuns.Complete(Pages(size, batchMax))
    ensures Paginate(size, batchMax, []) == []
  {
    forall records: Frame, r | GossipRuns.AllWellFormed(records)
      ensures GossipRuns.InFrames(Paginate(size, batchMax, records), r) <==> r in records
    {
      var frames := Paginate(size, batchMax, records);
      hide JsonLaw, WellFormed, Fits, Paginate, Subsequence, OnlyFitting;
      if r in records {
        WellFormedFits(size, r);
      }
      PaginationDropsNothingFitting(size, batchMax, records);
      FlattenCarries(frames, r);
      OnlyFittingElements(size, records, r);
      OnlyFittingElements(size, Flatten(frames), r);
      if r in Flatten(frames) {
        SubsequenceElements(Flatten(frames), records, r);
      }
    }
  }

  /** Agreement at rest, over the frames `sendAddrGossip` really sends. */
  lemma PagedGossipAgreesAtRest(size: RecordSize, batchMax: nat, hostile: set<Relay>, events: seq<GossipRuns.Event>,
                                n: GossipRuns.Net, path: seq<Relay>)
    requires batchMax >= 1 && JsonLaw(size)
    requires GossipRuns.Run(GossipRuns.EmptyNet(hostile), events, Pages(size, batchMax), n)
    requires GossipRuns.Quiet(n) && |path| >= 2 && GossipRuns.Path(n, path)
    ensures var a, b := path[0], path[|path| - 1];
            && a in n.books && b in n.books
            && GossipRuns.Agree(n.books[a], n.books[b], hostile)
            && b in n.books[b] && GossipRuns.NewestOf(n, n.books[b][b])
            && b in n.books[a] && GossipRuns.SameContent(n.books[a][b], n.books[b][b])
  {
    PaginationIsComplete(size, batchMax);
    GossipRuns.GossipAgreesAtRest(hostile, events, Pages(size, batchMax), n, path);
  }
}
