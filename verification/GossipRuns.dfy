/**
  Address gossip over a network of relays. Links come up in one step at both ends, are reliable
  and ordered while up, and lose what is in flight when they go down. A relay may stop and start
  again with an empty book and a newer own record. Hostile relays do all this too, and send what
  they like besides.
 */
module GossipRuns {
  import opened Wrappers
  import opened Gossip

  datatype Link = Link(from: Relay, to: Relay)

  /** `issued` collects every record a relay started with. */
  datatype Net = Net(
    books: map<Relay, Book>, queues: map<Link, seq<Frame>>, issued: set<AddrRecord>, hostile: set<Relay>)

  /** How `sendAddrGossip` splits a list of records into frames. */
  type Framing = Frame -> seq<Frame>

  datatype Event =
    | StartRelay(relay: Relay, own: AddrRecord)
    | Establish(a: Relay, b: Relay, bookA: Frame, bookB: Frame)
    | Disconnect(link: Link)
    | Periodic(link: Link, book: Frame)
    | Deliver(link: Link)
    | Inject(link: Link, frame: Frame)   // a hostile relay sends any frame it can make

  ghost predicate InFrames(frames: seq<Frame>, r: AddrRecord) {
    exists frame <- frames :: r in frame
  }

  ghost predicate AllWellFormed(records: Frame) {
    forall r <- records :: WellFormed(r)
  }

  /** The frames of well-formed records carry all of them and no others. */
  ghost predicate Complete(framing: Framing) {
    forall records: Frame, r: AddrRecord {:trigger InFrames(framing(records), r)} | AllWellFormed(records) ::
      InFrames(framing(records), r) <==> r in records
  }

  /** `[...this.addrBook.values()]`. */
  ghost predicate Lists(records: Frame, book: Book) {
    && (forall k <- book :: book[k] in records)
    && (forall r <- records :: r.pubkey in book && book[r.pubkey] == r)
  }

  /**
    What can be sent: an issued record, or, where there are hostile relays, anything that carries a signature of one of
    them or a signature issued before.
   */
  ghost predicate Sendable(issued: set<AddrRecord>, hostile: set<Relay>, r: AddrRecord) {
    r in issued || (hostile != {} && (r.sig.signer in hostile || exists s <- issued :: s.sig == r.sig))
  }

  ghost predicate AllSendable(frames: seq<Frame>, issued: set<AddrRecord>, hostile: set<Relay>) {
    forall r {:trigger InFrames(frames, r)} :: InFrames(frames, r) ==> Sendable(issued, hostile, r)
  }

  ghost predicate Enabled(n: Net, e: Event) {
    match e
    case StartRelay(a, own) =>
      // no restart under a live link, and a clock that has moved on
      && (forall l <- n.queues :: l.from != a && l.to != a)
      && own.pubkey == a && WellFormed(own)
      && (forall r <- n.issued :: r.pubkey == a ==> r.ts < own.ts)
    case Establish(a, b, bookA, bookB) =>
      a != b && a in n.books && b in n.books && Link(a, b) !in n.queues && Lists(bookA, n.books[a]) &&
        Lists(bookB, n.books[b])
    case Disconnect(l) => l in n.queues
    case Periodic(l, book) => l in n.queues && l.from in n.books && Lists(book, n.books[l.from])
    case Deliver(l) => l in n.queues && n.queues[l] != [] && l.to in n.books
    case Inject(l, frame) => l in n.queues && l.from in n.hostile && AllSendable([frame], n.issued, n.hostile)
  }

  /** Delivery of one frame: merge it and pass what changed to every other peer. */
  ghost function DeliverFrame(n: Net, l: Link, framing: Framing): Net
    requires l in n.queues && n.queues[l] != [] && l.to in n.books
  {
    var (merged, changed) := Merge(l.to, n.books[l.to], n.queues[l][0]);
    n.(books := n.books[l.to := merged],
       queues := map m <- n.queues ::
         if m == l then n.queues[m][1..]
         else if m.from == l.to && m.to != l.from then n.queues[m] + framing(changed)
         else n.queues[m])
  }

  ghost function Apply(n: Net, e: Event, framing: Framing): Net
    requires Enabled(n, e)
  {
    match e
    case StartRelay(a, own) => n.(books := n.books[a := map[a := own]], issued := n.issued + {own})
    case Establish(a, b, bookA, bookB) =>
      n.(queues := n.queues[Link(a, b) := framing(bookA)][Link(b, a) := framing(bookB)])
    case Disconnect(l) => n.(queues := n.queues - {l, Link(l.to, l.from)})
    case Periodic(l, book) => n.(queues := n.queues[l := n.queues[l] + framing(book)])
    case Deliver(l) => DeliverFrame(n, l, framing)
    case Inject(l, frame) => n.(queues := n.queues[l := n.queues[l] + [frame]])
  }

  function EmptyNet(hostile: set<Relay>): Net {
    Net(map[], map[], {}, hostile)
  }

  ghost predicate Run(n: Net, events: seq<Event>, framing: Framing, n': Net)
    decreases |events|
  {
    if events == [] then n == n' else
    Enabled(n, events[0]) && Run(Apply(n, events[0], framing), events[1..], framing, n')
  }

  // ---- The invariant ----

  /** One record per owner and timestamp. */
  ghost predicate IssuedOk(issued: set<AddrRecord>) {
    && (forall r <- issued :: WellFormed(r))
    && (forall r, s | r in issued && s in issued && r.pubkey == s.pubkey && r.ts == s.ts :: r == s)
  }

  /** The records that pass every check of a relay that is given them. */
  ghost function Passing(issued: set<AddrRecord>, hostile: set<Relay>): iset<AddrRecord> {
    iset r | WellFormed(r) && Sendable(issued, hostile, r)
  }

  /** A relay's book holds passing records under their owners, and, if it is honest, its own newest record. */
  ghost predicate BookOk(self: Relay, book: Book, issued: set<AddrRecord>, hostile: set<Relay>) {
    && self in book && book[self] in issued
    && (forall k <- book :: book[k] in Passing(issued, hostile) && book[k].pubkey == k)
    && (self !in hostile ==> KnowsOwn(self, book, Passing(issued, hostile)))
  }

  ghost predicate KnowsOwn(self: Relay, book: Book, passing: iset<AddrRecord>) {
    forall r <- passing :: r.pubkey == self ==> Holds(book, r)
  }

  /** What is in flight passes, and its sender knows it or newer. */
  ghost predicate QueueOk(frames: seq<Frame>, sender: Book, passing: iset<AddrRecord>) {
    forall r {:trigger InFrames(frames, r)} :: InFrames(frames, r) ==> r in passing && Holds(sender, r)
  }

  ghost predicate InFlight(frames: seq<Frame>, r: AddrRecord) {
    exists s :: InFrames(frames, s) && s.pubkey == r.pubkey && s.ts >= r.ts
  }

  ghost predicate Reaches(frames: seq<Frame>, receiver: Book, r: AddrRecord) {
    Holds(receiver, r) || InFlight(frames, r)
  }

  /** Whatever the sending end of a link knows, the other end knows, or it is on its way. */
  ghost predicate Covered(frames: seq<Frame>, sender: Book, receiver: Book) {
    forall k {:trigger Reaches(frames, receiver, sender[k])} | k in sender :: Reaches(frames, receiver, sender[k])
  }

  ghost predicate LinkOk(frames: seq<Frame>, sender: Book, receiver: Book, passing: iset<AddrRecord>) {
    QueueOk(frames, sender, passing) && Covered(frames, sender, receiver)
  }

  ghost predicate LinksOk(n: Net) {
    && (forall l <- n.queues :: l.from != l.to && l.from in n.books && l.to in n.books)
    && (forall a, b :: Link(a, b) in n.queues <==> Link(b, a) in n.queues)
  }

  ghost predicate Honest(n: Net, l: Link) {
    l.from !in n.hostile && l.to !in n.hostile
  }

  ghost predicate Inv(n: Net) {
    && LinksOk(n)
    && IssuedOk(n.issued)
    && (forall a {:trigger BookOk(a, n.books[a], n.issued, n.hostile)} | a in n.books ::
          BookOk(a, n.books[a], n.issued, n.hostile))
    && (forall l <- n.queues :: AllSendable(n.queues[l], n.issued, n.hostile))
    && (forall l <- n.queues | Honest(n, l) ::
          LinkOk(n.queues[l], n.books[l.from], n.books[l.to], Passing(n.issued, n.hostile)))
  }

  // ---- One link ----

  lemma InFramesAppend(f: seq<Frame>, g: seq<Frame>, r: AddrRecord)
    ensures InFrames(f + g, r) <==> InFrames(f, r) || InFrames(g, r)
  {
    assert forall x <- f :: x in f + g;
    assert forall x <- g :: x in f + g;
  }

  lemma InFramesPop(f: seq<Frame>, r: AddrRecord)
    requires f != []
    ensures InFrames(f, r) <==> r in f[0] || InFrames(f[1..], r)
  {
    assert f == [f[0]] + f[1..];
    InFramesAppend([f[0]], f[1..], r);
    assert f[0] in [f[0]];
  }

  lemma InFlightAppend(f: seq<Frame>, g: seq<Frame>, r: AddrRecord)
    requires InFlight(f, r) || InFrames(g, r)
    ensures InFlight(f + g, r)
  {
    if InFlight(f, r) {
      var s :| InFrames(f, s) && s.pubkey == r.pubkey && s.ts >= r.ts;
      InFramesAppend(f, g, s);
    } else {
      InFramesAppend(f, g, r);
    }
  }

  lemma PassingGrows(issued: set<AddrRecord>, hostile: set<Relay>, own: AddrRecord)
    ensures Passing(issued, hostile) <= Passing(issued + {own}, hostile)
  {
    hide WellFormed;
  }

  lemma LinkOutlivesIssue(frames: seq<Frame>, sender: Book, receiver: Book, passing: iset<AddrRecord>,
                          more: iset<AddrRecord>)
    requires LinkOk(frames, sender, receiver, passing) && passing <= more
    ensures LinkOk(frames, sender, receiver, more)
  {
  }

  lemma SendableOutlivesIssue(frames: seq<Frame>, issued: set<AddrRecord>, hostile: set<Relay>, own: AddrRecord)
    requires AllSendable(frames, issued, hostile)
    ensures AllSendable(frames, issued + {own}, hostile)
  {
  }

  /** Nobody else's signature is among those of an honest relay: what passes as its record was issued by it. */
  lemma PassingOfHonest(issued: set<AddrRecord>, hostile: set<Relay>, r: AddrRecord) returns (s: AddrRecord)
    requires IssuedOk(issued) && r in Passing(issued, hostile) && r.pubkey !in hostile
    ensures s in issued && s.pubkey == r.pubkey && SameContent(s, r)
    ensures hostile == {} ==> s == r
  {
    if r in issued {
      s := r;
    } else {
      s :| s in issued && s.sig == r.sig;
    }
  }

  lemma BookOutlivesIssue(self: Relay, book: Book, issued: set<AddrRecord>, hostile: set<Relay>, own: AddrRecord)
    requires BookOk(self, book, issued, hostile) && IssuedOk(issued + {own}) && own.pubkey != self
    ensures BookOk(self, book, issued + {own}, hostile)
  {
    PassingGrows(issued, hostile, own);
    hide WellFormed;
    if self !in hostile {
      forall r <- Passing(issued + {own}, hostile) | r.pubkey == self ensures Holds(book, r) {
        var s := PassingOfHonest(issued + {own}, hostile, r);
        assert s in issued;
        assert s in Passing(issued, hostile);
      }
    }
  }

  lemma FirstBook(issued: set<AddrRecord>, hostile: set<Relay>, own: AddrRecord)
    requires IssuedOk(issued) && WellFormed(own)
    requires forall r <- issued :: r.pubkey == own.pubkey ==> r.ts < own.ts
    ensures IssuedOk(issued + {own}) && BookOk(own.pubkey, map[own.pubkey := own], issued + {own}, hostile)
  {
    hide WellFormed;
    assert IssuedOk(issued + {own});
    if own.pubkey !in hostile {
      forall r <- Passing(issued + {own}, hostile) | r.pubkey == own.pubkey
        ensures Holds(map[own.pubkey := own], r)
      {
        var s := PassingOfHonest(issued + {own}, hostile, r);
      }
    }
  }

  lemma FreshLink(sender: Book, receiver: Book, records: Frame, passing: iset<AddrRecord>, framing: Framing)
    requires Complete(framing) && Lists(records, sender)
    requires forall k <- sender :: sender[k] in passing
    requires forall r <- passing :: WellFormed(r)
    ensures LinkOk(framing(records), sender, receiver, passing)
  {
    hide WellFormed;
    assert AllWellFormed(records);
    forall k <- sender ensures Reaches(framing(records), receiver, sender[k]) {
      assert InFrames(framing(records), sender[k]);
    }
  }

  /** Sending more of what the sender knows. */
  lemma SendMore(frames: seq<Frame>, more: Frame, sender: Book, receiver: Book, passing: iset<AddrRecord>,
                 framing: Framing)
    requires LinkOk(frames, sender, receiver, passing) && Complete(framing)
    requires forall r <- passing :: WellFormed(r)
    requires forall r <- more :: r in passing && Holds(sender, r)
    ensures LinkOk(frames + framing(more), sender, receiver, passing)
  {
    hide WellFormed;
    assert AllWellFormed(more);
    forall r ensures InFrames(frames + framing(more), r) <==> InFrames(frames, r) || r in more {
      InFramesAppend(frames, framing(more), r);
    }
    forall k <- sender ensures Reaches(frames + framing(more), receiver, sender[k]) {
      assert Reaches(frames, receiver, sender[k]);
      if InFlight(frames, sender[k]) {
        InFlightAppend(frames, framing(more), sender[k]);
      }
    }
  }

  /** Frames made of passing records, appended to a queue. */
  lemma SendSendable(frames: seq<Frame>, more: Frame, issued: set<AddrRecord>, hostile: set<Relay>, framing: Framing)
    requires AllSendable(frames, issued, hostile) && Complete(framing)
    requires forall r <- more :: r in Passing(issued, hostile)
    ensures AllSendable(frames + framing(more), issued, hostile)
  {
    hide WellFormed, Sendable;
    assert AllWellFormed(more);
    forall r ensures InFrames(frames + framing(more), r) <==> InFrames(frames, r) || r in more {
      InFramesAppend(frames, framing(more), r);
    }
  }

  /** From the merging relay to a peer the frame did not come from. */
  lemma PassOn(frames: seq<Frame>, self: Relay, book: Book, frame: Frame, receiver: Book, passing: iset<AddrRecord>,
               framing: Framing)
    requires LinkOk(frames, book, receiver, passing) && Complete(framing)
    requires forall r <- passing :: WellFormed(r)
    requires forall r <- Merge(self, book, frame).1 :: r in passing
    ensures var (merged, changed) := Merge(self, book, frame);
            LinkOk(frames + framing(changed), merged, receiver, passing)
  {
    hide WellFormed;
    var (merged, changed) := Merge(self, book, frame);
    MergeTakesNewest(self, book, frame);
    assert AllWellFormed(changed);
    forall r ensures InFrames(frames + framing(changed), r) <==> InFrames(frames, r) || r in changed {
      InFramesAppend(frames, framing(changed), r);
    }
    forall k <- merged ensures Reaches(frames + framing(changed), receiver, merged[k]) {
      assert merged[k] in changed || Reaches(frames, receiver, book[k]);
      if merged[k] in changed || !Holds(receiver, merged[k]) {
        InFlightAppend(frames, framing(changed), merged[k]);
      }
    }
  }

  /** Back to the peer the frame came from, nothing need be sent: it knew all of it. */
  lemma NothingBack(frames: seq<Frame>, self: Relay, book: Book, frame: Frame, source: Book,
                    passing: iset<AddrRecord>)
    requires LinkOk(frames, book, source, passing)
    requires forall r <- frame :: Holds(source, r)
    ensures LinkOk(frames, Merge(self, book, frame).0, source, passing)
  {
    var (merged, changed) := Merge(self, book, frame);
    MergeTakesNewest(self, book, frame);
    forall k <- merged ensures Reaches(frames, source, merged[k]) {
      assert merged[k] in changed || Reaches(frames, source, book[k]);
    }
  }

  /** To the merging relay, the frame is no longer in flight: its records arrived. */
  lemma Arrived(frames: seq<Frame>, self: Relay, book: Book, source: Book, passing: iset<AddrRecord>)
    requires frames != [] && LinkOk(frames, source, book, passing)
    requires forall r <- passing :: WellFormed(r)
    requires KnowsOwn(self, book, passing)
    requires forall k <- source :: source[k] in passing && source[k].pubkey == k
    ensures LinkOk(frames[1..], source, Merge(self, book, frames[0]).0, passing)
  {
    var merged := Merge(self, book, frames[0]).0;
    MergeTakesNewest(self, book, frames[0]);
    forall r ensures InFrames(frames, r) <==> r in frames[0] || InFrames(frames[1..], r) {
      InFramesPop(frames, r);
    }
    forall k <- source ensures Reaches(frames[1..], merged, source[k]) {
      assert Reaches(frames, book, source[k]);
      if InFlight(frames, source[k]) {
        var s :| InFrames(frames, s) && s.pubkey == source[k].pubkey && s.ts >= source[k].ts;
        if s in frames[0] {
          assert k == self || Holds(merged, s);
        }
      }
    }
  }

  lemma ReceiverLearns(frames: seq<Frame>, sender: Book, self: Relay, book: Book, frame: Frame,
                       passing: iset<AddrRecord>)
    requires LinkOk(frames, sender, book, passing)
    ensures LinkOk(frames, sender, Merge(self, book, frame).0, passing)
  {
    MergeTakesNewest(self, book, frame);
    forall k <- sender ensures Reaches(frames, Merge(self, book, frame).0, sender[k]) {
      assert Reaches(frames, book, sender[k]);
    }
  }

  /** However a frame was made, only passing records change a book or are passed on. */
  lemma ChangesPass(self: Relay, book: Book, frame: Frame, issued: set<AddrRecord>, hostile: set<Relay>)
    requires forall r <- frame :: Sendable(issued, hostile, r)
    ensures forall r <- Merge(self, book, frame).1 :: r in Passing(issued, hostile)
  {
    ChangedAreWellFormed(self, book, frame);
    hide WellFormed, Sendable;
    MergeTakesNewest(self, book, frame);
  }

  lemma MergedBookOk(self: Relay, book: Book, frame: Frame, issued: set<AddrRecord>, hostile: set<Relay>)
    requires BookOk(self, book, issued, hostile) && forall r <- frame :: Sendable(issued, hostile, r)
    ensures BookOk(self, Merge(self, book, frame).0, issued, hostile)
  {
    ChangesPass(self, book, frame, issued, hostile);
    MergeTakesNewest(self, book, frame);
    hide Passing, Merge;
  }

  // ---- Preservation ----

  lemma PassingChecked(issued: set<AddrRecord>, hostile: set<Relay>)
    ensures forall r <- Passing(issued, hostile) :: WellFormed(r)
  {
  }

  lemma StartKeepsInv(n: Net, e: Event, framing: Framing, n': Net)
    requires e.StartRelay? && Enabled(n, e) && n' == Apply(n, e, framing)
    requires Inv(n)
    ensures Inv(n')
  {
    hide LinkOk, WellFormed, BookOk, IssuedOk, AllSendable, Passing;
    FirstBook(n.issued, n.hostile, e.own);
    PassingGrows(n.issued, n.hostile, e.own);
    forall b <- n.books | b != e.relay ensures BookOk(b, n.books[b], n.issued + {e.own}, n.hostile) {
      BookOutlivesIssue(b, n.books[b], n.issued, n.hostile, e.own);
    }
    forall l <- n.queues ensures AllSendable(n.queues[l], n'.issued, n'.hostile) {
      SendableOutlivesIssue(n.queues[l], n.issued, n.hostile, e.own);
    }
    forall l <- n.queues | Honest(n, l)
      ensures LinkOk(n.queues[l], n.books[l.from], n.books[l.to], Passing(n'.issued, n'.hostile))
    {
      LinkOutlivesIssue(n.queues[l], n.books[l.from], n.books[l.to], Passing(n.issued, n.hostile),
                        Passing(n'.issued, n'.hostile));
    }
  }

  lemma BookPasses(n: Net, a: Relay, records: Frame)
    requires Inv(n) && a in n.books && Lists(records, n.books[a])
    ensures forall k <- n.books[a] :: n.books[a][k] in Passing(n.issued, n.hostile) && n.books[a][k].pubkey == k
    ensures forall r <- records :: r in Passing(n.issued, n.hostile) && Holds(n.books[a], r)
  {
    assert BookOk(a, n.books[a], n.issued, n.hostile);
    hide Passing;
  }

  lemma FirstFrames(n: Net, a: Relay, receiver: Book, records: Frame, framing: Framing)
    requires Inv(n) && a in n.books && Lists(records, n.books[a]) && Complete(framing)
    ensures AllSendable(framing(records), n.issued, n.hostile)
    ensures LinkOk(framing(records), n.books[a], receiver, Passing(n.issued, n.hostile))
  {
    BookPasses(n, a, records);
    PassingChecked(n.issued, n.hostile);
    NothingSent(n.issued, n.hostile);
    hide Inv, WellFormed, Passing, Sendable, AllSendable;
    FreshLink(n.books[a], receiver, records, Passing(n.issued, n.hostile), framing);
    SendSendable([], records, n.issued, n.hostile, framing);
    assert [] + framing(records) == framing(records);
  }

  lemma EstablishKeepsInv(n: Net, e: Event, framing: Framing, n': Net)
    requires e.Establish? && Enabled(n, e) && Complete(framing) && n' == Apply(n, e, framing)
    requires Inv(n)
    ensures Inv(n')
  {
    hide LinkOk, IssuedOk, Complete, Lists, BookOk, Passing, AllSendable;
    FirstFrames(n, e.a, n.books[e.b], e.bookA, framing);
    FirstFrames(n, e.b, n.books[e.a], e.bookB, framing);
    var there, back := Link(e.a, e.b), Link(e.b, e.a);
    assert n'.queues.Keys == n.queues.Keys + {there, back};
    forall l <- n'.queues ensures l == there || l == back || (l in n.queues && n'.queues[l] == n.queues[l]) {
    }
  }

  lemma NothingSent(issued: set<AddrRecord>, hostile: set<Relay>)
    ensures AllSendable([], issued, hostile)
  {
  }

  lemma DisconnectKeepsInv(n: Net, e: Event, framing: Framing, n': Net)
    requires e.Disconnect? && Enabled(n, e) && n' == Apply(n, e, framing)
    requires Inv(n)
    ensures Inv(n')
  {
    hide LinkOk, IssuedOk, BookOk, Passing, AllSendable;
  }

  lemma PeriodicKeepsInv(n: Net, e: Event, framing: Framing, n': Net)
    requires e.Periodic? && Enabled(n, e) && Complete(framing) && n' == Apply(n, e, framing)
    requires Inv(n)
    ensures Inv(n')
  {
    hide LinkOk, IssuedOk, Complete, Lists, BookOk, Passing, AllSendable;
    var l := e.link;
    PassingChecked(n.issued, n.hostile);
    BookPasses(n, l.from, e.book);
    SendSendable(n.queues[l], e.book, n.issued, n.hostile, framing);
    if Honest(n, l) {
      SendMore(n.queues[l], e.book, n.books[l.from], n.books[l.to], Passing(n.issued, n.hostile), framing);
    }
  }

  lemma InjectKeepsInv(n: Net, e: Event, framing: Framing, n': Net)
    requires e.Inject? && Enabled(n, e) && n' == Apply(n, e, framing)
    requires Inv(n)
    ensures Inv(n')
  {
    hide LinkOk, IssuedOk, BookOk, Passing, Sendable;
    forall r ensures InFrames(n.queues[e.link] + [e.frame], r) <==>
                     InFrames(n.queues[e.link], r) || InFrames([e.frame], r)
    {
      InFramesAppend(n.queues[e.link], [e.frame], r);
    }
  }

  /** The frame at the head of a link: what it may hold, and what its sender knows if both ends are honest. */
  lemma FrontFrameOk(n: Net, l: Link)
    requires Inv(n) && l in n.queues && n.queues[l] != []
    ensures forall r <- n.queues[l][0] :: Sendable(n.issued, n.hostile, r)
    ensures Honest(n, l) ==> forall r <- n.queues[l][0] :: Holds(n.books[l.from], r)
    ensures AllSendable(n.queues[l][1..], n.issued, n.hostile)
  {
    hide BookOk, IssuedOk, Sendable, Passing;
    forall r ensures InFrames(n.queues[l], r) <==> r in n.queues[l][0] || InFrames(n.queues[l][1..], r) {
      InFramesPop(n.queues[l], r);
    }
    assert AllSendable(n.queues[l], n.issued, n.hostile);
    assert Honest(n, l) ==> LinkOk(n.queues[l], n.books[l.from], n.books[l.to], Passing(n.issued, n.hostile));
  }

  lemma DeliverKeepsQueues(n: Net, l: Link, framing: Framing, n': Net, m: Link)
    requires Enabled(n, Deliver(l)) && Complete(framing) && n' == DeliverFrame(n, l, framing)
    requires Inv(n) && m in n.queues
    ensures AllSendable(n'.queues[m], n'.issued, n'.hostile)
  {
    hide LinkOk, IssuedOk, Complete, BookOk, Passing, AllSendable;
    FrontFrameOk(n, l);
    if m.from == l.to && m.to != l.from {
      ChangesPass(l.to, n.books[l.to], n.queues[l][0], n.issued, n.hostile);
      SendSendable(n.queues[m], Merge(l.to, n.books[l.to], n.queues[l][0]).1, n.issued, n.hostile, framing);
    }
  }

  lemma DeliverKeepsLink(n: Net, l: Link, framing: Framing, n': Net, m: Link)
    requires Enabled(n, Deliver(l)) && Complete(framing) && n' == DeliverFrame(n, l, framing)
    requires Inv(n) && m in n.queues && Honest(n, m)
    ensures LinkOk(n'.queues[m], n'.books[m.from], n'.books[m.to], Passing(n'.issued, n'.hostile))
  {
    hide LinkOk, IssuedOk, Complete, Passing, AllSendable, WellFormed, Merge, KnowsOwn;
    var self, frame, passing := l.to, n.queues[l][0], Passing(n.issued, n.hostile);
    assert BookOk(self, n.books[self], n.issued, n.hostile);
    FrontFrameOk(n, l);
    PassingChecked(n.issued, n.hostile);
    if m == l {
      assert BookOk(l.from, n.books[l.from], n.issued, n.hostile);
      Arrived(n.queues[l], self, n.books[self], n.books[l.from], passing);
    } else if m.from == self && m.to != l.from {
      ChangesPass(self, n.books[self], frame, n.issued, n.hostile);
      PassOn(n.queues[m], self, n.books[self], frame, n.books[m.to], passing, framing);
    } else if m.from == self {
      NothingBack(n.queues[m], self, n.books[self], frame, n.books[m.to], passing);
    } else if m.to == self {
      ReceiverLearns(n.queues[m], n.books[m.from], self, n.books[self], frame, passing);
    }
  }

  lemma DeliverKeepsInv(n: Net, l: Link, framing: Framing, n': Net)
    requires Enabled(n, Deliver(l)) && Complete(framing) && n' == DeliverFrame(n, l, framing)
    requires Inv(n)
    ensures Inv(n')
  {
    hide LinkOk, IssuedOk, Complete, BookOk, Passing, AllSendable;
    FrontFrameOk(n, l);
    MergedBookOk(l.to, n.books[l.to], n.queues[l][0], n.issued, n.hostile);
    forall m <- n'.queues ensures AllSendable(n'.queues[m], n'.issued, n'.hostile) {
      DeliverKeepsQueues(n, l, framing, n', m);
    }
    forall m <- n'.queues | Honest(n', m)
      ensures LinkOk(n'.queues[m], n'.books[m.from], n'.books[m.to], Passing(n'.issued, n'.hostile))
    {
      DeliverKeepsLink(n, l, framing, n', m);
    }
  }

  lemma ApplyKeepsInv(n: Net, e: Event, framing: Framing, n': Net)
    requires Enabled(n, e) && Complete(framing) && n' == Apply(n, e, framing)
    requires Inv(n)
    ensures Inv(n') && n'.hostile == n.hostile
  {
    hide Inv, Complete;
    match e
    case StartRelay(_, _) => StartKeepsInv(n, e, framing, n');
    case Establish(_, _, _, _) => EstablishKeepsInv(n, e, framing, n');
    case Disconnect(_) => DisconnectKeepsInv(n, e, framing, n');
    case Periodic(_, _) => PeriodicKeepsInv(n, e, framing, n');
    case Deliver(l) => DeliverKeepsInv(n, l, framing, n');
    case Inject(_, _) => InjectKeepsInv(n, e, framing, n');
  }

  lemma {:induction false} RunKeepsInv(n: Net, events: seq<Event>, framing: Framing, n': Net)
    requires Complete(framing) && Run(n, events, framing, n')
    requires Inv(n)
    ensures Inv(n') && n'.hostile == n.hostile
    decreases |events|
  {
    if events == [] {
    } else {
      hide Inv, Complete;
      ApplyKeepsInv(n, events[0], framing, Apply(n, events[0], framing));
      RunKeepsInv(Apply(n, events[0], framing), events[1..], framing, n');
    }
  }

  // ---- What books hold ----

  lemma EmptyInv(hostile: set<Relay>)
    ensures Inv(EmptyNet(hostile))
  {
  }

  /** Equal in everything a signature covers: it leaves out the order of the anchors. */
  ghost predicate SameContent(r: AddrRecord, s: AddrRecord) {
    r.endpoint == s.endpoint && multiset(r.via) == multiset(s.via) && r.onionKey == s.onionKey && r.ts == s.ts
  }

  /**
    Whatever hostile relays send, a record that any book holds for k was signed by k, and if k is honest, k issued it
    with just this content.
   */
  lemma HeldRecordsAreSigned(hostile: set<Relay>, events: seq<Event>, framing: Framing, n: Net, a: Relay, k: Relay)
    requires Complete(framing) && Run(EmptyNet(hostile), events, framing, n)
    requires a in n.books && k in n.books[a]
    ensures var r := n.books[a][k];
            && r.pubkey == k && r.sig == Signature(k, r.endpoint, multiset(r.via), r.onionKey, r.ts)
            && (k !in hostile ==> exists s <- n.issued :: s.pubkey == k && SameContent(s, r))
  {
    EmptyInv(hostile);
    RunKeepsInv(EmptyNet(hostile), events, framing, n);
    assert BookOk(a, n.books[a], n.issued, n.hostile);
    if k !in hostile {
      var s := PassingOfHonest(n.issued, n.hostile, n.books[a][k]);
    }
  }

  // ---- Agreement at rest ----

  ghost predicate Quiet(n: Net) {
    forall l <- n.queues :: n.queues[l] == []
  }

  /** Two books know the same owners as of the same times, honest ones by the same content. */
  ghost predicate Agree(a: Book, b: Book, hostile: set<Relay>) {
    && a.Keys == b.Keys
    && (forall k <- a :: a[k].ts == b[k].ts)
    && (forall k <- a :: k !in hostile ==> SameContent(a[k], b[k]))
    && (hostile == {} ==> a == b)
  }

  lemma SameOwnerSameTime(issued: set<AddrRecord>, hostile: set<Relay>, r: AddrRecord, s: AddrRecord)
    requires IssuedOk(issued) && r in Passing(issued, hostile) && s in Passing(issued, hostile)
    requires r.pubkey == s.pubkey && r.ts == s.ts && r.pubkey !in hostile
    ensures SameContent(r, s) && (hostile == {} ==> r == s)
  {
    var r' := PassingOfHonest(issued, hostile, r);
    var s' := PassingOfHonest(issued, hostile, s);
    hide WellFormed, Passing;
    assert r' == s';
  }

  lemma CoveredBothWays(a: Relay, bookA: Book, b: Relay, bookB: Book, issued: set<AddrRecord>, hostile: set<Relay>)
    requires IssuedOk(issued) && BookOk(a, bookA, issued, hostile) && BookOk(b, bookB, issued, hostile)
    requires LinkOk([], bookA, bookB, Passing(issued, hostile)) && LinkOk([], bookB, bookA, Passing(issued, hostile))
    ensures Agree(bookA, bookB, hostile)
  {
    hide WellFormed, Passing, IssuedOk, KnowsOwn, SameContent;
    forall k ensures k in bookA <==> k in bookB ensures k in bookA ==> bookA[k].ts == bookB[k].ts {
      assert k in bookA ==> Reaches([], bookB, bookA[k]);
      assert k in bookB ==> Reaches([], bookA, bookB[k]);
    }
    forall k | k in bookA && k !in hostile
      ensures SameContent(bookA[k], bookB[k]) && (hostile == {} ==> bookA[k] == bookB[k])
    {
      SameOwnerSameTime(issued, hostile, bookA[k], bookB[k]);
    }
  }

  lemma QuietLinkAgrees(n: Net, a: Relay, b: Relay)
    requires Inv(n) && Quiet(n) && Link(a, b) in n.queues && Honest(n, Link(a, b))
    ensures a in n.books && b in n.books && Agree(n.books[a], n.books[b], n.hostile)
  {
    hide LinkOk, BookOk, IssuedOk, Passing, AllSendable, Agree;
    var l, m := Link(a, b), Link(b, a);
    assert l in n.queues && m in n.queues && n.queues[l] == [] && n.queues[m] == [];
    CoveredBothWays(a, n.books[a], b, n.books[b], n.issued, n.hostile);
  }

  /** A chain of links between honest relays. */
  ghost predicate Path(n: Net, path: seq<Relay>) {
    && (forall i | 0 <= i < |path| - 1 :: Link(path[i], path[i + 1]) in n.queues)
    && (forall a <- path :: a !in n.hostile)
  }

  lemma AgreeOnward(a: Book, b: Book, c: Book, hostile: set<Relay>)
    requires Agree(a, b, hostile) && Agree(b, c, hostile)
    ensures Agree(a, c, hostile)
  {
  }

  lemma {:induction false} QuietPathAgrees(n: Net, path: seq<Relay>)
    requires Inv(n) && Quiet(n) && |path| >= 2 && Path(n, path)
    ensures path[0] in n.books && path[|path| - 1] in n.books
    ensures Agree(n.books[path[0]], n.books[path[|path| - 1]], n.hostile)
    decreases |path|
  {
    hide Inv, Agree;
    QuietLinkAgrees(n, path[0], path[1]);
    if |path| > 2 {
      QuietPathAgrees(n, path[1..]);
      AgreeOnward(n.books[path[0]], n.books[path[1]], n.books[path[|path| - 1]], n.hostile);
    }
  }

  ghost predicate NewestOf(n: Net, r: AddrRecord) {
    r in n.issued && forall s <- n.issued :: s.pubkey == r.pubkey ==> s.ts <= r.ts
  }

  lemma OwnRecordIsNewest(n: Net, a: Relay)
    requires Inv(n) && a in n.books && a !in n.hostile
    ensures a in n.books[a] && n.books[a][a].pubkey == a && NewestOf(n, n.books[a][a])
  {
    hide WellFormed, LinkOk;
    assert BookOk(a, n.books[a], n.issued, n.hostile);
    forall s <- n.issued ensures s in Passing(n.issued, n.hostile) {
    }
  }

  /**
    After any run, with no frame in flight, honest relays joined by a chain of honest links agree, whatever the hostile
    ones sent: on all owners and times, and on all signed content of honest owners. What each holds for the other is the
    newest that relay issued. With no hostile relay their books are equal.
   */
  lemma GossipAgreesAtRest(hostile: set<Relay>, events: seq<Event>, framing: Framing, n: Net, path: seq<Relay>)
    requires Complete(framing) && Run(EmptyNet(hostile), events, framing, n)
    requires Quiet(n) && |path| >= 2 && Path(n, path)
    ensures var a, b := path[0], path[|path| - 1];
            && a in n.books && b in n.books
            && Agree(n.books[a], n.books[b], hostile)
            && b in n.books[b] && NewestOf(n, n.books[b][b])
            && b in n.books[a] && SameContent(n.books[a][b], n.books[b][b])
  {
    EmptyInv(hostile);
    RunKeepsInv(EmptyNet(hostile), events, framing, n);
    QuietPathAgrees(n, path);
    OwnRecordIsNewest(n, path[|path| - 1]);
  }

  /** No event but a relay's own restart makes its book forget an owner or step back in time. */
  lemma TimestampsNeverDecrease(n: Net, e: Event, framing: Framing, a: Relay)
    requires Enabled(n, e) && a in n.books && (e.StartRelay? ==> e.relay != a)
    ensures var n' := Apply(n, e, framing);
            a in n'.books && forall k <- n.books[a] :: k in n'.books[a] && n'.books[a][k].ts >= n.books[a][k].ts
  {
    if e.Deliver? {
      MergeTakesNewest(e.link.to, n.books[e.link.to], n.queues[e.link][0]);
    }
  }

  /** The periodic round puts the whole book on its link once more, behind what is in flight, and nothing elsewhere. */
  lemma PeriodicSendsBook(n: Net, l: Link, book: Frame, framing: Framing, r: AddrRecord)
    requires Inv(n) && Complete(framing) && Enabled(n, Periodic(l, book))
    ensures var n' := Apply(n, Periodic(l, book), framing);
            && n'.books == n.books && n'.queues.Keys == n.queues.Keys
            && (forall m <- n.queues :: m != l ==> n'.queues[m] == n.queues[m])
            && n.queues[l] <= n'.queues[l]
            && (r in n.books[l.from].Values <==> InFrames(n'.queues[l][|n.queues[l]|..], r))
  {
    hide Inv, Complete, InFrames, Sendable;
    BookSent(n, l.from, book, framing, r);
    var n' := Apply(n, Periodic(l, book), framing);
    assert n'.queues[l][|n.queues[l]|..] == framing(book);
  }

  lemma BookSent(n: Net, a: Relay, book: Frame, framing: Framing, r: AddrRecord)
    requires Inv(n) && Complete(framing) && a in n.books && Lists(book, n.books[a])
    ensures InFrames(framing(book), r) <==> r in n.books[a].Values
  {
    BookPasses(n, a, book);
    PassingChecked(n.issued, n.hostile);
    hide Inv, WellFormed, Passing, InFrames;
    assert AllWellFormed(book);
  }

  // ---- Re-gossip dies out ----

  ghost function Circulating(n: Net): set<AddrRecord> {
    set l, i: nat, r | l in n.queues && 0 <= i < |n.queues[l]| && r in n.queues[l][i] :: r
  }

  /** The records in flight a relay could still learn something from. */
  ghost function Missing(n: Net): set<(Relay, AddrRecord)> {
    set a, r | a in n.books && r in Circulating(n) && !Holds(n.books[a], r) :: (a, r)
  }

  /** The frames in flight, by link and place in the queue. */
  ghost function FramesInFlight(n: Net): set<(Link, nat)> {
    set l, i: nat | l in n.queues && 0 <= i < |n.queues[l]| :: (l, i)
  }

  lemma SubsetSize<T>(s: set<T>, t: set<T>)
    requires s < t
    ensures |s| < |t|
  {
    var d := t - s;
    assert t == s + d && s !! d;
    assert d != {};
  }

  lemma CirculatingInFrames(n: Net, r: AddrRecord)
    ensures r in Circulating(n) <==> exists l <- n.queues :: InFrames(n.queues[l], r)
  {
    if r in Circulating(n) {
      var l, i: nat :| l in n.queues && 0 <= i < |n.queues[l]| && r in n.queues[l][i];
      assert n.queues[l][i] in n.queues[l];
    }
    if l :| l in n.queues && InFrames(n.queues[l], r) {
      var frame :| frame in n.queues[l] && r in frame;
      var i :| 0 <= i < |n.queues[l]| && n.queues[l][i] == frame;
    }
  }

  /** Nothing new enters circulation by a delivery, and nothing goes back on the link it came by. */
  lemma DeliveryCirculates(n: Net, l: Link, framing: Framing, n': Net)
    requires Complete(framing) && Enabled(n, Deliver(l)) && n' == DeliverFrame(n, l, framing)
    ensures Circulating(n') <= Circulating(n)
    ensures l.from != l.to && Link(l.to, l.from) in n.queues ==>
              n'.queues[Link(l.to, l.from)] == n.queues[Link(l.to, l.from)]
  {
    hide WellFormed, Circulating, InFrames;
    var changed := Merge(l.to, n.books[l.to], n.queues[l][0]).1;
    MergeTakesNewest(l.to, n.books[l.to], n.queues[l][0]);
    ChangedAreWellFormed(l.to, n.books[l.to], n.queues[l][0]);
    assert AllWellFormed(changed);
    forall r <- Circulating(n') ensures r in Circulating(n) {
      CirculatingInFrames(n', r);
      CirculatingInFrames(n, r);
      var m :| m in n'.queues && InFrames(n'.queues[m], r);
      InFramesPop(n.queues[l], r);
      InFramesAppend(n.queues[m], framing(changed), r);
      assert InFrames(n.queues[m], r) || InFrames(n.queues[l], r);
    }
  }

  /** A delivery that teaches the receiver something shrinks what is missing; any other sends nothing on. */
  lemma DeliveryMakesProgress(n: Net, l: Link, framing: Framing, n': Net)
    requires Complete(framing) && framing([]) == []
    requires Enabled(n, Deliver(l)) && n' == DeliverFrame(n, l, framing)
    ensures || |Missing(n')| < |Missing(n)|
            || (Missing(n') == Missing(n) && |FramesInFlight(n')| < |FramesInFlight(n)|)
  {
    hide WellFormed, Complete;
    var self, frame := l.to, n.queues[l][0];
    var (merged, changed) := Merge(self, n.books[self], frame);
    MergeTakesNewest(self, n.books[self], frame);
    DeliveryCirculates(n, l, framing, n');
    hide Merge;
    assert Missing(n') <= Missing(n);
    if Missing(n') != Missing(n) {
      SubsetSize(Missing(n'), Missing(n));
    }
    if changed != [] {
      LearnedIsMissingNoMore(n, l, n', merged, changed[0]);
    } else {
      assert merged == n.books[self];
      var last := (l, |n.queues[l]| - 1);
      assert last in FramesInFlight(n) - FramesInFlight(n');
      SubsetSize(FramesInFlight(n'), FramesInFlight(n));
    }
  }

  lemma LearnedIsMissingNoMore(n: Net, l: Link, n': Net, merged: Book, r: AddrRecord)
    requires Enabled(n, Deliver(l)) && l.to in n'.books && n'.books[l.to] == merged
    requires r in n.queues[l][0] && Holds(merged, r) && !Holds(n.books[l.to], r)
    ensures (l.to, r) in Missing(n) && (l.to, r) !in Missing(n')
  {
    assert r in Circulating(n);
  }

  /** Whatever order frames are delivered in, once nothing but delivery happens gossip comes to rest. */
  lemma {:induction false} RegossipDiesOut(steps: nat -> Net, deliveries: nat -> Link, framing: Framing, from: nat)
    requires Complete(framing) && framing([]) == [] && Inv(steps(from))
    requires forall i: nat | i >= from && !Quiet(steps(i)) ::
               Enabled(steps(i), Deliver(deliveries(i))) &&
                 steps(i + 1) == DeliverFrame(steps(i), deliveries(i), framing)
    ensures exists i: nat :: i >= from && Quiet(steps(i)) && Inv(steps(i))
    decreases |Missing(steps(from))|, |FramesInFlight(steps(from))|
  {
    hide Inv, DeliverFrame;
    if !Quiet(steps(from)) {
      DeliveryMakesProgress(steps(from), deliveries(from), framing, steps(from + 1));
      DeliverKeepsInv(steps(from), deliveries(from), framing, steps(from + 1));
      RegossipDiesOut(steps, deliveries, framing, from + 1);
    }
  }
}
