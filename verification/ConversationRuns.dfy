/**
  What the locked list operations amount to: with unbounded retention a stored conversation is a map from message ids to
  messages, whatever interleaves, and each operation is the obvious change of that map.
 */
module ConversationRuns {
  import opened Wrappers
  import opened MessageStore
  import opened KeyedMutex
  import Archive
  import ArchiveLaws

  type Conversation = map<string, Message>

  function ListOf(stored: Option<seq<Message>>): seq<Message> {
    if stored.Some? then stored.value else []
  }

  /** The list holds exactly the conversation's messages, each once; messages without an id are not spoken of. */
  ghost predicate Represents(list: seq<Message>, c: Conversation) {
    && DistinctIds(list)
    && (forall x <- list :: x.id != "" ==> x.id in c && c[x.id] == x)
    && (forall id <- c :: id != "" && c[id] in list && c[id].id == id)
  }

  function MapOf(list: seq<Message>): Conversation {
    if list == [] then map[] else
    var rest, x := MapOf(list[..|list| - 1]), list[|list| - 1];
    if x.id == "" then rest else rest[x.id := x]
  }

  function WithMessage(c: Conversation, id: string, after: Option<Message>): Conversation {
    if after.Some? then c[id := after.value] else c
  }

  /** The operations on a map. A merge adds what is not there. */
  function MapAfter(c: Conversation, op: Op): Conversation {
    match op
    case Save(m, _) => if m.id == "" then c else c[m.id := m]
    case Remove(id) => c - {id}
    case React(id, peer, emoji, add) => if id in c then WithMessage(c, id, Reacted(c[id], peer, emoji, add)) else c
    case SetStatus(id, status) => if id in c then c[id := c[id].(status := status)] else c
    case Record(id, peer, receipt) => if id in c then WithMessage(c, id, Receipted(c[id], peer, receipt)) else c
    case Merge(remote, _) => MapOf(remote) + c
  }

  ghost function MapInSequence(c: Conversation, ops: seq<Op>): Conversation {
    if ops == [] then c else MapAfter(MapInSequence(c, ops[..|ops| - 1]), ops[|ops| - 1])
  }

  // ---- Each operation refines its map form ----

  lemma {:induction false} MapOfRepresents(list: seq<Message>)
    requires DistinctIds(list)
    ensures Represents(list, MapOf(list))
  {
    if list == [] {
    } else {
      var front, x := list[..|list| - 1], list[|list| - 1];
      MapOfRepresents(front);
      assert list == front + [x];
      assert forall y <- front :: y.id != x.id;
    }
  }

  lemma SaveRefines(stored: Option<seq<Message>>, c: Conversation, m: Message, now: int)
    requires Represents(ListOf(stored), c)
    ensures Represents(ListOf(After(stored, Save(m, now), Unbounded)), MapAfter(c, Save(m, now)))
  {
    var list, after := ListOf(stored), ListOf(After(stored, Save(m, now), Unbounded));
    EffectKeepsDistinctIds(Save(m, now), stored, Unbounded);
    SaveThenFind(stored, m, Unbounded, now);
    assert DistinctIds(after);
    hide Effect, MapOf, After, DistinctIds;
    SavedElements(list, after, m);
    PutRefines(list, c, after, m);
  }

  lemma PutRefines(list: seq<Message>, c: Conversation, after: seq<Message>, m: Message)
    requires Represents(list, c) && DistinctIds(after)
    requires forall x :: x in after <==> x == m || (x in list && x.id != m.id)
    ensures Represents(after, if m.id == "" then c else c[m.id := m])
  {
    hide DistinctIds;
  }

  lemma SavedElements(list: seq<Message>, after: seq<Message>, m: Message)
    requires if HasId(list, m.id)
             then |after| == |list| &&
                  forall i | 0 <= i < |list| :: after[i] == if list[i].id == m.id then m else list[i]
             else after == list + [m]
    ensures forall x :: x in after <==> x == m || (x in list && x.id != m.id)
  {
    if HasId(list, m.id) {
      forall x ensures x in after <==> x == m || (x in list && x.id != m.id) {
        SavedElement(list, after, m, x);
      }
    } else {
      AppendedElements(list, m);
    }
  }

  lemma AppendedElements(list: seq<Message>, m: Message)
    requires !HasId(list, m.id)
    ensures forall x :: x in list + [m] <==> x == m || (x in list && x.id != m.id)
  {
  }

  lemma SavedElement(list: seq<Message>, after: seq<Message>, m: Message, x: Message)
    requires HasId(list, m.id) && |after| == |list|
    requires forall i | 0 <= i < |list| :: after[i] == if list[i].id == m.id then m else list[i]
    ensures x in after <==> x == m || (x in list && x.id != m.id)
  {
    if x == m || (x in list && x.id != m.id) {
      var i :| 0 <= i < |list| && if x == m then list[i].id == m.id else list[i] == x;
      assert after[i] == x;
    }
  }

  lemma RemoveRefines(list: seq<Message>, c: Conversation, id: string)
    requires Represents(list, c)
    ensures Represents(Left(Remove(id), list, Unbounded), MapAfter(c, Remove(id)))
  {
    WithoutElements(list, id);
    RemoveTakesOut(list, id, Unbounded);
    EffectKeepsDistinctIds(Remove(id), Some(list), Unbounded);
    hide MapOf, Without;
  }

  /** A change of at most the message with the id, in its place. */
  lemma ChangeRefines(list: seq<Message>, c: Conversation, id: string, after: seq<Message>, changed: Message)
    requires Represents(list, c) && |after| == |list|
    requires forall i | 0 <= i < |list| :: after[i] == if list[i].id == id then changed else list[i]
    requires changed.id == id
    ensures Represents(after, if id in c then c[id := changed] else c)
  {
    forall x | x in after ensures x == changed || (x in list && x.id != id) {
    }
    forall x | x in list && x.id != id ensures x in after {
      var i :| 0 <= i < |list| && list[i] == x;
      assert after[i] == x;
    }
    if id in c {
      var i :| 0 <= i < |list| && list[i] == c[id];
      assert after[i] == changed;
    }
  }

  lemma UpdateRefines(list: seq<Message>, c: Conversation, op: Op, id: string, change: Change)
    requires Represents(list, c) && Effect(op, Some(list), Unbounded) == Updated(list, id, change)
    requires forall m :: change(m).Some? ==> change(m).value.id == m.id
    ensures Represents(Left(op, list, Unbounded), if id in c then WithMessage(c, id, change(c[id])) else c)
  {
    var r, i := Updated(list, id, change), IndexOf(list, id);
    IndexOfMissing(list, id);
    if id in c {
      assert c[id] in list;
      var j :| 0 <= j < |list| && list[j] == c[id];
      assert i == j;
    }
    if r.Write? {
      assert list[i] in list;
      ChangeRefines(list, c, id, r.messages, change(list[i]).value);
    }
  }

  lemma MergeRefines(stored: Option<seq<Message>>, c: Conversation, op: Op)
    requires Represents(ListOf(stored), c) && op.Merge? && StoresDistinct(op)
    ensures Represents(ListOf(After(stored, op, Unbounded)), MapAfter(c, op))
  {
    var remote := op.remote;
    MapOfRepresents(remote);
    if stored.Some? {
      var list, merged := stored.value, op.merged(stored.value);
      assert merged == Archive.MergedMessages(list, remote);
      ArchiveLaws.MergedElements(list, remote);
      ArchiveLaws.MergedIdsDistinct(list, remote);
      UnionRefines(list, c, remote, MapOf(remote), merged);
    } else {
      assert c == map[] && MapOf(remote) + c == MapOf(remote);
    }
  }

  lemma UnionRefines(list: seq<Message>, c: Conversation, remote: seq<Message>, d: Conversation, merged: seq<Message>)
    requires Represents(list, c) && Represents(remote, d) && DistinctIds(merged)
    requires forall x :: x in merged <==> x.id != "" && (x in list || (x in remote && !HasId(list, x.id)))
    ensures Represents(merged, d + c)
  {
    hide DistinctIds;
    forall id <- d + c ensures id != "" && (d + c)[id] in merged && (d + c)[id].id == id {
      if id !in c {
        assert HasId(list, id) ==> id in c;
      }
    }
  }

  lemma EffectRefines(stored: Option<seq<Message>>, c: Conversation, op: Op)
    requires Represents(ListOf(stored), c) && StoresDistinct(op)
    ensures Represents(ListOf(After(stored, op, Unbounded)), MapAfter(c, op))
  {
    if op.Save? {
      SaveRefines(stored, c, op.message, op.now);
    } else if op.Merge? {
      MergeRefines(stored, c, op);
    } else if stored.None? {
      assert c == map[];
    } else {
      var list := stored.value;
      match op
      case Remove(id) => RemoveRefines(list, c, id);
      case React(id, peer, emoji, add) => UpdateRefines(list, c, op, id, Toggle(peer, emoji, add));
      case SetStatus(id, status) => UpdateRefines(list, c, op, id, Mark(status));
      case Record(id, peer, receipt) => UpdateRefines(list, c, op, id, Acknowledge(peer, receipt));
    }
  }

  // ---- Runs ----

  lemma {:induction false} SequenceRefines(stored: Option<seq<Message>>, c: Conversation, ops: seq<Op>)
    requires Represents(ListOf(stored), c) && forall op <- ops :: StoresDistinct(op)
    ensures Represents(ListOf(InSequence(stored, ops, Unbounded)), MapInSequence(c, ops))
  {
    if ops == [] {
    } else {
      var front, op := ops[..|ops| - 1], ops[|ops| - 1];
      assert op in ops && forall o <- front :: o in ops;
      hide Represents, StoresDistinct, MapAfter;
      SequenceRefines(stored, c, front);
      EffectRefines(InSequence(stored, front, Unbounded), MapInSequence(c, front), op);
    }
  }

  /**
    In every interleaving, a conversation stored under unbounded retention holds what the operations that took effect,
    one after another in call order, make of the map it started as.
   */
  lemma ConversationsAreMaps(initial: Stored, events: seq<Event>, l: Loop, key: Key, c: Conversation)
    requires Run(Start(initial, Unbounded), events, l)
    requires Represents(ListOf(Get(initial, key)), c) && forall t <- l.tasks :: StoresDistinct(t.op)
    ensures Represents(ListOf(Get(l.storage, key)), MapInSequence(c, Done(l.tasks, key, |l.tasks|)))
  {
    LockedRunsAreSequential(initial, Unbounded, events, l, key);
    RetentionStays(Start(initial, Unbounded), events, l);
    DoneAmong(l.tasks, key, |l.tasks|);
    hide StoresDistinct;
    SequenceRefines(Get(initial, key), c, Done(l.tasks, key, |l.tasks|));
  }

  lemma {:induction false} RetentionStays(l: Loop, events: seq<Event>, l': Loop)
    requires Run(l, events, l')
    ensures l'.retention == l.retention
    decreases |events|
  {
    if events == [] {
    } else {
      hide Effect;
      RetentionStays(Apply(l, events[0]), events[1..], l');
    }
  }

  predicate TakesOut(op: Op, id: string) {
    (op.Remove? && op.id == id) || (op.Save? && op.message.id == id)
  }

  /** Apart from status, reactions and receipts, which later operations may change. */
  predicate SameBody(x: Message, m: Message) {
    x.(status := m.status, reactions := m.reactions, groupReceipts := m.groupReceipts) == m
  }

  ghost predicate Holding(c: Conversation, m: Message) {
    m.id in c && SameBody(c[m.id], m)
  }

  lemma HoldingKept(c: Conversation, op: Op, m: Message)
    requires Holding(c, m) && !TakesOut(op, m.id)
    ensures Holding(MapAfter(c, op), m)
  {
    hide MapOf;
  }

  lemma {:induction false} SavedStays(tasks: seq<Task>, key: Key, j: nat, n: nat, c: Conversation)
    requires j < n <= |tasks| && tasks[j].key == key && TookEffect(tasks[j].stage)
    requires tasks[j].op.Save? && tasks[j].op.message.id != ""
    requires forall i | j < i < n && tasks[i].key == key && TookEffect(tasks[i].stage) ::
               !TakesOut(tasks[i].op, tasks[j].op.message.id)
    ensures Holding(MapInSequence(c, Done(tasks, key, n)), tasks[j].op.message)
    decreases n
  {
    var m, before := tasks[j].op.message, Done(tasks, key, n - 1);
    hide MapAfter, Holding, TakesOut;
    if j < n - 1 {
      SavedStays(tasks, key, j, n - 1, c);
      if tasks[n - 1].key == key && TookEffect(tasks[n - 1].stage) {
        assert (before + [tasks[n - 1].op])[..|before|] == before;
        HoldingKept(MapInSequence(c, before), tasks[n - 1].op, m);
      }
    } else {
      assert (before + [tasks[j].op])[..|before|] == before;
      SavedIsHeld(MapInSequence(c, before), tasks[j].op);
    }
  }

  lemma SavedIsHeld(c: Conversation, op: Op)
    requires op.Save? && op.message.id != ""
    ensures Holding(MapAfter(c, op), op.message)
  {
    hide MapOf;
  }

  /**
    A message whose save took effect is in the final list, with its time, direction and payload, unless an operation
    called later removed or replaced it, however saves, updates and archive merges interleave.
   */
  lemma SavedMessageStays(initial: Stored, events: seq<Event>, l: Loop, j: nat)
    requires Run(Start(initial, Unbounded), events, l)
    requires (forall k <- initial :: DistinctIds(initial[k])) && forall t <- l.tasks :: StoresDistinct(t.op)
    requires j < |l.tasks| && l.tasks[j].op.Save? && TookEffect(l.tasks[j].stage)
    requires l.tasks[j].op.message.id != ""
    requires forall i | j < i < |l.tasks| && l.tasks[i].key == l.tasks[j].key && TookEffect(l.tasks[i].stage) ::
               !TakesOut(l.tasks[i].op, l.tasks[j].op.message.id)
    ensures var key, m := l.tasks[j].key, l.tasks[j].op.message;
            key in l.storage && exists x <- l.storage[key] :: x.id == m.id && SameBody(x, m)
  {
    var key, m := l.tasks[j].key, l.tasks[j].op.message;
    var c := MapOf(ListOf(Get(initial, key)));
    MapOfRepresents(ListOf(Get(initial, key)));
    ConversationsAreMaps(initial, events, l, key, c);
    SavedStays(l.tasks, key, j, |l.tasks|, c);
    hide MapInSequence, MapOf, StoresDistinct, Run, TakesOut, TookEffect;
    var last := MapInSequence(c, Done(l.tasks, key, |l.tasks|));
    assert m.id in last && last[m.id] in ListOf(Get(l.storage, key));
  }
}
