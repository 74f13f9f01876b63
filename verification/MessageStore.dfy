/** Stored conversations and the operations on them, `src/sdk/message-handler.ts`. */
module MessageStore {
  import opened Wrappers

  datatype Direction = Inbound | Outbound
  datatype Status = Sending | Sent | Delivered | Read | Failed
  datatype Receipt = ReceiptDelivered | ReceiptRead

  /** A stored message; a missing id is "", a missing timestamp 0, missing maps are empty. */
  datatype Message = Message(
    id: string, timestamp: int, direction: Direction, status: Status,
    reactions: map<string, seq<string>>, groupReceipts: map<string, Receipt>, payload: seq<int>)

  datatype Retention = Unbounded | Count(max: nat) | AgeMs(max: nat)

  /** What an operation does with the list it read: store another, leave it, or throw. */
  datatype Outcome = Write(messages: seq<Message>) | Keep

  ghost predicate DistinctIds(messages: seq<Message>) {
    forall i, j | 0 <= i < j < |messages| :: messages[i].id != messages[j].id
  }

  predicate HasId(messages: seq<Message>, id: string) {
    exists m <- messages :: m.id == id
  }

  /** `findIndex`: the first message with the id, or the length. */
  function IndexOf(messages: seq<Message>, id: string): (i: nat)
    ensures i <= |messages|
    ensures i < |messages| ==> messages[i].id == id
    ensures forall j | 0 <= j < i :: messages[j].id != id
  {
    if messages == [] then 0
    else if messages[0].id == id then 0
    else 1 + IndexOf(messages[1..], id)
  }

  /** The leading messages older than the cutoff. */
  function TooOld(messages: seq<Message>, cutoff: int): nat {
    if messages == [] || messages[0].timestamp >= cutoff then 0 else 1 + TooOld(messages[1..], cutoff)
  }

  lemma {:induction false} TooOldWithin(messages: seq<Message>, cutoff: int)
    ensures TooOld(messages, cutoff) <= |messages|
    ensures forall i | 0 <= i < TooOld(messages, cutoff) :: messages[i].timestamp < cutoff
    ensures TooOld(messages, cutoff) < |messages| ==> messages[TooOld(messages, cutoff)].timestamp >= cutoff
  {
    if messages != [] && messages[0].timestamp < cutoff {
      TooOldWithin(messages[1..], cutoff);
    }
  }

  /** `applyRetention`: oldest messages are dropped from the front. */
  function Retained(messages: seq<Message>, retention: Retention, now: int): seq<Message> {
    match retention
    case Unbounded => messages
    case Count(max) => if |messages| > max then messages[|messages| - max..] else messages
    case AgeMs(max) =>
      TooOldWithin(messages, now - max);
      messages[TooOld(messages, now - max)..]
  }

  function Saved(messages: seq<Message>, m: Message, retention: Retention, now: int): seq<Message> {
    var i := IndexOf(messages, m.id);
    if i < |messages| then messages[i := m] else Retained(messages + [m], retention, now)
  }

  function Without(messages: seq<Message>, id: string): seq<Message> {
    if messages == [] then [] else
    var rest := Without(messages[..|messages| - 1], id);
    if messages[|messages| - 1].id == id then rest else rest + [messages[|messages| - 1]]
  }

  function WithoutPeer(reactors: seq<string>, peer: string): seq<string> {
    if reactors == [] then [] else
    var rest := WithoutPeer(reactors[..|reactors| - 1], peer);
    if reactors[|reactors| - 1] == peer then rest else rest + [reactors[|reactors| - 1]]
  }

  function Reactors(m: Message, emoji: string): seq<string> {
    if emoji in m.reactions then m.reactions[emoji] else []
  }

  /** A reaction toggled: `None` when the requested state already holds. */
  function Reacted(m: Message, peer: string, emoji: string, add: bool): Option<Message> {
    var reactors := Reactors(m, emoji);
    if add == (peer in reactors) then None
    else if add then Some(m.(reactions := m.reactions[emoji := reactors + [peer]]))
    else
      var next := WithoutPeer(reactors, peer);
      Some(m.(reactions := if next == [] then m.reactions - {emoji} else m.reactions[emoji := next]))
  }

  /** A per-member receipt recorded, never from read back to delivered. */
  function Receipted(m: Message, peer: string, receipt: Receipt): Option<Message> {
    if m.direction != Outbound then None
    else if peer in m.groupReceipts && (m.groupReceipts[peer] == receipt || m.groupReceipts[peer] == ReceiptRead)
    then None
    else Some(m.(groupReceipts := m.groupReceipts[peer := receipt]))
  }

  /** The change an operation makes to one message, if any. */
  type Change = Message -> Option<Message>

  function Toggle(peer: string, emoji: string, add: bool): Change {
    m => Reacted(m, peer, emoji, add)
  }

  function Mark(status: Status): Change {
    (m: Message) => Some(m.(status := status))
  }

  function Acknowledge(peer: string, receipt: Receipt): Change {
    m => Receipted(m, peer, receipt)
  }

  /** Update the first message with the id, if there is one and there is something to change. */
  function Updated(messages: seq<Message>, id: string, change: Change): Outcome {
    var i := IndexOf(messages, id);
    if i == |messages| || change(messages[i]).None? then Keep else Write(messages[i := change(messages[i]).value])
  }

  lemma {:induction false} IndexOfMissing(messages: seq<Message>, id: string)
    ensures IndexOf(messages, id) == |messages| <==> !HasId(messages, id)
  {
    if messages == [] {
    } else {
      IndexOfMissing(messages[1..], id);
      assert messages == [messages[0]] + messages[1..];
    }
  }

  lemma {:induction false} WithoutElements(messages: seq<Message>, id: string)
    ensures forall m :: m in Without(messages, id) <==> m in messages && m.id != id
    ensures DistinctIds(messages) ==> DistinctIds(Without(messages, id))
  {
    if messages == [] {
    } else {
      var front := messages[..|messages| - 1];
      WithoutElements(front, id);
      assert messages == front + [messages[|messages| - 1]];
    }
  }

  // ---- The locked operations ----

  /** The handler's five operations and the archive merge of a remote list, which is given by its result. */
  datatype Op =
    | Save(message: Message, now: int)
    | Remove(id: string)
    | React(id: string, peer: string, emoji: string, add: bool)
    | SetStatus(id: string, status: Status)
    | Record(id: string, peer: string, receipt: Receipt)
    | Merge(remote: seq<Message>, merged: seq<Message> -> seq<Message>)

  /** What an operation makes of the stored list. */
  function Effect(op: Op, stored: Option<seq<Message>>, retention: Retention): Outcome {
    match op
    case Save(m, now) => Write(Saved(if stored.Some? then stored.value else [], m, retention, now))
    case Merge(remote, merged) => Write(if stored.Some? then merged(stored.value) else remote)
    case _ =>
      if stored.None? then Keep else
      match op
      case Remove(id) =>
        var filtered := Without(stored.value, id);
        if |filtered| != |stored.value| then Write(filtered) else Keep
      case React(id, peer, emoji, add) => Updated(stored.value, id, Toggle(peer, emoji, add))
      case SetStatus(id, status) => Updated(stored.value, id, Mark(status))
      case Record(id, peer, receipt) => Updated(stored.value, id, Acknowledge(peer, receipt))
      case Save(_, _) => Keep
      case Merge(_, _) => Keep
  }

  lemma UpdatedKeepsIds(messages: seq<Message>, id: string, change: Change)
    requires DistinctIds(messages)
    requires forall m :: change(m).Some? ==> change(m).value.id == m.id
    ensures var r := Updated(messages, id, change); r.Write? ==> DistinctIds(r.messages)
  {
  }

  lemma SavedKeepsIds(messages: seq<Message>, m: Message, retention: Retention, now: int)
    requires DistinctIds(messages)
    ensures DistinctIds(Saved(messages, m, retention, now))
  {
    IndexOfMissing(messages, m.id);
    if IndexOf(messages, m.id) == |messages| {
      forall i | 0 <= i < |messages| ensures messages[i].id != m.id {
        assert messages[i] in messages;
      }
      var all := messages + [m];
      assert DistinctIds(all);
      if retention.AgeMs? {
        TooOldWithin(all, now - retention.max);
      }
    }
  }

  /** An operation never gives two stored messages one id. */
  lemma EffectKeepsDistinctIds(op: Op, stored: Option<seq<Message>>, retention: Retention)
    requires stored.Some? ==> DistinctIds(stored.value)
    requires op.Merge? ==> DistinctIds(op.remote) && forall l :: DistinctIds(l) ==> DistinctIds(op.merged(l))
    ensures var r := Effect(op, stored, retention); r.Write? ==> DistinctIds(r.messages)
  {
    if op.Save? && stored.None? {
      SavedKeepsIds([], op.message, retention, op.now);
    } else if stored.Some? {
      match op
      case Save(m, now) => SavedKeepsIds(stored.value, m, retention, now);
      case Remove(id) => WithoutElements(stored.value, id);
      case React(id, peer, emoji, add) => UpdatedKeepsIds(stored.value, id, Toggle(peer, emoji, add));
      case SetStatus(id, status) => UpdatedKeepsIds(stored.value, id, Mark(status));
      case Record(id, peer, receipt) => UpdatedKeepsIds(stored.value, id, Acknowledge(peer, receipt));
      case Merge(_, _) =>
    }
  }

  /** Dropped from the front only: nothing when unbounded, down to the newest `max`, or just the leading old ones. */
  ghost predicate NewestKept(all: seq<Message>, kept: seq<Message>, retention: Retention, now: int) {
    var dropped := |all| - |kept|;
    && 0 <= dropped && kept == all[dropped..]
    && (retention.Unbounded? ==> dropped == 0)
    && (retention.Count? ==> |kept| == if |all| < retention.max then |all| else retention.max)
    && (retention.AgeMs? ==>
          (forall i | 0 <= i < dropped :: all[i].timestamp < now - retention.max) &&
          (kept != [] ==> kept[0].timestamp >= now - retention.max))
  }

  lemma RetentionKeepsNewest(messages: seq<Message>, retention: Retention, now: int)
    ensures NewestKept(messages, Retained(messages, retention, now), retention, now)
  {
    if retention.AgeMs? {
      TooOldWithin(messages, now - retention.max);
    }
  }

  // ---- What each operation does to the list ----

  /**
    A save replaces the one copy with its id in place, or else goes last, and then retention may drop messages from the
    front.
   */
  lemma SaveThenFind(stored: Option<seq<Message>>, m: Message, retention: Retention, now: int)
    requires stored.Some? ==> DistinctIds(stored.value)
    ensures var messages := if stored.Some? then stored.value else [];
            var r := Effect(Save(m, now), stored, retention);
            && r.Write?
            && (HasId(messages, m.id) ==>
                  && |r.messages| == |messages|
                  && forall i | 0 <= i < |messages| ::
                       r.messages[i] == if messages[i].id == m.id then m else messages[i])
            && (!HasId(messages, m.id) ==> NewestKept(messages + [m], r.messages, retention, now))
  {
    var messages := if stored.Some? then stored.value else [];
    if HasId(messages, m.id) {
      SavedInPlace(messages, m, retention, now);
    } else {
      SavedLast(messages, m, retention, now);
      hide Saved, Retained, NewestKept;
      RetentionKeepsNewest(messages + [m], retention, now);
    }
  }

  lemma SavedInPlace(messages: seq<Message>, m: Message, retention: Retention, now: int)
    requires DistinctIds(messages) && HasId(messages, m.id)
    ensures var saved := Saved(messages, m, retention, now);
            && |saved| == |messages|
            && forall i | 0 <= i < |messages| :: saved[i] == if messages[i].id == m.id then m else messages[i]
  {
    IndexOfMissing(messages, m.id);
    var k := IndexOf(messages, m.id);
    assert messages[k].id == m.id;
  }

  lemma SavedLast(messages: seq<Message>, m: Message, retention: Retention, now: int)
    requires !HasId(messages, m.id)
    ensures Saved(messages, m, retention, now) == Retained(messages + [m], retention, now)
  {
    IndexOfMissing(messages, m.id);
  }

  lemma {:induction false} WithoutMissing(messages: seq<Message>, id: string)
    requires !HasId(messages, id)
    ensures Without(messages, id) == messages
  {
    if messages == [] {
    } else {
      var front := messages[..|messages| - 1];
      assert messages == front + [messages[|messages| - 1]];
      assert messages[|messages| - 1] in messages && forall m <- front :: m in messages;
      WithoutMissing(front, id);
    }
  }

  lemma {:induction false} WithoutOne(messages: seq<Message>, id: string, i: nat)
    requires DistinctIds(messages) && i < |messages| && messages[i].id == id
    ensures Without(messages, id) == messages[..i] + messages[i + 1..]
  {
    var front := messages[..|messages| - 1];
    if i == |messages| - 1 {
      assert forall m <- front :: m.id != id;
      WithoutMissing(front, id);
    } else {
      WithoutOne(front, id, i);
      assert front[..i] == messages[..i];
      assert front[i + 1..] + [messages[|messages| - 1]] == messages[i + 1..];
    }
  }

  /** A removal takes out exactly the message with the id and keeps the order; without one it stores nothing. */
  lemma RemoveTakesOut(messages: seq<Message>, id: string, retention: Retention)
    requires DistinctIds(messages)
    ensures var r := Effect(Remove(id), Some(messages), retention);
            && (r.Write? <==> HasId(messages, id))
            && (r.Write? ==>
                  exists i ::
                    0 <= i < |messages| && messages[i].id == id && r.messages == messages[..i] + messages[i + 1..])
  {
    if HasId(messages, id) {
      var i :| 0 <= i < |messages| && messages[i].id == id;
      WithoutOne(messages, id, i);
    } else {
      WithoutMissing(messages, id);
    }
  }

  /** The list an operation leaves behind, changed or not. */
  ghost function Left(op: Op, messages: seq<Message>, retention: Retention): seq<Message> {
    var r := Effect(op, Some(messages), retention);
    if r.Write? then r.messages else messages
  }

  /**
    A reaction ends in the requested state on the message it names, touches no other message, peer, emoji or field,
    never stores an empty list, and writes exactly when there was something to change.
   */
  lemma ReactionIsSet(messages: seq<Message>, id: string, peer: string, emoji: string, add: bool,
                      retention: Retention, i: nat)
    requires DistinctIds(messages) && i < |messages|
    ensures var op := React(id, peer, emoji, add);
            var after, m, written := Left(op, messages, retention), messages[i],
                                     Effect(op, Some(messages), retention).Write?;
            && |after| == |messages|
            && (written ==> HasId(messages, id))
            && (m.id != id ==> after[i] == m)
            && (m.id == id ==>
                  && (written <==> (peer in Reactors(m, emoji)) != add)
                  && after[i].(reactions := m.reactions) == m
                  && (peer in Reactors(after[i], emoji) <==> add)
                  && (written && emoji in after[i].reactions ==> after[i].reactions[emoji] != [])
                  && forall other, e | other != peer || e != emoji ::
                       other in Reactors(after[i], e) <==> other in Reactors(m, e))
  {
    UpdateTouchesOneMessage(messages, id, Toggle(peer, emoji, add), i);
    IndexOfMissing(messages, id);
    if messages[i].id == id {
      assert messages[i] in messages;
      forall other, e | other != peer || e != emoji
        ensures other in Reactors(Left(React(id, peer, emoji, add), messages, retention)[i], e) <==>
                other in Reactors(messages[i], e)
      {
        ReactionTakesEffect(messages[i], peer, emoji, add, other, e);
      }
      ReactionTakesEffect(messages[i], peer, emoji, add, peer, emoji);
    }
  }

  /**
    A receipt is recorded for its peer on the outbound message it names, never from read back to delivered, and touches
    no other message, peer or field.
   */
  lemma ReceiptIsRecorded(messages: seq<Message>, id: string, peer: string, receipt: Receipt, retention: Retention,
                          i: nat)
    requires DistinctIds(messages) && i < |messages|
    ensures var op := Record(id, peer, receipt);
            var after, m, written := Left(op, messages, retention), messages[i],
                                     Effect(op, Some(messages), retention).Write?;
            && |after| == |messages|
            && (written ==> HasId(messages, id))
            && (m.id != id ==> after[i] == m)
            && (m.id == id ==>
                  && after[i].(groupReceipts := m.groupReceipts) == m
                  && after[i].groupReceipts - {peer} == m.groupReceipts - {peer}
                  && (m.direction == Inbound ==> !written)
                  && (m.direction == Outbound ==>
                        && peer in after[i].groupReceipts
                        && (after[i].groupReceipts[peer] == ReceiptRead <==>
                              receipt == ReceiptRead
                              || (peer in m.groupReceipts && m.groupReceipts[peer] == ReceiptRead))
                        && (written <==> peer !in m.groupReceipts
                                         || m.groupReceipts[peer] != after[i].groupReceipts[peer])))
  {
    UpdateTouchesOneMessage(messages, id, Acknowledge(peer, receipt), i);
    IndexOfMissing(messages, id);
    if messages[i].id == id {
      assert messages[i] in messages;
      var after := Left(Record(id, peer, receipt), messages, retention)[i].groupReceipts;
      assert after - {peer} == messages[i].groupReceipts - {peer};
    }
  }

  /** Of a conversation with nothing stored, only a save or a merge stores anything. */
  lemma NothingStored(op: Op, retention: Retention)
    ensures Effect(op, None, retention).Write? <==> op.Save? || op.Merge?
  {
  }

  /** Updating changes the one copy that has the id, in its place, and is refused only if there is nothing to change. */
  lemma UpdateTouchesOneMessage(messages: seq<Message>, id: string, change: Change, i: nat)
    requires DistinctIds(messages) && i < |messages|
    ensures var r := Updated(messages, id, change);
            if r.Write?
            then |r.messages| == |messages| && HasId(messages, id) &&
                 (if messages[i].id == id then Some(r.messages[i]) == change(messages[i])
                  else r.messages[i] == messages[i])
            else messages[i].id == id ==> change(messages[i]).None?
  {
    IndexOfMissing(messages, id);
    if messages[i].id == id {
      var k := IndexOf(messages, id);
      assert messages[i] in messages;
      assert k == i;
    }
  }

  /** A status control message sets the status of the message it names, and of no other. */
  lemma StatusIsSet(messages: seq<Message>, id: string, status: Status, retention: Retention, i: nat)
    requires DistinctIds(messages) && i < |messages| && HasId(messages, id)
    ensures var r := Effect(SetStatus(id, status), Some(messages), retention);
            && r.Write? && |r.messages| == |messages|
            && r.messages[i] == if messages[i].id == id then messages[i].(status := status) else messages[i]
  {
    IndexOfMissing(messages, id);
    UpdateTouchesOneMessage(messages, id, Mark(status), i);
  }

  /** Receipts only move forward, while the scalar status follows the last control message. */
  lemma ReceiptsNeverDowngrade(m: Message, peer: string, receipt: Receipt, other: string)
    ensures var r := Receipted(m, peer, receipt);
            && (r.Some? ==> peer in r.value.groupReceipts && r.value.groupReceipts[peer] == receipt)
            && (r.Some? && other in m.groupReceipts ==> other in r.value.groupReceipts)
            && (r.Some? && other in m.groupReceipts && m.groupReceipts[other] == ReceiptRead ==>
                  r.value.groupReceipts[other] == ReceiptRead)
            && (r.None? && m.direction == Outbound ==>
                  peer in m.groupReceipts && (m.groupReceipts[peer] == receipt || m.groupReceipts[peer] == ReceiptRead))
  {
  }

  lemma {:induction false} WithoutPeerElements(reactors: seq<string>, peer: string)
    ensures forall p :: p in WithoutPeer(reactors, peer) <==> p in reactors && p != peer
  {
    if reactors == [] {
    } else {
      WithoutPeerElements(reactors[..|reactors| - 1], peer);
      assert reactors == reactors[..|reactors| - 1] + [reactors[|reactors| - 1]];
    }
  }

  /** A reaction ends up in the requested state, touches no other peer or emoji, and never stores an empty list. */
  lemma ReactionTakesEffect(m: Message, peer: string, emoji: string, add: bool, other: string, e: string)
    ensures var after := if Reacted(m, peer, emoji, add).Some? then Reacted(m, peer, emoji, add).value else m;
            && (peer in Reactors(after, emoji) <==> add)
            && (other != peer || e != emoji ==> (other in Reactors(after, e) <==> other in Reactors(m, e)))
            && (Reacted(m, peer, emoji, add).Some? && emoji in after.reactions ==> after.reactions[emoji] != [])
            && after.(reactions := m.reactions) == m
  {
    WithoutPeerElements(Reactors(m, emoji), peer);
  }
}
