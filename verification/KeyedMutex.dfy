/**
  The keyed mutex of `src/sdk/keyed-mutex.ts` under the event loop. A call chains its function behind the
  promise found under its key; functions run in pieces, split at every await, and any other task may run between.
 */
module KeyedMutex {
  import opened Wrappers
  import opened MessageStore
  import Archive
  import ArchiveLaws

  type Key = string
  type Chains = map<Key, nat>   // per key, the task at the tail of its promise chain

  class Mutex {
    var chains: Chains

    constructor ()
      ensures chains == map[]
    {
      chains := map[];
    }

    /** `run` up to its first await: the new task waits for the old tail and becomes the tail. */
    method Enqueue(key: Key, task: nat) returns (prev: Option<nat>)
      modifies this`chains
      ensures prev == Tail(old(chains), key) && chains == old(chains)[key := task]
    {
      prev := if key in chains then Some(chains[key]) else None;
      chains := chains[key := task];
    }

    /** The `finally` block of `run`. */
    method Release(key: Key, task: nat)
      modifies this`chains
      ensures chains == Released(old(chains), key, task)
    {
      if key in chains && chains[key] == task {
        chains := chains - {key};
      }
    }
  }

  function Tail(chains: Chains, key: Key): Option<nat> {
    if key in chains then Some(chains[key]) else None
  }

  function Released(chains: Chains, key: Key, task: nat): Chains {
    if Tail(chains, key) == Some(task) then chains - {key} else chains
  }

  // ---- The event loop ----

  type Stored = map<Key, seq<Message>>

  /**
    Queued behind the chain; awaiting the stored list; holding what it read; having stored the new list; its promise
    settled, `done` unless it rejected before its change took effect.
   */
  datatype Stage = Queued | Reading | Loaded(raw: Option<seq<Message>>) | Written | Settled(done: bool)

  datatype Task = Task(key: Key, op: Op, prev: Option<nat>, stage: Stage)

  datatype Loop = Loop(tasks: seq<Task>, chains: Chains, storage: Stored, retention: Retention)

  datatype Event =
    | Call(key: Key, op: Op)
    | Begin(task: nat)          // the promise it waited for settled, either way: its function starts
    | Load(task: nat)           // `await storage.get` resumes
    | Store(task: nat)          // `storage.set` takes effect
    | Finish(task: nat)         // its promise resolves
    | Fail(task: nat)           // storage or the function itself throws, even after storing: its promise rejects
    | Release(task: nat)        // the `finally` block of its caller

  function Get(storage: Stored, key: Key): Option<seq<Message>> {
    if key in storage then Some(storage[key]) else None
  }

  predicate Enabled(l: Loop, e: Event) {
    if e.Call? then true else
    e.task < |l.tasks| &&
    var t := l.tasks[e.task];
    match e
    case Begin(_) =>
      t.stage.Queued? && (t.prev.Some? ==> t.prev.value < |l.tasks| && l.tasks[t.prev.value].stage.Settled?)
    case Load(_) => t.stage.Reading?
    case Store(_) => t.stage.Loaded? && Effect(t.op, t.stage.raw, l.retention).Write?
    case Finish(_) => t.stage.Written? || (t.stage.Loaded? && Effect(t.op, t.stage.raw, l.retention).Keep?)
    case Fail(_) => t.stage.Reading? || t.stage.Loaded? || t.stage.Written?
    case Release(_) => t.stage.Settled?
    case Call(_, _) => true
  }

  function WithStage(l: Loop, task: nat, stage: Stage): Loop
    requires task < |l.tasks|
  {
    l.(tasks := l.tasks[task := l.tasks[task].(stage := stage)])
  }

  function Apply(l: Loop, e: Event): Loop
    requires Enabled(l, e)
  {
    match e
    case Call(key, op) =>
      l.(tasks := l.tasks + [Task(key, op, Tail(l.chains, key), Queued)], chains := l.chains[key := |l.tasks|])
    case Begin(t) => WithStage(l, t, Reading)
    case Load(t) => WithStage(l, t, Loaded(Get(l.storage, l.tasks[t].key)))
    case Store(t) =>
      var task := l.tasks[t];
      WithStage(l, t, Written).(storage := l.storage[task.key := Effect(task.op, task.stage.raw, l.retention).messages])
    case Finish(t) => WithStage(l, t, Settled(true))
    case Fail(t) => WithStage(l, t, Settled(l.tasks[t].stage.Written?))
    case Release(t) => l.(chains := Released(l.chains, l.tasks[t].key, t))
  }

  ghost predicate Run(l: Loop, events: seq<Event>, l': Loop)
    decreases |events|
  {
    if events == [] then l == l' else Enabled(l, events[0]) && Run(Apply(l, events[0]), events[1..], l')
  }

  /** Nothing called yet; the storage may hold earlier lists. */
  function Start(storage: Stored, retention: Retention): Loop {
    Loop([], map[], storage, retention)
  }

  // ---- One at a time, in call order ----

  /** Of two tasks on one key, the later starts only after the earlier has settled. */
  ghost predicate InOrder(l: Loop, i: nat, j: nat)
    requires i < |l.tasks| && j < |l.tasks|
  {
    i < j && l.tasks[i].key == l.tasks[j].key ==> l.tasks[j].stage.Queued? || l.tasks[i].stage.Settled?
  }

  ghost predicate InCallOrder(l: Loop) {
    forall i: nat, j: nat | i < |l.tasks| && j < |l.tasks| :: InOrder(l, i, j)
  }

  /** What each task waits for: the call just before it on its key, or nothing if all before have settled. */
  ghost predicate WaitsForLast(l: Loop, j: nat)
    requires j < |l.tasks|
  {
    match l.tasks[j].prev
    case None => forall i | 0 <= i < j && l.tasks[i].key == l.tasks[j].key :: l.tasks[i].stage.Settled?
    case Some(p) =>
      p < j && l.tasks[p].key == l.tasks[j].key && forall i | p < i < j :: l.tasks[i].key != l.tasks[j].key
  }

  /** A cleaned-up key has nothing left to wait for; otherwise the tail is the last call on the key. */
  ghost predicate TailOk(l: Loop, key: Key) {
    match Tail(l.chains, key)
    case None => forall i | 0 <= i < |l.tasks| && l.tasks[i].key == key :: l.tasks[i].stage.Settled?
    case Some(p) => p < |l.tasks| && l.tasks[p].key == key && forall i | p < i < |l.tasks| :: l.tasks[i].key != key
  }

  ghost predicate ChainsOk(l: Loop) {
    && (forall key :: TailOk(l, key))
    && (forall j: nat | j < |l.tasks| :: WaitsForLast(l, j))
    && InCallOrder(l)
  }

  lemma TailKept(l: Loop, e: Event, l': Loop, key: Key)
    requires Enabled(l, e) && l' == Apply(l, e) && TailOk(l, key) && InCallOrder(l)
    ensures TailOk(l', key)
  {
    hide Effect;
    if e.Release? && Tail(l.chains, key) == Some(e.task) {
      forall i: nat | i < |l.tasks| && l.tasks[i].key == key ensures l.tasks[i].stage.Settled? {
        assert InOrder(l, i, e.task);
      }
    }
  }

  lemma WaitKept(l: Loop, e: Event, l': Loop, j: nat)
    requires Enabled(l, e) && l' == Apply(l, e) && j < |l'.tasks|
    requires if j < |l.tasks| then WaitsForLast(l, j) else TailOk(l, l'.tasks[j].key)
    ensures WaitsForLast(l', j)
  {
    hide Effect;
  }

  lemma OrderKept(l: Loop, e: Event, l': Loop, i: nat, j: nat)
    requires Enabled(l, e) && l' == Apply(l, e) && i < |l'.tasks| && j < |l'.tasks|
    requires i < |l.tasks| && j < |l.tasks| ==> InOrder(l, i, j) && WaitsForLast(l, j)
    requires j < |l.tasks| && l.tasks[j].prev.Some? && l.tasks[j].prev.value < j && i < l.tasks[j].prev.value ==>
               InOrder(l, i, l.tasks[j].prev.value)
    ensures InOrder(l', i, j)
  {
    hide Effect;
  }

  lemma ChainsKept(l: Loop, e: Event, l': Loop)
    requires Enabled(l, e) && l' == Apply(l, e) && ChainsOk(l)
    ensures ChainsOk(l')
  {
    hide Apply, TailOk, WaitsForLast, InOrder, Enabled;
    forall key ensures TailOk(l', key) {
      TailKept(l, e, l', key);
    }
    forall j: nat | j < |l'.tasks| ensures WaitsForLast(l', j) {
      WaitKept(l, e, l', j);
    }
    forall i: nat, j: nat | i < |l'.tasks| && j < |l'.tasks| ensures InOrder(l', i, j) {
      OrderKept(l, e, l', i, j);
    }
  }

  // ---- The stored list ----

  predicate TookEffect(stage: Stage) {
    stage == Written || stage == Settled(true)
  }

  /** The operations on a key, among the first `n` calls, that took effect, in call order. */
  ghost function Done(tasks: seq<Task>, key: Key, n: nat): seq<Op>
    requires n <= |tasks|
  {
    if n == 0 then [] else
    var before := Done(tasks, key, n - 1);
    if tasks[n - 1].key == key && TookEffect(tasks[n - 1].stage) then before + [tasks[n - 1].op] else before
  }

  /** All operations called on a key, in call order. */
  ghost function Called(tasks: seq<Task>, key: Key, n: nat): seq<Op>
    requires n <= |tasks|
  {
    if n == 0 then [] else
    var before := Called(tasks, key, n - 1);
    if tasks[n - 1].key == key then before + [tasks[n - 1].op] else before
  }

  function After(stored: Option<seq<Message>>, op: Op, retention: Retention): Option<seq<Message>> {
    var outcome := Effect(op, stored, retention);
    if outcome.Write? then Some(outcome.messages) else stored
  }

  /** The reference: the operations applied one after another, nothing in between. */
  ghost function InSequence(stored: Option<seq<Message>>, ops: seq<Op>, retention: Retention): Option<seq<Message>> {
    if ops == [] then stored else
    After(InSequence(stored, ops[..|ops| - 1], retention), ops[|ops| - 1], retention)
  }

  ghost predicate ListOk(initial: Stored, l: Loop, key: Key) {
    Get(l.storage, key) == InSequence(Get(initial, key), Done(l.tasks, key, |l.tasks|), l.retention)
  }

  /** What a task read is still what is stored. */
  ghost predicate ReadIsCurrent(l: Loop, i: nat)
    requires i < |l.tasks|
  {
    l.tasks[i].stage.Loaded? ==> l.tasks[i].stage.raw == Get(l.storage, l.tasks[i].key)
  }

  ghost predicate StorageOk(initial: Stored, l: Loop) {
    && (forall key :: ListOk(initial, l, key))
    && (forall i: nat | i < |l.tasks| :: ReadIsCurrent(l, i))
  }

  ghost predicate SameFor(t: Task, t': Task, key: Key) {
    && (t.key == key <==> t'.key == key)
    && (t.key == key ==> t.op == t'.op && (TookEffect(t.stage) <==> TookEffect(t'.stage)))
  }

  lemma {:induction false} DoneStable(tasks: seq<Task>, tasks': seq<Task>, key: Key, n: nat)
    requires n <= |tasks| && n <= |tasks'|
    requires forall i | 0 <= i < n :: SameFor(tasks[i], tasks'[i], key)
    ensures Done(tasks, key, n) == Done(tasks', key, n)
  {
    if n == 0 {
    } else {
      DoneStable(tasks, tasks', key, n - 1);
      assert SameFor(tasks[n - 1], tasks'[n - 1], key);
    }
  }

  /** Calls after `n` that have not started contribute nothing. */
  lemma {:induction false} DoneSkips(tasks: seq<Task>, key: Key, n: nat, m: nat)
    requires n <= m <= |tasks|
    requires forall i | n <= i < m && tasks[i].key == key :: tasks[i].stage.Queued?
    ensures Done(tasks, key, m) == Done(tasks, key, n)
    decreases m
  {
    if n < m {
      DoneSkips(tasks, key, n, m - 1);
    }
  }

  /** Nothing before or after a running task is also running, so its effect comes last. */
  lemma DoneGains(l: Loop, t: nat, stage: Stage)
    requires t < |l.tasks| && l.tasks[t].stage.Loaded? && TookEffect(stage) && InCallOrder(l)
    ensures var key, n := l.tasks[t].key, |l.tasks|;
            Done(WithStage(l, t, stage).tasks, key, n) == Done(l.tasks, key, n) + [l.tasks[t].op]
  {
    var key, tasks' := l.tasks[t].key, WithStage(l, t, stage).tasks;
    forall i | t < i < |l.tasks| && l.tasks[i].key == key ensures l.tasks[i].stage.Queued? {
      assert InOrder(l, t, i);
    }
    DoneSkips(l.tasks, key, t + 1, |l.tasks|);
    DoneSkips(tasks', key, t + 1, |l.tasks|);
    DoneStable(l.tasks, tasks', key, t);
  }

  lemma InSequenceNext(stored: Option<seq<Message>>, ops: seq<Op>, op: Op, retention: Retention)
    ensures InSequence(stored, ops + [op], retention) == After(InSequence(stored, ops, retention), op, retention)
  {
    assert (ops + [op])[..|ops|] == ops;
  }

  /** Steps that change neither which operations took effect on a key nor its stored list. */
  lemma ListUntouched(initial: Stored, l: Loop, l': Loop, key: Key)
    requires ListOk(initial, l, key) && |l.tasks| <= |l'.tasks| && l'.retention == l.retention
    requires Get(l'.storage, key) == Get(l.storage, key)
    requires forall i | 0 <= i < |l.tasks| :: SameFor(l.tasks[i], l'.tasks[i], key)
    requires forall i | |l.tasks| <= i < |l'.tasks| :: l'.tasks[i].stage.Queued?
    ensures ListOk(initial, l', key)
  {
    hide InSequence;
    DoneStable(l.tasks, l'.tasks, key, |l.tasks|);
    DoneSkips(l'.tasks, key, |l.tasks|, |l'.tasks|);
  }

  lemma ListGains(initial: Stored, l: Loop, l': Loop, t: nat, stage: Stage)
    requires t < |l.tasks| && l.tasks[t].stage.Loaded? && TookEffect(stage) && InCallOrder(l)
    requires l'.tasks == WithStage(l, t, stage).tasks && l'.retention == l.retention
    requires Get(l'.storage, l.tasks[t].key) == After(Get(l.storage, l.tasks[t].key), l.tasks[t].op, l.retention)
    requires ListOk(initial, l, l.tasks[t].key)
    ensures ListOk(initial, l', l.tasks[t].key)
  {
    hide After, InSequence;
    var key := l.tasks[t].key;
    DoneGains(l, t, stage);
    InSequenceNext(Get(initial, key), Done(l.tasks, key, |l.tasks|), l.tasks[t].op, l.retention);
  }

  lemma ListKept(initial: Stored, l: Loop, e: Event, l': Loop, key: Key)
    requires Enabled(l, e) && l' == Apply(l, e) && InCallOrder(l) && ListOk(initial, l, key)
    requires !e.Call? ==> ReadIsCurrent(l, e.task)
    ensures ListOk(initial, l', key)
  {
    hide Effect, ListOk, InOrder, Done;
    if (e.Store? || e.Finish?) && l.tasks[e.task].stage.Loaded? && l.tasks[e.task].key == key {
      ListGains(initial, l, l', e.task, if e.Store? then Written else Settled(true));
    } else {
      forall i | 0 <= i < |l.tasks| ensures SameFor(l.tasks[i], l'.tasks[i], key) {
      }
      ListUntouched(initial, l, l', key);
    }
  }

  lemma ReadKept(l: Loop, e: Event, l': Loop, i: nat)
    requires Enabled(l, e) && l' == Apply(l, e) && i < |l'.tasks|
    requires i < |l.tasks| ==> ReadIsCurrent(l, i)
    requires !e.Call? && i < |l.tasks| ==> InOrder(l, i, e.task) && InOrder(l, e.task, i)
    ensures ReadIsCurrent(l', i)
  {
    hide Effect;
  }

  lemma StorageKept(initial: Stored, l: Loop, e: Event, l': Loop)
    requires Enabled(l, e) && l' == Apply(l, e) && InCallOrder(l) && StorageOk(initial, l)
    ensures StorageOk(initial, l')
  {
    hide Apply, ListOk, ReadIsCurrent, InOrder;
    forall key ensures ListOk(initial, l', key) {
      ListKept(initial, l, e, l', key);
    }
    forall i: nat | i < |l'.tasks| ensures ReadIsCurrent(l', i) {
      ReadKept(l, e, l', i);
    }
  }

  lemma ChainsInOrder(l: Loop)
    requires ChainsOk(l)
    ensures InCallOrder(l)
  {
  }

  lemma {:induction false} RunKeeps(initial: Stored, l: Loop, events: seq<Event>, l': Loop)
    requires Run(l, events, l') && ChainsOk(l) && StorageOk(initial, l)
    ensures ChainsOk(l') && StorageOk(initial, l')
    decreases |events|
  {
    hide ChainsOk, StorageOk, Apply, Enabled;
    if events == [] {
    } else {
      var next := Apply(l, events[0]);
      ChainsInOrder(l);
      ChainsKept(l, events[0], next);
      StorageKept(initial, l, events[0], next);
      RunKeeps(initial, next, events[1..], l');
    }
  }

  // ---- Main results ----

  lemma StartOk(initial: Stored, retention: Retention)
    ensures ChainsOk(Start(initial, retention)) && StorageOk(initial, Start(initial, retention))
  {
  }

  /**
    In every interleaving: operations on one key run one at a time in call order, whatever fails and whenever the
    chains are cleaned up, and each stored list is what the operations that took effect make of it one after another.
   */
  lemma LockedRunsAreSequential(initial: Stored, retention: Retention, events: seq<Event>, l: Loop, key: Key)
    requires Run(Start(initial, retention), events, l)
    ensures InCallOrder(l)
    ensures Get(l.storage, key) == InSequence(Get(initial, key), Done(l.tasks, key, |l.tasks|), l.retention)
  {
    StartOk(initial, retention);
    RunKeeps(initial, Start(initial, retention), events, l);
    assert ListOk(initial, l, key);
  }

  lemma {:induction false} NoneFailedDone(tasks: seq<Task>, key: Key, n: nat)
    requires n <= |tasks|
    requires forall i | 0 <= i < n && tasks[i].key == key :: tasks[i].stage == Settled(true)
    ensures Done(tasks, key, n) == Called(tasks, key, n)
  {
    if n == 0 {
    } else {
      NoneFailedDone(tasks, key, n - 1);
    }
  }

  /** What the calls of a run were on a key. */
  function CallsIn(events: seq<Event>, key: Key): seq<Op> {
    if events == [] then [] else
    (if events[0].Call? && events[0].key == key then [events[0].op] else []) + CallsIn(events[1..], key)
  }

  lemma {:induction false} CalledStable(tasks: seq<Task>, tasks': seq<Task>, key: Key, n: nat)
    requires n <= |tasks| && n <= |tasks'|
    requires forall i | 0 <= i < n :: tasks[i].key == tasks'[i].key && tasks[i].op == tasks'[i].op
    ensures Called(tasks, key, n) == Called(tasks', key, n)
  {
    if n == 0 {
    } else {
      CalledStable(tasks, tasks', key, n - 1);
    }
  }

  lemma {:induction false} TasksRecordCalls(l: Loop, events: seq<Event>, l': Loop, key: Key)
    requires Run(l, events, l')
    ensures Called(l'.tasks, key, |l'.tasks|) == Called(l.tasks, key, |l.tasks|) + CallsIn(events, key)
    decreases |events|
  {
    hide Effect;
    if events == [] {
    } else {
      var next := Apply(l, events[0]);
      CalledStable(l.tasks, next.tasks, key, |l.tasks|);
      TasksRecordCalls(next, events[1..], l', key);
    }
  }

  /** No lost update: once every call on a key has succeeded, the list is all of them applied in the order called. */
  lemma NoUpdateLost(initial: Stored, retention: Retention, events: seq<Event>, l: Loop, key: Key)
    requires Run(Start(initial, retention), events, l)
    requires forall t <- l.tasks | t.key == key :: t.stage == Settled(true)
    ensures Get(l.storage, key) == InSequence(Get(initial, key), CallsIn(events, key), l.retention)
  {
    LockedRunsAreSequential(initial, retention, events, l, key);
    assert forall i | 0 <= i < |l.tasks| :: l.tasks[i] in l.tasks;
    NoneFailedDone(l.tasks, key, |l.tasks|);
    TasksRecordCalls(Start(initial, retention), events, l, key);
    assert [] + CallsIn(events, key) == CallsIn(events, key);
  }

  /**
    A failed or cleaned-up call never blocks a key: while some call on it is unsettled, one of them can take a step.
   */
  lemma {:induction false} KeyNeverStuck(l: Loop, j: nat) returns (e: Event)
    requires ChainsOk(l) && j < |l.tasks| && !l.tasks[j].stage.Settled?
    ensures Enabled(l, e) && !e.Call? && !e.Release? && l.tasks[e.task].key == l.tasks[j].key
  {
    var t := l.tasks[j];
    match t.stage
    case Queued =>
      assert WaitsForLast(l, j);
      if t.prev.None? || l.tasks[t.prev.value].stage.Settled? {
        e := Begin(j);
      } else {
        e := KeyNeverStuck(l, t.prev.value);
      }
    case Reading => e := Load(j);
    case Loaded(raw) => e := if Effect(t.op, raw, l.retention).Write? then Store(j) else Finish(j);
    case Written => e := Finish(j);
  }

  /** An archive merge computes `MergedMessages` with a remote list that holds no id twice. */
  ghost predicate StoresDistinct(op: Op) {
    op.Merge? ==> DistinctIds(op.remote) && forall local :: op.merged(local) == Archive.MergedMessages(local, op.remote)
  }

  lemma {:induction false} InSequenceDistinct(stored: Option<seq<Message>>, ops: seq<Op>, retention: Retention)
    requires stored.Some? ==> DistinctIds(stored.value)
    requires forall op <- ops :: StoresDistinct(op)
    ensures var r := InSequence(stored, ops, retention); r.Some? ==> DistinctIds(r.value)
  {
    if ops == [] {
    } else {
      var front, op := ops[..|ops| - 1], ops[|ops| - 1];
      assert op in ops && forall o <- front :: o in ops;
      InSequenceDistinct(stored, front, retention);
      if op.Merge? {
        forall local: seq<Message> | DistinctIds(local) ensures DistinctIds(op.merged(local)) {
          ArchiveLaws.MergedIdsDistinct(local, op.remote);
        }
      }
      EffectKeepsDistinctIds(op, InSequence(stored, front, retention), retention);
    }
  }

  lemma {:induction false} DoneAmong(tasks: seq<Task>, key: Key, n: nat)
    requires n <= |tasks|
    ensures forall op <- Done(tasks, key, n) :: exists t <- tasks :: t.op == op
  {
    if n == 0 {
    } else {
      DoneAmong(tasks, key, n - 1);
      assert tasks[n - 1] in tasks;
    }
  }

  /** However saves, removals, reactions, receipts and archive merges interleave, no stored list holds an id twice. */
  lemma StoredIdsStayDistinct(initial: Stored, retention: Retention, events: seq<Event>, l: Loop, key: Key)
    requires Run(Start(initial, retention), events, l)
    requires forall k <- initial :: DistinctIds(initial[k])
    requires forall t <- l.tasks :: StoresDistinct(t.op)
    ensures key in l.storage ==> DistinctIds(l.storage[key])
  {
    LockedRunsAreSequential(initial, retention, events, l, key);
    DoneAmong(l.tasks, key, |l.tasks|);
    InSequenceDistinct(Get(initial, key), Done(l.tasks, key, |l.tasks|), l.retention);
  }
}
