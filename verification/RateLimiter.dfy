/** The fixed-window rate limiter of `node/src/index.ts`. */
module RateLimiter {
  import opened Wrappers

  const RATE_WINDOW_MS := 60000

  datatype Key = Key(bucket: string, ip: string)

  datatype RateWindow = RateWindow(count: nat, windowStart: int)

  type State = map<Key, RateWindow>

  function Entry(s: State, k: Key): Option<RateWindow> {
    if k in s then Some(s[k]) else None
  }

  predicate Open(e: Option<RateWindow>, now: int) {
    e.Some? && now - e.value.windowStart < RATE_WINDOW_MS
  }

  predicate Accepts(e: Option<RateWindow>, max: nat, now: int) {
    !Open(e, now) || e.value.count < max
  }

  /** The entry after a request. */
  function Counted(e: Option<RateWindow>, max: nat, now: int): RateWindow {
    if !Open(e, now) then RateWindow(1, now)
    else if e.value.count < max then RateWindow(e.value.count + 1, e.value.windowStart)
    else e.value
  }

  function Pruned(s: State, now: int): State {
    map k | k in s && s[k].windowStart >= now - RATE_WINDOW_MS :: s[k]
  }

  function Max(a: int, b: int): int {
    if a < b then b else a
  }

  class Limiter {
    var rateLimitState: State

    constructor ()
      ensures rateLimitState == map[]
    {
      rateLimitState := map[];
    }

    /**
      `checkRateLimit`. A rejected caller is told the least whole number of seconds, at least one, after which the
      current window has rolled over.
     */
    method CheckRateLimit(ip: string, bucket: string, maxPerWindow: nat, now: int)
      returns (ok: bool, retryAfterSeconds: int)
      modifies this
      ensures var k := Key(bucket, ip); var e := Entry(old(rateLimitState), k);
              && ok == Accepts(e, maxPerWindow, now)
              && rateLimitState == old(rateLimitState)[k := Counted(e, maxPerWindow, now)]
              && (ok ==> retryAfterSeconds == 0)
              && (!ok ==> (retryAfterSeconds >= 1
                           && !Open(e, now + 1000 * retryAfterSeconds)
                           && (retryAfterSeconds > 1 ==> Open(e, now + 1000 * (retryAfterSeconds - 1)))))
    {
      var k := Key(bucket, ip);
      if k !in rateLimitState || now - rateLimitState[k].windowStart >= RATE_WINDOW_MS {
        rateLimitState := rateLimitState[k := RateWindow(1, now)];
        return true, 0;
      }
      var entry := rateLimitState[k];
      if entry.count >= maxPerWindow {
        var remainingMs := RATE_WINDOW_MS - (now - entry.windowStart);
        return false, Max(1, (remainingMs + 999) / 1000);
      }
      rateLimitState := rateLimitState[k := RateWindow(entry.count + 1, entry.windowStart)];
      return true, 0;
    }

    method PruneRateLimitState(now: int)
      modifies this
      ensures rateLimitState == Pruned(old(rateLimitState), now)
      ensures forall k :: Entry(rateLimitState, k) ==
                if k in old(rateLimitState) && old(rateLimitState)[k].windowStart + RATE_WINDOW_MS < now then None
                else Entry(old(rateLimitState), k)
    {
      var cutoff := now - RATE_WINDOW_MS;
      var todo := rateLimitState.Keys;
      while todo != {}
        invariant todo <= rateLimitState.Keys
        invariant rateLimitState == map k | k in old(rateLimitState)
                                            && (k in todo || old(rateLimitState)[k].windowStart >= cutoff) ::
                                               old(rateLimitState)[k]
        decreases todo
      {
        var k :| k in todo;
        if rateLimitState[k].windowStart < cutoff {
          rateLimitState := rateLimitState - {k};
        }
        todo := todo - {k};
      }
    }
  }

  // ---- Runs ----

  datatype Event = Request(key: Key, max: nat, now: int) | Prune(now: int)

  function After(events: seq<Event>): State {
    if events == [] then map[] else
    var s, e := After(events[..|events| - 1]), events[|events| - 1];
    match e
    case Request(k, max, now) => s[k := Counted(Entry(s, k), max, now)]
    case Prune(now) => Pruned(s, now)
  }

  /** The accepted requests of a run, in order. */
  function Accepted(events: seq<Event>): seq<Event> {
    if events == [] then [] else
    var front, e := events[..|events| - 1], events[|events| - 1];
    if e.Request? && Accepts(Entry(After(front), e.key), e.max, e.now) then Accepted(front) + [e] else Accepted(front)
  }

  function RequestsOf(events: seq<Event>): seq<Event> {
    if events == [] then [] else
    var rest, e := RequestsOf(events[..|events| - 1]), events[|events| - 1];
    if e.Request? then rest + [e] else rest
  }

  ghost predicate Monotone(events: seq<Event>) {
    forall i, j | 0 <= i < j < |events| :: events[i].now <= events[j].now
  }

  // ---- Pruning is invisible ----

  /** Two entries that no request from now on can tell apart. */
  ghost predicate Alike(a: Option<RateWindow>, b: Option<RateWindow>, now: int) {
    a == b || (!Open(a, now) && !Open(b, now))
  }

  lemma {:induction false} PrunedRunsAlike(events: seq<Event>, k: Key, now: int)
    requires Monotone(events) && (events != [] ==> events[|events| - 1].now <= now)
    ensures Alike(Entry(After(events), k), Entry(After(RequestsOf(events)), k), now)
  {
    if events == [] {
    } else {
      var front, e := events[..|events| - 1], events[|events| - 1];
      PrunedRunsAlike(front, k, e.now);
      if e.Request? {
        assert (RequestsOf(front) + [e])[..|RequestsOf(front)|] == RequestsOf(front);
      }
    }
  }

  /** Pruning at any moments changes no answer of a run: the same requests are accepted with and without it. */
  lemma {:induction false} PruningIsInvisible(events: seq<Event>)
    requires Monotone(events)
    ensures Accepted(events) == Accepted(RequestsOf(events))
  {
    if events == [] {
    } else {
      var front, e := events[..|events| - 1], events[|events| - 1];
      PruningIsInvisible(front);
      if e.Request? {
        PrunedRunsAlike(front, e.key, e.now);
        assert (RequestsOf(front) + [e])[..|RequestsOf(front)|] == RequestsOf(front);
      }
    }
  }

  // ---- How much gets through ----

  function TimesOf(accepted: seq<Event>, k: Key): seq<int> {
    if accepted == [] then [] else
    var rest, e := TimesOf(accepted[..|accepted| - 1], k), accepted[|accepted| - 1];
    if e.Request? && e.key == k then rest + [e.now] else rest
  }

  /** How many of the times are in the half-open window from t on. */
  function CountIn(times: seq<int>, t: int): nat {
    if times == [] then 0 else
    CountIn(times[..|times| - 1], t) + (if t <= times[|times| - 1] < t + RATE_WINDOW_MS then 1 else 0)
  }

  /** The accepted times, grouped by the window they were counted in. */
  function Flatten(groups: seq<seq<int>>): seq<int> {
    if groups == [] then [] else Flatten(groups[..|groups| - 1]) + groups[|groups| - 1]
  }

  ghost predicate GroupOk(g: seq<int>, limit: nat) {
    0 < |g| <= limit && forall x <- g :: g[0] <= x < g[0] + RATE_WINDOW_MS
  }

  ghost predicate GroupsOk(groups: seq<seq<int>>, limit: nat) {
    && (forall i | 0 <= i < |groups| :: GroupOk(groups[i], limit))
    && (forall i, j | 0 <= i < j < |groups| && groups[i] != [] && groups[j] != [] ::
          groups[i][0] + RATE_WINDOW_MS <= groups[j][0])
  }

  /** The entry is the last group, or is gone because that group's window is over. */
  ghost predicate Matches(e: Option<RateWindow>, groups: seq<seq<int>>, now: int) {
    if groups == [] || groups[|groups| - 1] == [] then e == None else
    var g := groups[|groups| - 1];
    match e
    case None => now - g[0] >= RATE_WINDOW_MS
    case Some(w) => w.count == |g| && w.windowStart == g[0]
  }

  function AtLeastOne(max: nat): nat {
    if max == 0 then 1 else max
  }

  lemma {:induction false} CountConcat(a: seq<int>, b: seq<int>, t: int)
    ensures CountIn(a + b, t) == CountIn(a, t) + CountIn(b, t)
  {
    if b == [] {
      assert a + b == a;
    } else {
      CountConcat(a, b[..|b| - 1], t);
      assert (a + b)[..|a + b| - 1] == a + b[..|b| - 1];
    }
  }

  lemma {:induction false} CountAtMost(times: seq<int>, t: int)
    ensures CountIn(times, t) <= |times|
    ensures (forall x <- times :: x < t) ==> CountIn(times, t) == 0
    ensures CountIn(times, t) > 0 ==> exists x <- times :: t <= x < t + RATE_WINDOW_MS
  {
    if times == [] {
    } else {
      var front, last := times[..|times| - 1], times[|times| - 1];
      CountAtMost(front, t);
      assert times == front + [last];
      assert last in times && forall x <- front :: x in times;
    }
  }

  lemma {:induction false} EarlierGroups(groups: seq<seq<int>>, limit: nat, t: int)
    requires GroupsOk(groups, limit)
    requires forall i | 0 <= i < |groups| && groups[i] != [] :: groups[i][0] + RATE_WINDOW_MS <= t
    ensures CountIn(Flatten(groups), t) == 0
  {
    if groups == [] {
    } else {
      var front, g := groups[..|groups| - 1], groups[|groups| - 1];
      EarlierGroups(front, limit, t);
      CountConcat(Flatten(front), g, t);
      assert GroupOk(g, limit);
      CountAtMost(g, t);
    }
  }

  /** A window of the same length meets at most two consecutive groups. */
  lemma {:induction false} TwoGroupsAtMost(groups: seq<seq<int>>, limit: nat, t: int)
    requires GroupsOk(groups, limit)
    ensures CountIn(Flatten(groups), t) <= 2 * limit
  {
    if groups == [] {
    } else {
      var front, g := groups[..|groups| - 1], groups[|groups| - 1];
      CountConcat(Flatten(front), g, t);
      CountAtMost(g, t);
      assert GroupOk(g, limit);
      TwoGroupsAtMost(front, limit, t);
      if CountIn(g, t) > 0 && front != [] {
        var x :| x in g && t <= x < t + RATE_WINDOW_MS;
        var before, p := front[..|front| - 1], front[|front| - 1];
        assert p == groups[|groups| - 2] && GroupOk(p, limit) && p[0] + RATE_WINDOW_MS <= g[0];
        CountConcat(Flatten(before), p, t);
        CountAtMost(p, t);
        forall i | 0 <= i < |before| && before[i] != [] ensures before[i][0] + RATE_WINDOW_MS <= t {
          assert before[i] == groups[i] && groups[i][0] + RATE_WINDOW_MS <= p[0];
        }
        EarlierGroups(before, limit, t);
      }
    }
  }

  ghost predicate GroupsUpTo(groups: seq<seq<int>>, now: int) {
    forall i | 0 <= i < |groups| :: forall x <- groups[i] :: x <= now
  }

  lemma JoinsGroup(front: seq<seq<int>>, g: seq<int>, limit: nat, now: int)
    requires GroupsOk(front + [g], limit) && GroupsUpTo(front + [g], now)
    requires |g| < limit && g != [] && g[0] <= now < g[0] + RATE_WINDOW_MS
    ensures GroupsOk(front + [g + [now]], limit) && GroupsUpTo(front + [g + [now]], now)
    ensures Flatten(front + [g + [now]]) == Flatten(front + [g]) + [now]
  {
    var groups, next := front + [g], front + [g + [now]];
    assert next[..|front|] == front == groups[..|front|];
    assert groups[|front|] == g && GroupOk(g, limit);
    assert GroupOk(g + [now], limit);
    forall i | 0 <= i < |next| ensures GroupOk(next[i], limit) && forall x <- next[i] :: x <= now {
      assert i < |front| ==> next[i] == groups[i];
    }
    assert forall i | 0 <= i < |next| :: next[i] != [] && groups[i] != [] && next[i][0] == groups[i][0];
    assert Flatten(front) + g + [now] == Flatten(front) + (g + [now]);
  }

  lemma LoneGroup(limit: nat, now: int)
    requires limit > 0
    ensures GroupOk([now], limit)
  {
  }

  lemma StartsGroup(groups: seq<seq<int>>, limit: nat, now: int)
    requires GroupsOk(groups, limit) && GroupsUpTo(groups, now) && limit > 0
    requires groups != [] && groups[|groups| - 1] != [] ==> groups[|groups| - 1][0] + RATE_WINDOW_MS <= now
    ensures GroupsOk(groups + [[now]], limit) && GroupsUpTo(groups + [[now]], now)
    ensures Flatten(groups + [[now]]) == Flatten(groups) + [now]
  {
    GroupsAreOld(groups, limit, now);
    FlattenNext(groups, [now]);
    LoneGroup(limit, now);
    GroupsInOrder(groups, now);
    hide Flatten, GroupOk;
    var n, next := |groups|, groups + [[now]];
    forall i | 0 <= i < |next| ensures GroupOk(next[i], limit) && forall x <- next[i] :: x <= now {
      assert if i < n then next[i] == groups[i] else next[i] == [now];
    }
  }

  lemma FlattenNext(groups: seq<seq<int>>, g: seq<int>)
    ensures Flatten(groups + [g]) == Flatten(groups) + g
  {
    assert (groups + [g])[..|groups|] == groups;
  }

  lemma GroupsAreOld(groups: seq<seq<int>>, limit: nat, now: int)
    requires GroupsOk(groups, limit)
    requires groups != [] && groups[|groups| - 1] != [] ==> groups[|groups| - 1][0] + RATE_WINDOW_MS <= now
    ensures forall i | 0 <= i < |groups| :: groups[i] != [] && groups[i][0] + RATE_WINDOW_MS <= now
  {
    forall i | 0 <= i < |groups| ensures groups[i] != [] && groups[i][0] + RATE_WINDOW_MS <= now {
      assert GroupOk(groups[i], limit) && GroupOk(groups[|groups| - 1], limit);
    }
  }

  lemma GroupsInOrder(groups: seq<seq<int>>, now: int)
    requires forall i, j | 0 <= i < j < |groups| && groups[i] != [] && groups[j] != [] ::
               groups[i][0] + RATE_WINDOW_MS <= groups[j][0]
    requires forall i | 0 <= i < |groups| :: groups[i] != [] && groups[i][0] + RATE_WINDOW_MS <= now
    ensures var next := groups + [[now]];
            forall i, j | 0 <= i < j < |next| && next[i] != [] && next[j] != [] ::
              next[i][0] + RATE_WINDOW_MS <= next[j][0]
  {
    var n, next := |groups|, groups + [[now]];
    forall i, j | 0 <= i < j < |next| && next[i] != [] && next[j] != []
      ensures next[i][0] + RATE_WINDOW_MS <= next[j][0]
    {
      assert next[i] == groups[i];
      assert if j < n then next[j] == groups[j] else next[j] == [now];
    }
  }

  /** One accepted request: it joins the last group or starts the next. */
  lemma GroupsGrow(groups: seq<seq<int>>, limit: nat, e: Option<RateWindow>, max: nat, now: int)
    returns (next: seq<seq<int>>)
    requires GroupsOk(groups, limit) && Matches(e, groups, now) && limit == AtLeastOne(max) && Accepts(e, max, now)
    requires (e.Some? ==> e.value.windowStart <= now) && GroupsUpTo(groups, now)
    ensures GroupsOk(next, limit) && Flatten(next) == Flatten(groups) + [now]
    ensures next != [] && next[|next| - 1] != [] && Matches(Some(Counted(e, max, now)), next, now)
    ensures next[|next| - 1][0] <= now && GroupsUpTo(next, now)
  {
    hide GroupsOk, GroupsUpTo, Flatten;
    if groups != [] && Open(e, now) {
      var front, g := groups[..|groups| - 1], groups[|groups| - 1];
      assert groups == front + [g];
      JoinsGroup(front, g, limit, now);
      next := front + [g + [now]];
    } else {
      StartsGroup(groups, limit, now);
      next := groups + [[now]];
    }
  }

  lemma {:induction false} GroupsOfRun(events: seq<Event>, k: Key, max: nat) returns (groups: seq<seq<int>>)
    requires Monotone(events) && forall e <- events :: e.Request? && e.key == k ==> e.max == max
    ensures GroupsOk(groups, AtLeastOne(max))
    ensures Flatten(groups) == TimesOf(Accepted(events), k)
    ensures events != [] ==> var now := events[|events| - 1].now;
              Matches(Entry(After(events), k), groups, now) &&
                (Entry(After(events), k).Some? ==> After(events)[k].windowStart <= now)
    ensures events == [] ==> groups == []
    ensures events != [] ==> GroupsUpTo(groups, events[|events| - 1].now)
  {
    if events == [] {
      groups := [];
    } else {
      var front, e := events[..|events| - 1], events[|events| - 1];
      assert e in events && forall x <- front :: x in events;
      groups := GroupsOfRun(front, k, max);
      var entry := Entry(After(front), k);
      assert Matches(entry, groups, e.now);
      if e.Request? && e.key == k && Accepts(entry, max, e.now) {
        groups := GroupsGrow(groups, AtLeastOne(max), entry, max, e.now);
        assert (Accepted(front) + [e])[..|Accepted(front)|] == Accepted(front);
      } else if e.Request? && Accepts(Entry(After(front), e.key), e.max, e.now) {
        assert (Accepted(front) + [e])[..|Accepted(front)|] == Accepted(front);
      }
    }
  }

  /**
    With a monotone clock, no half-open window of `RATE_WINDOW_MS`, wherever it starts, holds more than twice the limit
    of accepted requests of one bucket and address. A limit of zero still lets the first request of a window through.
   */
  lemma AtMostTwiceTheLimit(events: seq<Event>, k: Key, max: nat, t: int)
    requires Monotone(events) && forall e <- events :: e.Request? && e.key == k ==> e.max == max
    ensures CountIn(TimesOf(Accepted(events), k), t) <= 2 * AtLeastOne(max)
  {
    var groups := GroupsOfRun(events, k, max);
    TwoGroupsAtMost(groups, AtLeastOne(max), t);
  }

  lemma {:induction false} CountAll(times: seq<int>, t: int)
    requires forall x <- times :: t <= x < t + RATE_WINDOW_MS
    ensures CountIn(times, t) == |times|
  {
    if times == [] {
    } else {
      var front := times[..|times| - 1];
      assert times[|times| - 1] in times && forall x <- front :: x in times;
      CountAll(front, t);
    }
  }

  /** A request is rejected only if the limit was already reached within the `RATE_WINDOW_MS` that end with it. */
  lemma RejectedOnlyAtTheLimit(events: seq<Event>, k: Key, max: nat, now: int)
    requires Monotone(events) && (events != [] ==> events[|events| - 1].now <= now)
    requires forall e <- events :: e.Request? && e.key == k ==> e.max == max
    requires !Accepts(Entry(After(events), k), max, now)
    ensures CountIn(TimesOf(Accepted(events), k), now - RATE_WINDOW_MS + 1) >= max
  {
    var groups := GroupsOfRun(events, k, max);
    var t := now - RATE_WINDOW_MS + 1;
    var g := groups[|groups| - 1];
    assert GroupOk(g, AtLeastOne(max));
    forall x <- g ensures t <= x < t + RATE_WINDOW_MS {
      assert groups[|groups| - 1] == g && g[0] <= x;
    }
    CountAll(g, t);
    CountConcat(Flatten(groups[..|groups| - 1]), g, t);
  }
}
