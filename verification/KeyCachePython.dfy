/** Key loading in the Python verifier: any number of tasks in `_ensure_key`, cut at
    the points where a task can be suspended. */
module PythonKeyCache {
  import opened Records
  import opened KeyRefreshes

  /** Where a task is suspended. From Fetching on it holds the lock; Closing is the
      wait for the HTTP client after the document has been installed. */
  datatype Task = Waiting(kid: string) | Fetching(kid: string, fetch: nat) | Closing(kid: string, fetch: nat)

  datatype System = System(
    cache: Cache,
    lock: Option<nat>,
    tasks: map<nat, Task>,
    clock: Instant,
    fetches: nat,              // history: fetches started
    refreshes: seq<Refresh>,   // history
    verdicts: seq<Verdict>)    // history

  function Start(clock: Instant): System {
    System(Empty, None, map[], clock, 0, [], [])
  }

  datatype Action =
    | Call(id: nat, kid: string, now: Instant)
    | Enter(id: nat, now: Instant)
    | Complete(id: nat, document: Option<Keys>, now: Instant)
    | Finish(id: nat, now: Instant)
    | Cancel(id: nat)

  function Answered(s: System, v: Verdict): System {
    s.(verdicts := s.verdicts + [v])
  }

  function Gone(s: System, id: nat): System {
    s.(tasks := s.tasks - {id}, lock := if s.lock == Some(id) then None else s.lock)
  }

  /** The answer given before any wait, if there is one. */
  function Immediate(c: Limits, cache: Cache, kid: string, now: Instant, document: nat): Option<Verdict> {
    if kid in cache.keys && IsFresh(cache, now, c.ttl) then Some(Hit(kid, cache.keys[kid], now, document))
    else if RecentMiss(c, cache, kid, now) then Some(Remembered(kid, now, cache.unknown[kid], document))
    else None
  }

  function DoCall(c: Limits, s: System, id: nat, kid: string, now: Instant): System {
    if id in s.tasks || now < s.clock then s
    else
      var s1, v := s.(clock := now), Immediate(c, s.cache, kid, now, |s.refreshes|);
      if v.Some? then Answered(s1, v.value) else s1.(tasks := s.tasks[id := Waiting(kid)])
  }

  /** The lock is free: look again, serve a stale key while throttled, else fetch. */
  function DoEnter(c: Limits, s: System, id: nat, now: Instant): System {
    if id !in s.tasks || !s.tasks[id].Waiting? || s.lock.Some? || now < s.clock then s
    else
      var kid := s.tasks[id].kid;
      var s1 := s.(clock := now);
      if kid in s.cache.keys && IsFresh(s.cache, now, c.ttl) then
        Answered(Gone(s1, id), Hit(kid, s.cache.keys[kid], now, |s.refreshes|))
      else if Recent(s.cache.lastRefresh, now, c.minFetch) then
        Answered(Gone(s1, id), if kid in s.cache.keys then Hit(kid, s.cache.keys[kid], now, |s.refreshes|) else Denied(kid, now, |s.refreshes|))
      else
        s1.(lock := Some(id), tasks := s.tasks[id := Fetching(kid, s.fetches)], fetches := s.fetches + 1)
  }

  /** The document is installed at the instant it has been read; None for every failure. */
  function DoComplete(s: System, id: nat, document: Option<Keys>, now: Instant): System {
    if id !in s.tasks || !s.tasks[id].Fetching? || now < s.clock then s
    else if document.None? then Gone(s.(clock := now), id)
    else
      var Fetching(kid, fetch) := s.tasks[id];
      var r := Refresh(fetch, now, document.value);
      s.(clock := now, cache := Installed(s.cache, r), refreshes := s.refreshes + [r], tasks := s.tasks[id := Closing(kid, fetch)])
  }

  function DoFinish(s: System, id: nat, now: Instant): System {
    if id !in s.tasks || !s.tasks[id].Closing? || now < s.clock then s
    else
      var Closing(kid, fetch) := s.tasks[id];
      Answered(Gone(s.(clock := now, cache := Noted(s.cache, kid, now)), id), Outcome(s.cache.keys, kid, fetch, |s.refreshes|))
  }

  function Step(c: Limits, s: System, a: Action): System {
    match a
    case Call(id, kid, now) => DoCall(c, s, id, kid, now)
    case Enter(id, now) => DoEnter(c, s, id, now)
    case Complete(id, document, now) => DoComplete(s, id, document, now)
    case Finish(id, now) => DoFinish(s, id, now)
    case Cancel(id) => Gone(s, id)
  }

  function Run(c: Limits, s: System, actions: seq<Action>): System {
    if actions == [] then s else Step(c, Run(c, s, actions[..|actions| - 1]), actions[|actions| - 1])
  }

  // ---- the invariant ----

  ghost predicate TaskFits(c: Limits, t: Task, id: nat, lock: Option<nat>, last: Option<Instant>, rs: seq<Refresh>, clock: Instant) {
    match t
    case Waiting(_) => true
    case Fetching(_, _) => lock == Some(id) && Apart(last, clock, c.minFetch)
    case Closing(_, fetch) => lock == Some(id) && rs != [] && rs[|rs| - 1].fetch == fetch
  }

  ghost predicate TasksFit(c: Limits, s: System) {
    && (s.lock.Some? ==> s.lock.value in s.tasks && !s.tasks[s.lock.value].Waiting?)
    && forall id :: id in s.tasks ==> TaskFits(c, s.tasks[id], id, s.lock, s.cache.lastRefresh, s.refreshes, s.clock)
  }

  ghost predicate HistoryFits(c: Limits, rs: seq<Refresh>, clock: Instant) {
    InOrder(rs) && Spaced(rs, 1, c.minFetch) && forall i :: 0 <= i < |rs| ==> rs[i].at <= clock
  }

  ghost predicate Invariant(c: Limits, s: System) {
    && Tied(s.cache, s.refreshes) && MissesFit(s.refreshes, s.cache.unknown, s.clock) && HistoryFits(c, s.refreshes, s.clock)
    && TasksFit(c, s) && VerdictsFit(c, s.refreshes, s.verdicts)
  }

  /** A cached key served fresh, or stale while throttled. */
  lemma CachedHit(c: Limits, s: System, kid: string, now: Instant)
    requires Invariant(c, s) && s.clock <= now && kid in s.cache.keys
    requires IsFresh(s.cache, now, c.ttl) || Recent(s.cache.lastRefresh, now, c.minFetch)
    ensures VerdictFits(c, s.refreshes, Hit(kid, s.cache.keys[kid], now, |s.refreshes|))
  {
  }

  lemma ImmediateFits(c: Limits, s: System, kid: string, now: Instant)
    requires Invariant(c, s) && s.clock <= now && Immediate(c, s.cache, kid, now, |s.refreshes|).Some?
    ensures VerdictFits(c, s.refreshes, Immediate(c, s.cache, kid, now, |s.refreshes|).value)
  {
    if kid in s.cache.keys && IsFresh(s.cache, now, c.ttl) { CachedHit(c, s, kid, now); }
  }

  lemma CallKeeps(c: Limits, s: System, id: nat, kid: string, now: Instant)
    requires Invariant(c, s)
    ensures Invariant(c, DoCall(c, s, id, kid, now))
  {
    if s.clock <= now && Immediate(c, s.cache, kid, now, |s.refreshes|).Some? {
      ImmediateFits(c, s, kid, now);
    } else if s.clock <= now && id !in s.tasks {
      WaitingKeeps(c, s, id, kid, now);
    }
  }

  lemma WaitingKeeps(c: Limits, s: System, id: nat, kid: string, now: Instant)
    requires Invariant(c, s) && s.clock <= now && id !in s.tasks
    ensures Invariant(c, s.(clock := now, tasks := s.tasks[id := Waiting(kid)]))
  {
  }

  lemma AnsweredKeeps(c: Limits, s: System, id: nat, now: Instant, v: Verdict)
    requires Invariant(c, s) && s.clock <= now && id in s.tasks && VerdictFits(c, s.refreshes, v)
    ensures Invariant(c, Answered(Gone(s.(clock := now), id), v))
  {
  }

  lemma EnterKeeps(c: Limits, s: System, id: nat, now: Instant)
    requires Invariant(c, s)
    ensures Invariant(c, DoEnter(c, s, id, now))
  {
    if id in s.tasks && s.clock <= now && s.tasks[id].Waiting? && s.lock.None? {
      var kid := s.tasks[id].kid;
      if kid in s.cache.keys && (IsFresh(s.cache, now, c.ttl) || Recent(s.cache.lastRefresh, now, c.minFetch)) {
        CachedHit(c, s, kid, now);
        AnsweredKeeps(c, s, id, now, Hit(kid, s.cache.keys[kid], now, |s.refreshes|));
      } else if Recent(s.cache.lastRefresh, now, c.minFetch) {
        AnsweredKeeps(c, s, id, now, Denied(kid, now, |s.refreshes|));
      }
    }
  }

  lemma CompleteKeeps(c: Limits, s: System, id: nat, document: Option<Keys>, now: Instant)
    requires Invariant(c, s)
    ensures Invariant(c, DoComplete(s, id, document, now))
  {
    if id in s.tasks && s.tasks[id].Fetching? && s.clock <= now && document.Some? {
      var rs, r := s.refreshes, Refresh(s.tasks[id].fetch, now, document.value);
      assert TaskFits(c, s.tasks[id], id, s.lock, s.cache.lastRefresh, rs, s.clock);
      SpacedExtends(rs, r, 1, c.minFetch);
      forall i | 0 <= i < |s.verdicts| ensures VerdictFits(c, rs + [r], s.verdicts[i]) {
        LaterVerdict(c, rs, r, s.verdicts[i]);
      }
      forall kid | kid in s.cache.unknown ensures WasMissing(rs + [r], kid, s.cache.unknown[kid]) {
        LaterMissing(rs, r, kid, s.cache.unknown[kid]);
      }
    }
  }

  lemma FinishKeeps(c: Limits, s: System, id: nat, now: Instant)
    requires Invariant(c, s)
    ensures Invariant(c, DoFinish(s, id, now))
  {
    if id in s.tasks && s.tasks[id].Closing? && s.clock <= now {
      assert TaskFits(c, s.tasks[id], id, s.lock, s.cache.lastRefresh, s.refreshes, s.clock);
      var kid := s.tasks[id].kid;
      if kid !in s.cache.keys {
        assert s.refreshes[|s.refreshes| - 1].at <= now;
        assert WasMissing(s.refreshes, kid, now);
      }
    }
  }

  lemma {:induction false} RunKeepsInvariant(c: Limits, clock: Instant, actions: seq<Action>)
    ensures Invariant(c, Run(c, Start(clock), actions))
  {
    if actions != [] {
      var s := Run(c, Start(clock), actions[..|actions| - 1]);
      RunKeepsInvariant(c, clock, actions[..|actions| - 1]);
      match actions[|actions| - 1]
      case Call(id, kid, now) => CallKeeps(c, s, id, kid, now);
      case Enter(id, now) => EnterKeeps(c, s, id, now);
      case Complete(id, document, now) => CompleteKeeps(c, s, id, document, now);
      case Finish(id, now) => FinishKeeps(c, s, id, now);
      case Cancel(id) =>
    }
  }

  // ---- what it gives ----

  lemma {:induction false} OneFetchAtOnce(c: Limits, clock: Instant, actions: seq<Action>, a: nat, b: nat)
    requires var s := Run(c, Start(clock), actions);
      a in s.tasks && b in s.tasks && s.tasks[a].Fetching? && s.tasks[b].Fetching?
    ensures a == b
  {
    RunKeepsInvariant(c, clock, actions);
  }

  /** The same rate bound as in Go. */
  lemma {:induction false} RefreshesApart(c: Limits, clock: Instant, actions: seq<Action>, i: nat, j: nat)
    requires i <= j < |Run(c, Start(clock), actions).refreshes|
    ensures var rs := Run(c, Start(clock), actions).refreshes;
      rs[j].at - rs[i].at >= (j - i) * c.minFetch
  {
    RunKeepsInvariant(c, clock, actions);
    ApartInSteps(Run(c, Start(clock), actions).refreshes, c.minFetch, i, j);
  }

  /** A window of length W sees at most W / minFetch + 1 of them. */
  lemma {:induction false} RefreshesPerWindow(c: Limits, clock: Instant, actions: seq<Action>, from: Instant, width: nat)
    requires c.minFetch > 0
    ensures Count(Run(c, Start(clock), actions).refreshes, from, width) <= width / c.minFetch + 1
  {
    RunKeepsInvariant(c, clock, actions);
    WindowBound(Run(c, Start(clock), actions).refreshes, 1, c.minFetch, from, width);
  }

  /** A key answered without a fetch comes from the document installed last, younger
      than both limits' maximum; a refusal without a fetch means that this document
      lacks the key, or that the key is on the recent-miss list and, if the document
      holds it after all, that the document is past its TTL. */
  lemma {:induction false} AnswersAreCurrent(c: Limits, clock: Instant, actions: seq<Action>, i: nat)
    requires i < |Run(c, Start(clock), actions).verdicts|
    ensures var s := Run(c, Start(clock), actions);
      var v, rs := s.verdicts[i], s.refreshes;
      && (v.Hit? ==> Current(rs, v.document, v.at, Max(c.ttl, c.minFetch)) && Holds(rs[v.document - 1], v.kid, v.key))
      && (v.Denied? ==> Current(rs, v.document, v.at, c.minFetch) && v.kid !in rs[v.document - 1].keys)
      && (v.Remembered? ==> Current(rs, v.document, v.at, c.minFetch) && 0 <= v.at - v.missedAt < c.unknownTTL && WasMissing(rs, v.kid, v.missedAt))
      && (v.Remembered? && v.kid in rs[v.document - 1].keys ==> v.at - rs[v.document - 1].at >= c.ttl)
      && (v.Found? || v.Absent? ==> OutcomeFits(rs, v))
  {
    RunKeepsInvariant(c, clock, actions);
  }

  /** While throttled, a task that reaches the lock with its key cached is served the
      latest document's key, however stale. */
  lemma {:induction false} ServedWhileThrottled(c: Limits, clock: Instant, actions: seq<Action>, id: nat, now: Instant)
    requires var s := Run(c, Start(clock), actions);
      && id in s.tasks && s.tasks[id].Waiting? && s.lock.None? && s.clock <= now
      && s.tasks[id].kid in s.cache.keys && Recent(s.cache.lastRefresh, now, c.minFetch)
    ensures var s := Run(c, Start(clock), actions);
      var kid := s.tasks[id].kid;
      && s.refreshes != [] && kid in s.refreshes[|s.refreshes| - 1].keys
      && DoEnter(c, s, id, now).verdicts == s.verdicts + [Hit(kid, s.refreshes[|s.refreshes| - 1].keys[kid], now, |s.refreshes|)]
  {
    RunKeepsInvariant(c, clock, actions);
  }

  /** At the free lock a task is served the document in force while that is within its
      TTL; is served it stale, or refused, while throttled; and starts the one fetch
      otherwise. */
  lemma {:induction false} EnterExactly(c: Limits, clock: Instant, actions: seq<Action>, id: nat, now: Instant)
    requires var s := Run(c, Start(clock), actions); id in s.tasks && s.lock.None? && s.clock <= now
    ensures var s := Run(c, Start(clock), actions);
      var s', rs, kid := Step(c, s, Enter(id, now)), s.refreshes, s.tasks[id].kid;
      if Serves(rs, kid, now, Max(c.ttl, c.minFetch)) then
        s' == s.(clock := now, tasks := s.tasks - {id}, verdicts := s.verdicts + [Hit(kid, rs[|rs| - 1].keys[kid], now, |rs|)])
      else if Throttled(rs, now, c.minFetch) then
        s' == s.(clock := now, tasks := s.tasks - {id}, verdicts := s.verdicts + [Denied(kid, now, |rs|)])
      else s' == s.(clock := now, tasks := s.tasks[id := Fetching(kid, s.fetches)], lock := Some(id), fetches := s.fetches + 1)
  {
    RunKeepsInvariant(c, clock, actions);
  }

  /** ... and one that calls with its key cached and off the recent-miss list is served
      at once or waits for the lock; it is never refused there. */
  lemma CallServedOrWaits(c: Limits, s: System, id: nat, kid: string, now: Instant)
    requires id !in s.tasks && s.clock <= now && !RecentMiss(c, s.cache, kid, now)
    ensures var s' := DoCall(c, s, id, kid, now);
      if kid in s.cache.keys && IsFresh(s.cache, now, c.ttl)
      then s'.verdicts == s.verdicts + [Hit(kid, s.cache.keys[kid], now, |s.refreshes|)]
      else s'.verdicts == s.verdicts && s'.tasks == s.tasks[id := Waiting(kid)]
  {
  }

  // ---- a call on its own ----

  /** What a call that meets no other is answered, and the refresh it makes, if any. */
  function Alone(c: Limits, rs: seq<Refresh>, unknown: map<string, Instant>, fetch: nat, kid: string,
                 called: Instant, entered: Instant, document: Option<Keys>, received: Instant): (seq<Verdict>, seq<Refresh>)
  {
    if Serves(rs, kid, called, c.ttl) then ([Hit(kid, rs[|rs| - 1].keys[kid], called, |rs|)], [])
    else if NotedMiss(unknown, kid, called, c.unknownTTL) && Throttled(rs, called, c.minFetch) then ([Remembered(kid, called, unknown[kid], |rs|)], [])
    else if Throttled(rs, entered, c.minFetch) then
      ([if kid in rs[|rs| - 1].keys then Hit(kid, rs[|rs| - 1].keys[kid], entered, |rs|) else Denied(kid, entered, |rs|)], [])
    else if document.None? then ([], [])
    else ([Outcome(document.value, kid, fetch, |rs| + 1)], [Refresh(fetch, received, document.value)])
  }

  lemma {:induction false} RunExtends(c: Limits, s: System, actions: seq<Action>, a: Action)
    ensures Run(c, s, actions + [a]) == Step(c, Run(c, s, actions), a)
  {
    assert (actions + [a])[..|actions|] == actions;
  }

  /** The call has ended with these verdicts and refreshes, and holds nothing. */
  predicate Ended(s: System, s': System, answers: (seq<Verdict>, seq<Refresh>)) {
    s'.tasks == map[] && s'.lock == None && s'.verdicts == s.verdicts + answers.0 && s'.refreshes == s.refreshes + answers.1
  }

  function WholeCall(id: nat, kid: string, called: Instant, entered: Instant, document: Option<Keys>, received: Instant, finished: Instant): seq<Action> {
    ((([] + [Call(id, kid, called)]) + [Enter(id, entered)]) + [Complete(id, document, received)]) + [Finish(id, finished)]
  }

  lemma {:induction false} WholeCallRuns(c: Limits, s: System, id: nat, kid: string, called: Instant, entered: Instant, document: Option<Keys>, received: Instant, finished: Instant)
    ensures Run(c, s, WholeCall(id, kid, called, entered, document, received, finished)) ==
      DoFinish(DoComplete(DoEnter(c, DoCall(c, s, id, kid, called), id, entered), id, document, received), id, finished)
  {
    var a1 := [] + [Call(id, kid, called)];
    var a2 := a1 + [Enter(id, entered)];
    RunExtends(c, s, [], Call(id, kid, called));
    RunExtends(c, s, a1, Enter(id, entered));
    RunExtends(c, s, a2, Complete(id, document, received));
    RunExtends(c, s, a2 + [Complete(id, document, received)], Finish(id, finished));
  }

  lemma FetchedAlone(s: System, id: nat, kid: string, fetch: nat, document: Option<Keys>, received: Instant, finished: Instant)
    requires s.tasks == map[id := Fetching(kid, fetch)] && s.lock == Some(id) && s.clock <= received <= finished
    ensures var s' := DoFinish(DoComplete(s, id, document, received), id, finished);
      if document.None? then Ended(s, s', ([], [])) && s'.cache == s.cache
      else && Ended(s, s', ([Outcome(document.value, kid, fetch, |s.refreshes| + 1)], [Refresh(fetch, received, document.value)]))
           && s'.cache.unknown == MissesAfter(s.cache.unknown, document.value, kid, finished)
  {
  }

  lemma EnteredAlone(c: Limits, s: System, id: nat, kid: string, called: Instant, entered: Instant)
    requires Tied(s.cache, s.refreshes) && s.tasks == map[] && s.lock == None && s.clock <= called <= entered
    ensures var s', rs := DoEnter(c, DoCall(c, s, id, kid, called), id, entered), s.refreshes;
      if Serves(rs, kid, called, c.ttl) then Ended(s, s', ([Hit(kid, rs[|rs| - 1].keys[kid], called, |rs|)], []))
      else if NotedMiss(s.cache.unknown, kid, called, c.unknownTTL) && Throttled(rs, called, c.minFetch)
      then Ended(s, s', ([Remembered(kid, called, s.cache.unknown[kid], |rs|)], []))
      else if Throttled(rs, entered, c.minFetch)
      then Ended(s, s', ([if kid in rs[|rs| - 1].keys then Hit(kid, rs[|rs| - 1].keys[kid], entered, |rs|) else Denied(kid, entered, |rs|)], []))
      else s' == s.(clock := entered, lock := Some(id), tasks := map[id := Fetching(kid, s.fetches)], fetches := s.fetches + 1)
  {
  }

  /** In every reachable state with no other task about, a call is answered as the
      sequential reading of the cache says, makes that refresh, and leaves the lock free. */
  lemma {:induction false} CallAlone(c: Limits, clock: Instant, actions: seq<Action>, id: nat, kid: string,
                                     called: Instant, entered: Instant, document: Option<Keys>, received: Instant, finished: Instant)
    requires var s := Run(c, Start(clock), actions); s.tasks == map[] && s.clock <= called <= entered <= received <= finished
    ensures var s := Run(c, Start(clock), actions);
      Ended(s, Run(c, s, WholeCall(id, kid, called, entered, document, received, finished)),
            Alone(c, s.refreshes, s.cache.unknown, s.fetches, kid, called, entered, document, received))
  {
    RunKeepsInvariant(c, clock, actions);
    var s := Run(c, Start(clock), actions);
    WholeCallRuns(c, s, id, kid, called, entered, document, received, finished);
    EnteredAlone(c, s, id, kid, called, entered);
    var s' := DoEnter(c, DoCall(c, s, id, kid, called), id, entered);
    if id in s'.tasks {
      FetchedAlone(s', id, kid, s.fetches, document, received, finished);
    }
  }

  /** A cancelled task is gone, and the lock with it if it held it; nothing is answered. */
  lemma {:induction false} CancelExactly(c: Limits, clock: Instant, actions: seq<Action>, id: nat)
    requires id in Run(c, Start(clock), actions).tasks
    ensures var s := Run(c, Start(clock), actions);
      var s' := Step(c, s, Cancel(id));
      s' == s.(tasks := s.tasks - {id}, lock := if s.tasks[id].Waiting? then s.lock else None)
  {
    RunKeepsInvariant(c, clock, actions);
  }

  // ---- a cached key can be refused ----

  /** A run that has just noted the miss of a key, one interval after its refresh. */
  lemma MissNoted(c: Limits, kid: string) returns (actions: seq<Action>)
    requires c.minFetch > 0
    ensures var s := Run(c, Start(0), actions);
      && s.cache == Cache(map[], Some(0), Some(0), map[kid := c.minFetch]) && s.lock.None? && s.tasks == map[]
      && s.clock == c.minFetch && |s.refreshes| == 1
  {
    var a1 := [] + [Call(0, kid, 0)];
    var a2 := a1 + [Enter(0, 0)];
    var a3 := a2 + [Complete(0, Some(map[]), 0)];
    actions := a3 + [Finish(0, c.minFetch)];
    RunExtends(c, Start(0), [], Call(0, kid, 0));
    RunExtends(c, Start(0), a1, Enter(0, 0));
    RunExtends(c, Start(0), a2, Complete(0, Some(map[]), 0));
    RunExtends(c, Start(0), a3, Finish(0, c.minFetch));
  }

  /** Then another task brings a document that has it. */
  lemma MissOutdated(c: Limits, kid: string, other: string) returns (actions: seq<Action>)
    requires c.minFetch > 0 && kid != other
    ensures var s := Run(c, Start(0), actions);
      && s.cache == Cache(map[kid := "k"], Some(c.minFetch), Some(c.minFetch), map[kid := c.minFetch])
      && 2 !in s.tasks && s.clock == c.minFetch && |s.refreshes| == 2
  {
    var a0 := MissNoted(c, kid);
    var a1 := a0 + [Call(1, other, c.minFetch)];
    var a2 := a1 + [Enter(1, c.minFetch)];
    actions := a2 + [Complete(1, Some(map[kid := "k"]), c.minFetch)];
    RunExtends(c, Start(0), a0, Call(1, other, c.minFetch));
    RunExtends(c, Start(0), a1, Enter(1, c.minFetch));
    RunExtends(c, Start(0), a2, Complete(1, Some(map[kid := "k"]), c.minFetch));
  }

  lemma CachedRefused(c: Limits) returns (actions: seq<Action>, i: nat)
    requires CanRefuseCached(c)
    ensures var s := Run(c, Start(0), actions); CachedRefusal(s.refreshes, s.verdicts, i)
  {
    var a0 := MissOutdated(c, "a", "b");
    var call := Call(2, "a", c.minFetch + Max(c.ttl, 0));
    RunExtends(c, Start(0), a0, call);
    RunKeepsInvariant(c, 0, a0);
    actions, i := a0 + [call], |Run(c, Start(0), a0).verdicts|;
  }

  /** A key the document in force holds is refused in some run if and only if the TTL,
      or zero for a negative one, is below both other limits. */
  lemma {:induction false} CachedRefusalExactly(c: Limits)
    ensures (exists clock, actions, i :: CachedRefusal(Run(c, Start(clock), actions).refreshes, Run(c, Start(clock), actions).verdicts, i))
      <==> CanRefuseCached(c)
  {
    if CanRefuseCached(c) {
      var actions, i := CachedRefused(c);
    }
    forall clock, actions, i | CachedRefusal(Run(c, Start(clock), actions).refreshes, Run(c, Start(clock), actions).verdicts, i)
      ensures CanRefuseCached(c)
    {
      RunKeepsInvariant(c, clock, actions);
      CachedRefusalBound(c, Run(c, Start(clock), actions).refreshes, Run(c, Start(clock), actions).verdicts, i);
    }
  }
}
