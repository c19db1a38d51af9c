/** When a second refresh of the TypeScript verifier can follow the last one early. */
module EarlyRefreshes {
  import opened Records
  import opened KeyRefreshes
  import opened TypeScriptKeyCache

  /** The promise of this fetch has, or will have, resolved. */
  predicate Resolves(s: System, fetch: nat) {
    (fetch in s.ended && s.ended[fetch]) || (fetch in s.settled && s.settled[fetch])
  }

  predicate ForcedWaiter(s: System, id: nat) {
    id in s.calls && s.calls[id].Joined? && s.calls[id].force && Resolves(s, s.calls[id].fetch)
  }

  /** No fetch is running, and no forced call waits on a promise that resolves. */
  ghost predicate Quiet(s: System) {
    s.running == {} && forall id :: !ForcedWaiter(s, id)
  }

  /** This continuation installs another document within the minimum interval after the last one. */
  ghost predicate Early(c: Limits, s: System, after: seq<Action>)
    requires s.refreshes != []
  {
    var rs, n := Run(c, s, after).refreshes, |s.refreshes|;
    |rs| > n && rs[n].at - s.refreshes[n - 1].at < c.minFetch
  }

  // ---- waiting calls ----

  /** Every waiting call waits on a known promise, and once a fetch has ended everyone
      waiting waits on it. */
  ghost predicate Waits(s: System) {
    && (forall id :: id in s.calls && !s.calls[id].Loaded? ==>
          s.calls[id].fetch in s.running || s.calls[id].fetch in s.ended || s.calls[id].fetch in s.settled)
    && (forall f :: f in s.ended ==> OnlyWaitersOf(s.calls, f))
  }

  lemma CallKeepsWaits(c: Limits, s: System, id: nat, kid: string, now: Instant, next: Instant, later: Instant)
    requires Invariant(c, s) && Waits(s)
    ensures Waits(DoCall(c, s, id, kid, now, next, later))
  {
  }

  lemma EndKeepsWaits(c: Limits, s: System, fetch: nat, document: Option<Keys>, now: Instant)
    requires Invariant(c, s) && Waits(s)
    ensures Waits(DoEnd(s, fetch, document, now))
  {
  }

  lemma ClearKeepsWaits(c: Limits, s: System, fetch: nat)
    requires Invariant(c, s) && Waits(s)
    ensures Waits(DoClear(s, fetch))
  {
  }

  lemma ResumeKeepsWaits(c: Limits, s: System, id: nat)
    requires Invariant(c, s) && Waits(s)
    ensures Waits(DoResume(s, id))
  {
  }

  lemma StepKeepsBoth(c: Limits, s: System, a: Action)
    requires Invariant(c, s) && Waits(s)
    ensures Invariant(c, Step(c, s, a)) && Waits(Step(c, s, a))
  {
    match a
    case Call(id, kid, now, next, later) => CallKeeps(c, s, id, kid, now, next, later); CallKeepsWaits(c, s, id, kid, now, next, later);
    case End(fetch, document, now) => EndKeeps(c, s, fetch, document, now); EndKeepsWaits(c, s, fetch, document, now);
    case Clear(fetch) => ClearKeeps(c, s, fetch); ClearKeepsWaits(c, s, fetch);
    case Resume(id) => ResumeKeeps(c, s, id); ResumeKeepsWaits(c, s, id);
    case Finish(id, now) => FinishKeeps(c, s, id, now);
  }

  lemma {:induction false} RunKeepsBoth(c: Limits, s: System, actions: seq<Action>)
    requires Invariant(c, s) && Waits(s)
    ensures Invariant(c, Run(c, s, actions)) && Waits(Run(c, s, actions))
  {
    if actions != [] {
      RunKeepsBoth(c, s, actions[..|actions| - 1]);
      StepKeepsBoth(c, Run(c, s, actions[..|actions| - 1]), actions[|actions| - 1]);
    }
  }

  // ---- a quiet state has no early refresh ----

  /** `t` continues a state of `n` refreshes the last of which was at `last`, and no
      early refresh has happened or can. */
  ghost predicate NotEarly(c: Limits, t: System, n: nat, last: Instant) {
    && 0 < n <= |t.refreshes| && t.refreshes[n - 1].at == last
    && (|t.refreshes| == n ==> Quiet(t) || t.clock - last >= c.minFetch)
    && (|t.refreshes| > n ==> t.refreshes[n].at - last >= c.minFetch)
  }

  /** A later clock and fewer forced waiters keep it, and so does anything at all once
      the interval is over, as long as the history stays. */
  lemma LaterNotEarly(c: Limits, t: System, t': System, n: nat, last: Instant)
    requires NotEarly(c, t, n, last) && t'.refreshes == t.refreshes && t.clock <= t'.clock
    requires (t'.running <= t.running && forall id :: ForcedWaiter(t', id) ==> ForcedWaiter(t, id)) || t'.clock - last >= c.minFetch
    ensures NotEarly(c, t', n, last)
  {
  }

  lemma CallKeepsNotEarly(c: Limits, t: System, n: nat, last: Instant, id: nat, kid: string, now: Instant, next: Instant, later: Instant)
    requires Invariant(c, t) && NotEarly(c, t, n, last)
    ensures NotEarly(c, DoCall(c, t, id, kid, now, next, later), n, last)
  {
    var t' := DoCall(c, t, id, kid, now, next, later);
    if t' != t {
      if Immediate(c, t.cache, kid, now, next, later, |t.refreshes|).Some? {
        assert forall other :: ForcedWaiter(t', other) ==> ForcedWaiter(t, other);
        LaterNotEarly(c, t, t', n, last);
      } else if |t.refreshes| == n {
        assert later - last >= c.minFetch;
        LaterNotEarly(c, t, t', n, last);
      }
    }
  }

  lemma ClearKeepsNotEarly(c: Limits, t: System, n: nat, last: Instant, fetch: nat)
    requires Invariant(c, t) && NotEarly(c, t, n, last)
    ensures NotEarly(c, DoClear(t, fetch), n, last)
  {
    var t' := DoClear(t, fetch);
    assert forall other :: ForcedWaiter(t', other) ==> ForcedWaiter(t, other);
  }

  lemma ResumeKeepsNotEarly(c: Limits, t: System, n: nat, last: Instant, id: nat)
    requires Invariant(c, t) && NotEarly(c, t, n, last)
    ensures NotEarly(c, DoResume(t, id), n, last)
  {
    var t' := DoResume(t, id);
    if t != t' && t.running == {} {
      assert t.calls[id].Joined? && t.calls[id].force && t.settled[t.calls[id].fetch] ==> ForcedWaiter(t, id);
      assert t'.running == {} ==> forall other :: ForcedWaiter(t', other) ==> ForcedWaiter(t, other);
    }
  }

  lemma FinishKeepsNotEarly(c: Limits, t: System, n: nat, last: Instant, id: nat, now: Instant)
    requires NotEarly(c, t, n, last)
    ensures NotEarly(c, DoFinish(t, id, now), n, last)
  {
    var t' := DoFinish(t, id, now);
    assert forall other :: ForcedWaiter(t', other) ==> ForcedWaiter(t, other);
  }

  lemma {:induction false} RunKeepsNotEarly(c: Limits, s: System, after: seq<Action>)
    requires Invariant(c, s) && Waits(s) && s.refreshes != [] && Quiet(s)
    ensures NotEarly(c, Run(c, s, after), |s.refreshes|, s.refreshes[|s.refreshes| - 1].at)
  {
    if after != [] {
      var t, n, last := Run(c, s, after[..|after| - 1]), |s.refreshes|, s.refreshes[|s.refreshes| - 1].at;
      RunKeepsNotEarly(c, s, after[..|after| - 1]);
      RunKeepsBoth(c, s, after[..|after| - 1]);
      match after[|after| - 1]
      case Call(id, kid, now, next, later) => CallKeepsNotEarly(c, t, n, last, id, kid, now, next, later);
      case End(fetch, document, now) =>
      case Clear(fetch) => ClearKeepsNotEarly(c, t, n, last, fetch);
      case Resume(id) => ResumeKeepsNotEarly(c, t, n, last, id);
      case Finish(id, now) => FinishKeepsNotEarly(c, t, n, last, id, now);
    }
  }

  // ---- any other state can have one at once ----

  function Others(s: System, fetch: nat): set<nat> {
    set id | id in s.calls && !s.calls[id].Loaded? && s.calls[id].fetch != fetch
  }

  /** A waiter of an earlier promise runs on and starts nothing. */
  lemma OtherResumes(c: Limits, t: System, fetch: nat, id: nat)
    requires Invariant(c, t) && Waits(t) && fetch in t.running && id in Others(t, fetch)
    ensures var t' := DoResume(t, id);
      && t'.running == t.running && t'.refreshes == t.refreshes && t'.clock == t.clock
      && Others(t', fetch) == Others(t, fetch) - {id}
  {
  }

  /** A running fetch can end at this very instant, after everyone waiting on an earlier
      promise has run. */
  lemma RunningEnds(c: Limits, s: System, start: seq<Action>) returns (after: seq<Action>)
    requires Invariant(c, s) && Waits(s) && Run(c, s, start).running != {}
    ensures var t, t' := Run(c, s, start), Run(c, s, after);
      |t'.refreshes| == |t.refreshes| + 1 && t'.refreshes[..|t.refreshes|] == t.refreshes && t'.refreshes[|t.refreshes|].at == t.clock
  {
    var t := Run(c, s, start);
    var fetch :| fetch in t.running;
    after := start;
    while Others(Run(c, s, after), fetch) != {}
      invariant var u := Run(c, s, after); fetch in u.running && u.refreshes == t.refreshes && u.clock == t.clock
      decreases Others(Run(c, s, after), fetch)
    {
      var u := Run(c, s, after);
      var id :| id in Others(u, fetch);
      RunKeepsBoth(c, s, after);
      OtherResumes(c, u, fetch, id);
      RunExtends(c, s, after, Resume(id));
      after := after + [Resume(id)];
    }
    var u := Run(c, s, after);
    forall id | id in u.calls && !u.calls[id].Loaded? ensures u.calls[id].fetch == fetch {
      assert id !in Others(u, fetch);
    }
    RunExtends(c, s, after, End(fetch, Some(map[]), u.clock));
    after := after + [End(fetch, Some(map[]), u.clock)];
  }

  /** A forced waiter on a settled promise finds the slot empty. */
  lemma SlotEmpty(c: Limits, s: System, id: nat)
    requires Invariant(c, s) && Waits(s) && s.running == {} && ForcedWaiter(s, id) && s.calls[id].fetch in s.settled
    ensures s.loading.None?
  {
    var fetch := s.calls[id].fetch;
    assert forall f :: f in s.ended ==> f == fetch;
  }

  lemma {:induction false} WaiterResumes(c: Limits, s: System, start: seq<Action>, id: nat)
    requires var t := Run(c, s, start);
      t.loading.None? && ForcedWaiter(t, id) && t.calls[id].fetch in t.settled && t.settled[t.calls[id].fetch]
    ensures var t, t' := Run(c, s, start), Run(c, s, start + [Resume(id)]);
      t'.running != {} && t'.refreshes == t.refreshes && t'.clock == t.clock
  {
    RunExtends(c, s, start, Resume(id));
    assert Run(c, s, start).fetches in DoResume(Run(c, s, start), id).running;
  }

  lemma {:induction false} WaiterClears(c: Limits, s: System, id: nat)
    requires ForcedWaiter(s, id) && s.calls[id].fetch in s.ended && s.ended[s.calls[id].fetch] && s.loading == Some(s.calls[id].fetch)
    ensures var t, fetch := Run(c, s, [] + [Clear(s.calls[id].fetch)]), s.calls[id].fetch;
      && t.loading.None? && t.calls == s.calls && fetch in t.settled && t.settled[fetch]
      && t.refreshes == s.refreshes && t.clock == s.clock
  {
    RunExtends(c, s, [], Clear(s.calls[id].fetch));
  }

  lemma EndedIsLoading(c: Limits, s: System, fetch: nat)
    requires Invariant(c, s) && fetch in s.ended
    ensures s.loading == Some(fetch) && fetch !in s.settled
  {
  }

  /** A forced waiter starts a fetch as soon as its promise is settled. */
  lemma WaiterStarts(c: Limits, s: System, id: nat) returns (start: seq<Action>)
    requires Invariant(c, s) && Waits(s) && s.running == {} && ForcedWaiter(s, id)
    ensures var t := Run(c, s, start);
      t.running != {} && t.refreshes == s.refreshes && t.clock == s.clock
  {
    var fetch := s.calls[id].fetch;
    if fetch in s.ended {
      EndedIsLoading(c, s, fetch);
      WaiterClears(c, s, id);
      start := [] + [Clear(fetch)];
    } else {
      SlotEmpty(c, s, id);
      start := [];
    }
    WaiterResumes(c, s, start, id);
    start := start + [Resume(id)];
  }

  /** Outside a quiet state the next document can be installed at this very instant. */
  lemma RefreshNow(c: Limits, s: System) returns (after: seq<Action>)
    requires Invariant(c, s) && Waits(s) && !Quiet(s)
    ensures var rs := Run(c, s, after).refreshes;
      |rs| == |s.refreshes| + 1 && rs[..|s.refreshes|] == s.refreshes && rs[|s.refreshes|].at == s.clock
  {
    var start: seq<Action> := [];
    if s.running == {} {
      var id :| ForcedWaiter(s, id);
      start := WaiterStarts(c, s, id);
    }
    after := RunningEnds(c, s, start);
  }

  lemma EarlyFrom(c: Limits, s: System)
    requires Invariant(c, s) && Waits(s)
    requires s.refreshes != [] && s.clock - s.refreshes[|s.refreshes| - 1].at < c.minFetch
    ensures (exists after :: Early(c, s, after)) <==> !Quiet(s)
  {
    if Quiet(s) {
      forall after ensures !Early(c, s, after) {
        RunKeepsNotEarly(c, s, after);
      }
    } else {
      var after := RefreshNow(c, s);
      assert Early(c, s, after);
    }
  }

  /** In every reachable state less than the minimum interval after the last refresh,
      some continuation installs another document within that interval if and only if a
      fetch is running or a forced call waits on a promise that resolves. */
  lemma {:induction false} EarlyExactly(c: Limits, clock: Instant, before: seq<Action>)
    requires var s := Run(c, Start(clock), before);
      s.refreshes != [] && s.clock - s.refreshes[|s.refreshes| - 1].at < c.minFetch
    ensures var s := Run(c, Start(clock), before);
      (exists after :: Early(c, s, after)) <==> !Quiet(s)
  {
    RunKeepsBoth(c, Start(clock), before);
    EarlyFrom(c, Run(c, Start(clock), before));
  }

  // ---- the case is reached ----

  lemma {:induction false} RunConcat(c: Limits, s: System, a: seq<Action>, b: seq<Action>)
    ensures Run(c, Run(c, s, a), b) == Run(c, s, a + b)
  {
    if b == [] {
      assert a + b == a;
    } else {
      var init := b[..|b| - 1];
      RunConcat(c, s, a, init);
      assert a + b == a + init + [b[|b| - 1]];
      RunExtends(c, s, a + init, b[|b| - 1]);
    }
  }

  /** Once that document is stale, one call reloads it and another waits for the reload
      with a key it does not have. */
  lemma ReloadAwaited(c: Limits, clock: Instant, kid: string, key: string, absent: string, at: Instant) returns (actions: seq<Action>)
    requires kid != absent && at - clock >= c.ttl && at - clock >= c.minFetch && at >= clock
    ensures var s := Run(c, Start(clock), actions);
      && s.calls == map[0 := Loaded(kid, false, 0, 0), 1 := Awaiting(kid, false, 1, 1), 2 := Joined(absent, true, 2, 1)]
      && s.loading == Some(1) && s.running == {1} && s.ended == map[] && s.clock == at && s.fetches == 2 && |s.refreshes| == 1
  {
    var a0 := LoadedOnce(c, clock, kid, map[kid := key]);
    var a1 := a0 + [Call(1, kid, at, at, at)];
    actions := a1 + [Call(2, absent, at, at, at)];
    RunExtends(c, Start(clock), a0, Call(1, kid, at, at, at));
    RunExtends(c, Start(clock), a1, Call(2, absent, at, at, at));
  }

  /** Two consecutive refreshes need not be apart at all: when the reload is done, the
      forced waiter fetches at the same instant. */
  lemma {:induction false} BackToBack(c: Limits, clock: Instant, kid: string, key: string, absent: string, at: Instant) returns (actions: seq<Action>)
    requires kid != absent && at - clock >= c.ttl && at - clock >= c.minFetch && at >= clock
    ensures var rs := Run(c, Start(clock), actions).refreshes;
      |rs| == 3 && rs[1].at == rs[2].at == at
  {
    var a0 := ReloadAwaited(c, clock, kid, key, absent, at);
    var reload := End(1, Some(map[kid := key]), at);
    RunExtends(c, Start(clock), a0, reload);
    var s := Run(c, Start(clock), a0 + [reload]);
    assert ForcedWaiter(s, 2) && |s.refreshes| == 2 && s.refreshes[1].at == s.clock == at;
    RunKeepsBoth(c, Start(clock), a0 + [reload]);
    var after := RefreshNow(c, s);
    RunConcat(c, Start(clock), a0 + [reload], after);
    var rs := Run(c, s, after).refreshes;
    assert rs[1] == rs[..2][1];
    actions := a0 + [reload] + after;
  }
}
