/** Key loading in the TypeScript verifier: any number of calls of `signingKey`, cut
    at their awaits, around the one promise kept in `loading`. */
module TypeScriptKeyCache {
  import opened Records
  import opened KeyRefreshes

  /** Where a call is suspended. `called` is history: how many fetches had been started
      when it was made. Joined awaits the promise it found in `loading`; Awaiting awaits
      the promise `load` returned; Loaded has seen its load return normally. */
  datatype Pending =
    | Joined(kid: string, force: bool, called: nat, fetch: nat)
    | Awaiting(kid: string, force: bool, called: nat, fetch: nat)
    | Loaded(kid: string, force: bool, called: nat, fetch: nat)

  /** A load that returned normally: the fetch it observed and the one whose document
      the call then consulted. */
  datatype Return = Return(forced: bool, called: nat, observed: nat, consulted: nat)

  datatype System = System(
    cache: Cache,
    loading: Option<nat>,
    running: set<nat>,           // fetches not yet settled
    ended: map<nat, bool>,       // settled, `finally` still to run; whether it succeeded
    settled: map<nat, bool>,     // promises of `loading` that are settled
    calls: map<nat, Pending>,
    clock: Instant,
    fetches: nat,                // fetches started
    refreshes: seq<Refresh>,     // history
    verdicts: seq<Verdict>,      // history
    loads: seq<Return>)          // history

  function Start(clock: Instant): System {
    System(Empty, None, {}, map[], map[], map[], clock, 0, [], [], [])
  }

  datatype Action =
    | Call(id: nat, kid: string, now: Instant, next: Instant, later: Instant)
    | End(fetch: nat, document: Option<Keys>, now: Instant)
    | Clear(fetch: nat)
    | Resume(id: nat)
    | Finish(id: nat, now: Instant)

  function Answered(s: System, v: Verdict): System {
    s.(verdicts := s.verdicts + [v])
  }

  function Moved(s: System, id: nat, p: Pending): System {
    s.(calls := s.calls[id := p])
  }

  /** Starts a fetch and awaits it. */
  function Begun(s: System, id: nat, kid: string, force: bool, called: nat): System {
    Moved(s.(loading := Some(s.fetches), running := s.running + {s.fetches}, fetches := s.fetches + 1),
          id, Awaiting(kid, force, called, s.fetches))
  }

  /** The answer given before any await, if there is one; the clock is read up to three times. */
  function Immediate(c: Limits, cache: Cache, kid: string, now: Instant, next: Instant, later: Instant, document: nat): Option<Verdict> {
    if kid in cache.keys && IsFresh(cache, now, c.ttl) then Some(Hit(kid, cache.keys[kid], now, document))
    else if RecentMiss(c, cache, kid, next) then Some(Remembered(kid, next, cache.unknown[kid], document))
    else if Recent(cache.lastRefresh, later, c.minFetch) then
      Some(if kid in cache.keys then Hit(kid, cache.keys[kid], later, document) else Denied(kid, later, document))
    else None
  }

  /** signingKey up to its first await. */
  function DoCall(c: Limits, s: System, id: nat, kid: string, now: Instant, next: Instant, later: Instant): System {
    if id in s.calls || !(s.clock <= now <= next <= later) then s
    else
      var s1, v := s.(clock := later), Immediate(c, s.cache, kid, now, next, later, |s.refreshes|);
      if v.Some? then Answered(s1, v.value)
      else
        var force := s.cache.keys != map[] && kid !in s.cache.keys;
        if s.loading.Some? then Moved(s1, id, Joined(kid, force, s.fetches, s.loading.value))
        else Begun(s1, id, kid, force, s.fetches)
  }

  /** Nobody still waits for a promise other than this fetch's. */
  predicate OnlyWaitersOf(calls: map<nat, Pending>, fetch: nat) {
    forall id :: id in calls && !calls[id].Loaded? ==> calls[id].fetch == fetch
  }

  /** The document is installed at the instant it has been read; None for every failure.
      Continuations queued on an earlier promise have run by then. */
  function DoEnd(s: System, fetch: nat, document: Option<Keys>, now: Instant): System {
    if fetch !in s.running || now < s.clock || !OnlyWaitersOf(s.calls, fetch) then s
    else
      var s1 := s.(clock := now, running := s.running - {fetch}, ended := s.ended[fetch := document.Some?]);
      if document.None? then s1
      else
        var r := Refresh(fetch, now, document.value);
        s1.(cache := Installed(s.cache, r), refreshes := s.refreshes + [r])
  }

  function DoClear(s: System, fetch: nat): System {
    if fetch !in s.ended then s
    else
      s.(ended := s.ended - {fetch}, settled := s.settled[fetch := s.ended[fetch]],
         loading := if s.loading == Some(fetch) then None else s.loading)
  }

  function DoResume(s: System, id: nat): System {
    if id !in s.calls || s.calls[id].Loaded? || s.calls[id].fetch !in s.settled then s
    else
      var p := s.calls[id];
      if !s.settled[p.fetch] then s.(calls := s.calls - {id})
      else if p.Awaiting? || !p.force then Moved(s, id, Loaded(p.kid, p.force, p.called, p.fetch))
      else if s.loading.Some? then Moved(s, id, Awaiting(p.kid, p.force, p.called, s.loading.value))
      else Begun(s, id, p.kid, p.force, p.called)
  }

  function Consulted(rs: seq<Refresh>): nat {
    if rs == [] then 0 else rs[|rs| - 1].fetch
  }

  function DoFinish(s: System, id: nat, now: Instant): System {
    if id !in s.calls || !s.calls[id].Loaded? || now < s.clock then s
    else
      var p := s.calls[id];
      Answered(s.(clock := now, cache := Noted(s.cache, p.kid, now), calls := s.calls - {id},
                  loads := s.loads + [Return(p.force, p.called, p.fetch, Consulted(s.refreshes))]),
               Outcome(s.cache.keys, p.kid, Consulted(s.refreshes), |s.refreshes|))
  }

  function Step(c: Limits, s: System, a: Action): System {
    match a
    case Call(id, kid, now, next, later) => DoCall(c, s, id, kid, now, next, later)
    case End(fetch, document, now) => DoEnd(s, fetch, document, now)
    case Clear(fetch) => DoClear(s, fetch)
    case Resume(id) => DoResume(s, id)
    case Finish(id, now) => DoFinish(s, id, now)
  }

  function Run(c: Limits, s: System, actions: seq<Action>): System {
    if actions == [] then s else Step(c, Run(c, s, actions[..|actions| - 1]), actions[|actions| - 1])
  }

  // ---- the invariant ----

  /** The last-but-one refresh is far enough back for one more. */
  ghost predicate RoomForOne(rs: seq<Refresh>, at: Instant, gap: int) {
    |rs| >= 2 ==> at - rs[|rs| - 2].at >= gap
  }

  /** The last refresh is far enough back for two more. */
  ghost predicate RoomForTwo(rs: seq<Refresh>, at: Instant, gap: int) {
    rs != [] ==> at - rs[|rs| - 1].at >= gap
  }

  ghost predicate HistoryFits(c: Limits, rs: seq<Refresh>, clock: Instant, fetches: nat) {
    && InOrder(rs) && Spaced(rs, 2, c.minFetch)
    && (forall i :: 0 <= i < |rs| ==> rs[i].at <= clock && rs[i].fetch < fetches)
    && (forall i :: 0 <= i < |rs| ==> rs[i].fetch <= Consulted(rs))
  }

  /** Only the fetch in `loading` is anywhere between its start and its `finally`, and
      it is the latest one. */
  ghost predicate SlotFits(loading: Option<nat>, running: set<nat>, ended: map<nat, bool>, settled: map<nat, bool>, fetches: nat) {
    && (forall f :: f in running || f in ended ==> loading == Some(f))
    && (forall f :: f in settled ==> f < fetches && f !in running && f !in ended && loading != Some(f))
    && (loading.Some? ==> fetches > 0 && loading.value == fetches - 1 && (loading.value in running <==> loading.value !in ended))
  }

  ghost predicate Succeeded(rs: seq<Refresh>, outcomes: map<nat, bool>) {
    forall f :: f in outcomes && outcomes[f] ==> rs != [] && f <= Consulted(rs)
  }

  ghost predicate RunningFits(c: Limits, rs: seq<Refresh>, running: set<nat>, clock: Instant) {
    forall f :: f in running ==> RoomForOne(rs, clock, c.minFetch) && (rs != [] ==> Consulted(rs) < f)
  }

  ghost predicate PendingFits(c: Limits, p: Pending, s: System) {
    match p
    case Joined(_, _, called, fetch) =>
      && fetch + 1 == called <= s.fetches
      && (fetch in s.running || fetch in s.ended || fetch in s.settled)
      && (fetch in s.running ==> RoomForTwo(s.refreshes, s.clock, c.minFetch))
      && ((fetch in s.ended && s.ended[fetch]) || (fetch in s.settled && s.settled[fetch]) ==> RoomForOne(s.refreshes, s.clock, c.minFetch))
    case Awaiting(_, force, called, fetch) => (force ==> called <= fetch) && fetch < s.fetches
    case Loaded(_, force, called, fetch) => (force ==> called <= fetch) && s.refreshes != [] && fetch <= Consulted(s.refreshes)
  }

  ghost predicate CallsFit(c: Limits, s: System) {
    forall id :: id in s.calls ==> PendingFits(c, s.calls[id], s)
  }

  ghost predicate ReturnFits(r: Return) {
    r.observed <= r.consulted && (r.forced ==> r.called <= r.observed)
  }

  ghost predicate Invariant(c: Limits, s: System) {
    && Tied(s.cache, s.refreshes) && MissesFit(s.refreshes, s.cache.unknown, s.clock)
    && HistoryFits(c, s.refreshes, s.clock, s.fetches)
    && SlotFits(s.loading, s.running, s.ended, s.settled, s.fetches)
    && Succeeded(s.refreshes, s.ended) && Succeeded(s.refreshes, s.settled)
    && RunningFits(c, s.refreshes, s.running, s.clock)
    && CallsFit(c, s) && VerdictsFit(c, s.refreshes, s.verdicts)
    && forall i :: 0 <= i < |s.loads| ==> ReturnFits(s.loads[i])
  }

  lemma BegunKeeps(c: Limits, s: System, id: nat, kid: string, force: bool, called: nat)
    requires Invariant(c, s) && s.loading.None? && called <= s.fetches && RoomForOne(s.refreshes, s.clock, c.minFetch)
    ensures Invariant(c, Begun(s, id, kid, force, called))
  {
  }

  lemma CachedHit(c: Limits, s: System, kid: string, now: Instant)
    requires Invariant(c, s) && s.clock <= now && kid in s.cache.keys
    requires IsFresh(s.cache, now, c.ttl) || Recent(s.cache.lastRefresh, now, c.minFetch)
    ensures VerdictFits(c, s.refreshes, Hit(kid, s.cache.keys[kid], now, |s.refreshes|))
  {
  }

  lemma LaterKeeps(c: Limits, s: System, later: Instant)
    requires Invariant(c, s) && s.clock <= later
    ensures Invariant(c, s.(clock := later))
  {
    var s' := s.(clock := later);
    forall id | id in s'.calls ensures PendingFits(c, s'.calls[id], s') {
      assert PendingFits(c, s.calls[id], s);
    }
  }

  lemma AnsweredKeeps(c: Limits, s: System, v: Verdict)
    requires Invariant(c, s) && VerdictFits(c, s.refreshes, v)
    ensures Invariant(c, Answered(s, v))
  {
    var s' := Answered(s, v);
    forall id | id in s'.calls ensures PendingFits(c, s'.calls[id], s') {
      assert PendingFits(c, s.calls[id], s);
    }
  }

  lemma ImmediateFits(c: Limits, s: System, kid: string, now: Instant, next: Instant, later: Instant)
    requires Invariant(c, s) && s.clock <= now <= next <= later && Immediate(c, s.cache, kid, now, next, later, |s.refreshes|).Some?
    ensures VerdictFits(c, s.refreshes, Immediate(c, s.cache, kid, now, next, later, |s.refreshes|).value)
  {
    if kid in s.cache.keys && IsFresh(s.cache, now, c.ttl) {
      CachedHit(c, s, kid, now);
    } else if !RecentMiss(c, s.cache, kid, next) && kid in s.cache.keys {
      CachedHit(c, s, kid, later);
    }
  }

  lemma CallKeeps(c: Limits, s: System, id: nat, kid: string, now: Instant, next: Instant, later: Instant)
    requires Invariant(c, s)
    ensures Invariant(c, DoCall(c, s, id, kid, now, next, later))
  {
    if id !in s.calls && s.clock <= now <= next <= later {
      var s1, v := s.(clock := later), Immediate(c, s.cache, kid, now, next, later, |s.refreshes|);
      LaterKeeps(c, s, later);
      if v.Some? {
        ImmediateFits(c, s, kid, now, next, later);
        AnsweredKeeps(c, s1, v.value);
      } else {
        var force := s.cache.keys != map[] && kid !in s.cache.keys;
        if s.loading.Some? {
          JoinKeeps(c, s1, id, kid, force);
        } else {
          BegunKeeps(c, s1, id, kid, force, s.fetches);
        }
      }
    }
  }

  lemma JoinKeeps(c: Limits, s: System, id: nat, kid: string, force: bool)
    requires Invariant(c, s) && s.loading.Some? && !Recent(s.cache.lastRefresh, s.clock, c.minFetch)
    ensures Invariant(c, Moved(s, id, Joined(kid, force, s.fetches, s.loading.value)))
  {
  }

  lemma EndKeepsHistory(c: Limits, s: System, r: Refresh)
    requires Invariant(c, s) && r.fetch in s.running && s.clock <= r.at
    ensures var rs := s.refreshes + [r];
      && HistoryFits(c, rs, r.at, s.fetches) && VerdictsFit(c, rs, s.verdicts) && MissesFit(rs, s.cache.unknown, r.at)
  {
    var rs := s.refreshes + [r];
    assert RoomForOne(s.refreshes, s.clock, c.minFetch);
    SpacedExtends(s.refreshes, r, 2, c.minFetch);
    forall i | 0 <= i < |s.verdicts| ensures VerdictFits(c, rs, s.verdicts[i]) {
      LaterVerdict(c, s.refreshes, r, s.verdicts[i]);
    }
    forall kid | kid in s.cache.unknown ensures WasMissing(rs, kid, s.cache.unknown[kid]) {
      LaterMissing(s.refreshes, r, kid, s.cache.unknown[kid]);
    }
  }

  lemma EndKeepsCalls(c: Limits, s: System, fetch: nat, document: Option<Keys>, now: Instant)
    requires Invariant(c, s) && fetch in s.running && s.clock <= now && OnlyWaitersOf(s.calls, fetch)
    ensures CallsFit(c, DoEnd(s, fetch, document, now))
  {
    var s' := DoEnd(s, fetch, document, now);
    forall id | id in s'.calls ensures PendingFits(c, s'.calls[id], s') {
      assert PendingFits(c, s.calls[id], s);
      if s.calls[id].Joined? {
        assert s.calls[id].fetch == fetch;
      }
    }
  }

  lemma EndKeeps(c: Limits, s: System, fetch: nat, document: Option<Keys>, now: Instant)
    requires Invariant(c, s)
    ensures Invariant(c, DoEnd(s, fetch, document, now))
  {
    if fetch in s.running && s.clock <= now && OnlyWaitersOf(s.calls, fetch) {
      EndKeepsCalls(c, s, fetch, document, now);
      if document.Some? {
        EndKeepsHistory(c, s, Refresh(fetch, now, document.value));
      }
    }
  }

  lemma ClearKeeps(c: Limits, s: System, fetch: nat)
    requires Invariant(c, s)
    ensures Invariant(c, DoClear(s, fetch))
  {
    var s' := DoClear(s, fetch);
    forall id | id in s'.calls ensures PendingFits(c, s'.calls[id], s') {
      assert PendingFits(c, s.calls[id], s);
    }
  }

  lemma MovedKeeps(c: Limits, s: System, id: nat, p: Pending)
    requires Invariant(c, s) && PendingFits(c, p, s)
    ensures Invariant(c, Moved(s, id, p))
  {
    var s' := Moved(s, id, p);
    forall other | other in s'.calls ensures PendingFits(c, s'.calls[other], s') {
      assert PendingFits(c, s'.calls[other], s);
    }
  }

  lemma ResumeKeeps(c: Limits, s: System, id: nat)
    requires Invariant(c, s)
    ensures Invariant(c, DoResume(s, id))
  {
    if id in s.calls && !s.calls[id].Loaded? && s.calls[id].fetch in s.settled {
      var p := s.calls[id];
      assert PendingFits(c, p, s);
      if !s.settled[p.fetch] {
        GoneKeeps(c, s, id);
      } else if p.Awaiting? || !p.force {
        MovedKeeps(c, s, id, Loaded(p.kid, p.force, p.called, p.fetch));
      } else if s.loading.Some? {
        MovedKeeps(c, s, id, Awaiting(p.kid, p.force, p.called, s.loading.value));
      } else {
        BegunKeeps(c, s, id, p.kid, p.force, p.called);
      }
    }
  }

  lemma GoneKeeps(c: Limits, s: System, id: nat)
    requires Invariant(c, s)
    ensures Invariant(c, s.(calls := s.calls - {id}))
  {
    var s' := s.(calls := s.calls - {id});
    forall other | other in s'.calls ensures PendingFits(c, s'.calls[other], s') {
      assert PendingFits(c, s.calls[other], s);
    }
  }

  lemma NotedKeeps(c: Limits, s: System, kid: string, now: Instant)
    requires Invariant(c, s) && s.clock <= now && s.refreshes != []
    ensures Invariant(c, s.(clock := now, cache := Noted(s.cache, kid, now)))
  {
    LaterKeeps(c, s, now);
    var s' := s.(clock := now, cache := Noted(s.cache, kid, now));
    if kid !in s.cache.keys {
      assert WasMissing(s.refreshes, kid, now) by { assert s.refreshes[|s.refreshes| - 1].at <= now; }
    }
    forall id | id in s'.calls ensures PendingFits(c, s'.calls[id], s') {
      assert PendingFits(c, s.calls[id], s.(clock := now));
    }
  }

  lemma FinishKeeps(c: Limits, s: System, id: nat, now: Instant)
    requires Invariant(c, s)
    ensures Invariant(c, DoFinish(s, id, now))
  {
    if id in s.calls && s.calls[id].Loaded? && s.clock <= now {
      var p := s.calls[id];
      assert PendingFits(c, p, s);
      var s1 := s.(clock := now, cache := Noted(s.cache, p.kid, now));
      NotedKeeps(c, s, p.kid, now);
      GoneKeeps(c, s1, id);
      var s2, r := s1.(calls := s1.calls - {id}), Return(p.force, p.called, p.fetch, Consulted(s.refreshes));
      ReturnedKeeps(c, s2, r);
      AnsweredKeeps(c, s2.(loads := s.loads + [r]), Outcome(s.cache.keys, p.kid, Consulted(s.refreshes), |s.refreshes|));
    }
  }

  lemma ReturnedKeeps(c: Limits, s: System, r: Return)
    requires Invariant(c, s) && ReturnFits(r)
    ensures Invariant(c, s.(loads := s.loads + [r]))
  {
    var s' := s.(loads := s.loads + [r]);
    forall id | id in s'.calls ensures PendingFits(c, s'.calls[id], s') {
      assert PendingFits(c, s.calls[id], s);
    }
  }

  lemma {:induction false} RunKeepsInvariant(c: Limits, clock: Instant, actions: seq<Action>)
    ensures Invariant(c, Run(c, Start(clock), actions))
  {
    if actions != [] {
      var s := Run(c, Start(clock), actions[..|actions| - 1]);
      RunKeepsInvariant(c, clock, actions[..|actions| - 1]);
      match actions[|actions| - 1]
      case Call(id, kid, now, next, later) => CallKeeps(c, s, id, kid, now, next, later);
      case End(fetch, document, now) => EndKeeps(c, s, fetch, document, now);
      case Clear(fetch) => ClearKeeps(c, s, fetch);
      case Resume(id) => ResumeKeeps(c, s, id);
      case Finish(id, now) => FinishKeeps(c, s, id, now);
    }
  }

  // ---- what it gives ----

  /** At most one fetch is in flight. */
  lemma {:induction false} OneFetchAtOnce(c: Limits, clock: Instant, actions: seq<Action>, a: nat, b: nat)
    requires var s := Run(c, Start(clock), actions); a in s.running && b in s.running
    ensures a == b
  {
    RunKeepsInvariant(c, clock, actions);
  }

  /** A load that returns normally observed a fetch whose document is consulted or was
      replaced by a newer one; a forced load observed a fetch started after the call. */
  lemma {:induction false} ForcedLoadIsNewer(c: Limits, clock: Instant, actions: seq<Action>, i: nat)
    requires i < |Run(c, Start(clock), actions).loads|
    ensures var r := Run(c, Start(clock), actions).loads[i];
      r.observed <= r.consulted && (r.forced ==> r.called <= r.observed)
  {
    RunKeepsInvariant(c, clock, actions);
  }

  /** Any three consecutive successful refreshes span at least the minimum interval. */
  lemma {:induction false} RefreshesApart(c: Limits, clock: Instant, actions: seq<Action>, i: nat)
    requires i + 2 < |Run(c, Start(clock), actions).refreshes|
    ensures var rs := Run(c, Start(clock), actions).refreshes;
      rs[i + 2].at - rs[i].at >= c.minFetch
  {
    RunKeepsInvariant(c, clock, actions);
  }

  /** A window of length W sees at most twice as many of them as in Go and Python. */
  lemma {:induction false} RefreshesPerWindow(c: Limits, clock: Instant, actions: seq<Action>, from: Instant, width: nat)
    requires c.minFetch > 0
    ensures Count(Run(c, Start(clock), actions).refreshes, from, width) <= (width / c.minFetch + 1) * 2
  {
    RunKeepsInvariant(c, clock, actions);
    WindowBound(Run(c, Start(clock), actions).refreshes, 2, c.minFetch, from, width);
  }

  /** A key answered without a fetch comes from the document installed last, younger
      than both limits' maximum; a refusal without a fetch means that this document
      lacks the key, or that the key is on the recent-miss list and, if the document
      holds it after all, that the document is past its TTL. */
  lemma {:induction false} AnswersAreCurrent(c: Limits, clock: Instant, actions: seq<Action>, i: nat)
    requires i < |Run(c, Start(clock), actions).verdicts|
    ensures var s := Run(c, Start(clock), actions);
      var v, rs := s.verdicts[i], s.refreshes;
      && (v.Hit? ==> Current(rs, v.document, v.at, Max(c.ttl, c.minFetch)) && Holds(rs[v.document - 1], v.kid, v.key))
      && (v.Denied? ==> Current(rs, v.document, v.at, c.minFetch) && v.kid !in rs[v.document - 1].keys)
      && (v.Remembered? ==> Current(rs, v.document, v.at, c.minFetch) && 0 <= v.at - v.missedAt < c.unknownTTL && WasMissing(rs, v.kid, v.missedAt))
      && (v.Remembered? && v.kid in rs[v.document - 1].keys ==> v.at - rs[v.document - 1].at >= c.ttl)
      && (v.Found? || v.Absent? ==> OutcomeFits(rs, v))
  {
    RunKeepsInvariant(c, clock, actions);
  }

  /** While throttled, a call with its key cached and off the recent-miss list is served
      the latest document's key, however stale. */
  lemma {:induction false} ServedWhileThrottled(c: Limits, clock: Instant, actions: seq<Action>, id: nat, kid: string, now: Instant, next: Instant, later: Instant)
    requires var s := Run(c, Start(clock), actions);
      && id !in s.calls && s.clock <= now <= next <= later && kid in s.cache.keys
      && !RecentMiss(c, s.cache, kid, next) && Recent(s.cache.lastRefresh, later, c.minFetch)
    ensures var s := Run(c, Start(clock), actions);
      && s.refreshes != [] && kid in s.refreshes[|s.refreshes| - 1].keys
      && DoCall(c, s, id, kid, now, next, later).verdicts == s.verdicts
           + [Hit(kid, s.refreshes[|s.refreshes| - 1].keys[kid], if IsFresh(s.cache, now, c.ttl) then now else later, |s.refreshes|)]
  {
    RunKeepsInvariant(c, clock, actions);
  }

  // ---- a call on its own ----

  /** What a call that meets no other is answered, and the refresh it makes, if any. */
  function Alone(c: Limits, rs: seq<Refresh>, unknown: map<string, Instant>, fetch: nat, kid: string,
                 now: Instant, next: Instant, later: Instant, document: Option<Keys>, received: Instant): (seq<Verdict>, seq<Refresh>)
  {
    if Serves(rs, kid, now, c.ttl) then ([Hit(kid, rs[|rs| - 1].keys[kid], now, |rs|)], [])
    else if NotedMiss(unknown, kid, next, c.unknownTTL) && Throttled(rs, next, c.minFetch) then ([Remembered(kid, next, unknown[kid], |rs|)], [])
    else if Throttled(rs, later, c.minFetch) then
      ([if kid in rs[|rs| - 1].keys then Hit(kid, rs[|rs| - 1].keys[kid], later, |rs|) else Denied(kid, later, |rs|)], [])
    else if document.None? then ([], [])
    else ([Outcome(document.value, kid, fetch, |rs| + 1)], [Refresh(fetch, received, document.value)])
  }

  lemma {:induction false} RunExtends(c: Limits, s: System, actions: seq<Action>, a: Action)
    ensures Run(c, s, actions + [a]) == Step(c, Run(c, s, actions), a)
  {
    assert (actions + [a])[..|actions|] == actions;
  }

  /** Nothing is under way. */
  predicate Still(s: System) {
    s.calls == map[] && s.running == {} && s.ended == map[] && s.loading == None
  }

  /** The call has ended with these verdicts and refreshes. */
  predicate Ended(s: System, s': System, answers: (seq<Verdict>, seq<Refresh>)) {
    Still(s') && s'.verdicts == s.verdicts + answers.0 && s'.refreshes == s.refreshes + answers.1
  }

  function WholeCall(id: nat, kid: string, now: Instant, next: Instant, later: Instant, fetch: nat, document: Option<Keys>,
                     received: Instant, finished: Instant): seq<Action>
  {
    (((([] + [Call(id, kid, now, next, later)]) + [End(fetch, document, received)]) + [Clear(fetch)]) + [Resume(id)]) + [Finish(id, finished)]
  }

  function AfterFetch(s: System, id: nat, fetch: nat, document: Option<Keys>, received: Instant, finished: Instant): System {
    DoFinish(DoResume(DoClear(DoEnd(s, fetch, document, received), fetch), id), id, finished)
  }

  lemma {:induction false} WholeCallRuns(c: Limits, s: System, id: nat, kid: string, now: Instant, next: Instant, later: Instant, fetch: nat,
                      document: Option<Keys>, received: Instant, finished: Instant)
    ensures Run(c, s, WholeCall(id, kid, now, next, later, fetch, document, received, finished)) ==
      AfterFetch(DoCall(c, s, id, kid, now, next, later), id, fetch, document, received, finished)
  {
    var a1 := [] + [Call(id, kid, now, next, later)];
    var a2 := a1 + [End(fetch, document, received)];
    var a3 := a2 + [Clear(fetch)];
    RunExtends(c, s, [], Call(id, kid, now, next, later));
    RunExtends(c, s, a1, End(fetch, document, received));
    RunExtends(c, s, a2, Clear(fetch));
    RunExtends(c, s, a3, Resume(id));
    RunExtends(c, s, a3 + [Resume(id)], Finish(id, finished));
  }

  lemma FetchedAlone(s: System, id: nat, kid: string, force: bool, called: nat, fetch: nat, document: Option<Keys>, received: Instant, finished: Instant)
    requires s.calls == map[id := Awaiting(kid, force, called, fetch)] && s.loading == Some(fetch) && s.running == {fetch} && s.ended == map[]
    requires s.clock <= received <= finished
    ensures var s' := AfterFetch(s, id, fetch, document, received, finished);
      if document.None? then Ended(s, s', ([], [])) && s'.cache == s.cache
      else && Ended(s, s', ([Outcome(document.value, kid, fetch, |s.refreshes| + 1)], [Refresh(fetch, received, document.value)]))
           && s'.cache.unknown == MissesAfter(s.cache.unknown, document.value, kid, finished)
  {
  }

  lemma CalledAlone(c: Limits, s: System, id: nat, kid: string, now: Instant, next: Instant, later: Instant)
    requires Tied(s.cache, s.refreshes) && Still(s) && s.clock <= now <= next <= later
    ensures var s', rs := DoCall(c, s, id, kid, now, next, later), s.refreshes;
      if Serves(rs, kid, now, c.ttl) then Ended(s, s', ([Hit(kid, rs[|rs| - 1].keys[kid], now, |rs|)], []))
      else if NotedMiss(s.cache.unknown, kid, next, c.unknownTTL) && Throttled(rs, next, c.minFetch)
      then Ended(s, s', ([Remembered(kid, next, s.cache.unknown[kid], |rs|)], []))
      else if Throttled(rs, later, c.minFetch)
      then Ended(s, s', ([if kid in rs[|rs| - 1].keys then Hit(kid, rs[|rs| - 1].keys[kid], later, |rs|) else Denied(kid, later, |rs|)], []))
      else exists force :: s' == s.(clock := later, loading := Some(s.fetches), running := {s.fetches}, fetches := s.fetches + 1,
                                    calls := map[id := Awaiting(kid, force, s.fetches, s.fetches)])
  {
    var s' := DoCall(c, s, id, kid, now, next, later);
    var force := s.cache.keys != map[] && kid !in s.cache.keys;
    if Immediate(c, s.cache, kid, now, next, later, |s.refreshes|).None? {
      assert s' == s.(clock := later, loading := Some(s.fetches), running := {s.fetches}, fetches := s.fetches + 1,
                      calls := map[id := Awaiting(kid, force, s.fetches, s.fetches)]);
    }
  }

  /** In every reachable state with nothing under way, a call is answered as the
      sequential reading of the cache says, makes that refresh, and leaves the slot empty. */
  lemma {:induction false} CallAlone(c: Limits, clock: Instant, actions: seq<Action>, id: nat, kid: string, now: Instant, next: Instant, later: Instant,
                                     document: Option<Keys>, received: Instant, finished: Instant)
    requires var s := Run(c, Start(clock), actions);
      s.calls == map[] && s.running == {} && s.ended == map[] && s.clock <= now <= next <= later <= received <= finished
    ensures var s := Run(c, Start(clock), actions);
      Ended(s, Run(c, s, WholeCall(id, kid, now, next, later, s.fetches, document, received, finished)),
            Alone(c, s.refreshes, s.cache.unknown, s.fetches, kid, now, next, later, document, received))
  {
    RunKeepsInvariant(c, clock, actions);
    var s := Run(c, Start(clock), actions);
    var s' := DoCall(c, s, id, kid, now, next, later);
    WholeCallRuns(c, s, id, kid, now, next, later, s.fetches, document, received, finished);
    CalledAlone(c, s, id, kid, now, next, later);
    if id in s'.calls {
      FetchedAlone(s', id, kid, s'.calls[id].force, s.fetches, s.fetches, document, received, finished);
    } else {
      assert AfterFetch(s', id, s.fetches, document, received, finished) == s';
    }
  }

  // ---- calls that meet ----

  /** While a load is under way, a call that cannot be answered at once joins it and
      starts no fetch; it insists on a newer one exactly when there is a document and
      its key is not in it. */
  lemma {:induction false} JoinExactly(c: Limits, clock: Instant, actions: seq<Action>, id: nat, kid: string, now: Instant, next: Instant, later: Instant)
    requires var s := Run(c, Start(clock), actions);
      && id !in s.calls && s.clock <= now <= next <= later && s.loading.Some?
      && !Serves(s.refreshes, kid, now, c.ttl) && !(NotedMiss(s.cache.unknown, kid, next, c.unknownTTL) && Throttled(s.refreshes, next, c.minFetch))
      && !Throttled(s.refreshes, later, c.minFetch)
    ensures var s := Run(c, Start(clock), actions);
      var rs := s.refreshes;
      Step(c, s, Call(id, kid, now, next, later)) == s.(clock := later,
        calls := s.calls[id := Joined(kid, rs != [] && rs[|rs| - 1].keys != map[] && kid !in rs[|rs| - 1].keys, s.fetches, s.loading.value)])
  {
    RunKeepsInvariant(c, clock, actions);
  }

  /** When its promise has settled, a waiting call fails with it, or goes on if the load
      was its own or it did not insist, or else waits for the load under way, or starts
      one if there is none. */
  lemma ResumeExactly(c: Limits, s: System, id: nat)
    requires id in s.calls && !s.calls[id].Loaded? && s.calls[id].fetch in s.settled
    ensures var s', p := Step(c, s, Resume(id)), s.calls[id];
      if !s.settled[p.fetch] then s' == s.(calls := s.calls - {id})
      else if p.Awaiting? || !p.force then s' == s.(calls := s.calls[id := Loaded(p.kid, p.force, p.called, p.fetch)])
      else if s.loading.Some? then s' == s.(calls := s.calls[id := Awaiting(p.kid, p.force, p.called, s.loading.value)])
      else s' == s.(loading := Some(s.fetches), running := s.running + {s.fetches}, fetches := s.fetches + 1,
                    calls := s.calls[id := Awaiting(p.kid, p.force, p.called, s.fetches)])
  {
  }

  /** A call whose load returned looks its key up in the document in force, whichever
      fetch brought it, notes a miss or clears it, and is done. */
  lemma {:induction false} FinishExactly(c: Limits, clock: Instant, actions: seq<Action>, id: nat, now: Instant)
    requires var s := Run(c, Start(clock), actions); id in s.calls && s.calls[id].Loaded? && s.clock <= now
    ensures var s := Run(c, Start(clock), actions);
      var s', p, rs := Step(c, s, Finish(id, now)), s.calls[id], s.refreshes;
      && rs != [] && s'.refreshes == rs && s'.calls == s.calls - {id}
      && s'.verdicts == s.verdicts + [Outcome(rs[|rs| - 1].keys, p.kid, rs[|rs| - 1].fetch, |rs|)]
      && s'.loads == s.loads + [Return(p.force, p.called, p.fetch, rs[|rs| - 1].fetch)]
      && s'.cache.unknown == MissesAfter(s.cache.unknown, rs[|rs| - 1].keys, p.kid, now)
  {
    RunKeepsInvariant(c, clock, actions);
    assert PendingFits(c, Run(c, Start(clock), actions).calls[id], Run(c, Start(clock), actions));
  }

  // ---- a cached key can be refused ----

  lemma FirstCall(c: Limits, clock: Instant, kid: string) returns (actions: seq<Action>)
    ensures Run(c, Start(clock), actions) ==
      System(Empty, Some(0), {0}, map[], map[], map[0 := Awaiting(kid, false, 0, 0)], clock, 1, [], [], [])
  {
    actions := [] + [Call(0, kid, clock, clock, clock)];
    RunExtends(c, Start(clock), [], Call(0, kid, clock, clock, clock));
  }

  /** A run that has loaded a document once, at `clock`, for its first call. */
  lemma LoadedOnce(c: Limits, clock: Instant, kid: string, document: Keys) returns (actions: seq<Action>)
    ensures var s := Run(c, Start(clock), actions);
      && s.cache == Cache(document, Some(clock), Some(clock), map[]) && s.loading.None? && s.running == {}
      && s.calls == map[0 := Loaded(kid, false, 0, 0)] && s.clock == clock && s.fetches == 1 && s.ended == map[] && |s.refreshes| == 1
  {
    var a1 := FirstCall(c, clock, kid);
    var a2 := a1 + [End(0, Some(document), clock)];
    var a3 := a2 + [Clear(0)];
    actions := a3 + [Resume(0)];
    RunExtends(c, Start(clock), a1, End(0, Some(document), clock));
    RunExtends(c, Start(clock), a2, Clear(0));
    RunExtends(c, Start(clock), a3, Resume(0));
  }

  /** A run that has noted the miss of a key, after which another call has brought a
      document that has it. */
  lemma MissOutdated(c: Limits, kid: string, other: string) returns (actions: seq<Action>)
    requires c.minFetch > 0 && kid != other
    ensures var s := Run(c, Start(0), actions);
      && s.cache == Cache(map[kid := "k"], Some(c.minFetch), Some(c.minFetch), map[kid := c.minFetch])
      && 2 !in s.calls && s.clock == c.minFetch && |s.refreshes| == 2
  {
    var a0 := LoadedOnce(c, 0, kid, map[]);
    var a1 := a0 + [Finish(0, c.minFetch)];
    var a2 := a1 + [Call(1, other, c.minFetch, c.minFetch, c.minFetch)];
    actions := a2 + [End(1, Some(map[kid := "k"]), c.minFetch)];
    RunExtends(c, Start(0), a0, Finish(0, c.minFetch));
    RunExtends(c, Start(0), a1, Call(1, other, c.minFetch, c.minFetch, c.minFetch));
    RunExtends(c, Start(0), a2, End(1, Some(map[kid := "k"]), c.minFetch));
  }

  lemma CachedRefused(c: Limits) returns (actions: seq<Action>, i: nat)
    requires CanRefuseCached(c)
    ensures var s := Run(c, Start(0), actions); CachedRefusal(s.refreshes, s.verdicts, i)
  {
    var a0 := MissOutdated(c, "a", "b");
    var at := c.minFetch + Max(c.ttl, 0);
    RunExtends(c, Start(0), a0, Call(2, "a", at, at, at));
    RunKeepsInvariant(c, 0, a0);
    actions, i := a0 + [Call(2, "a", at, at, at)], |Run(c, Start(0), a0).verdicts|;
  }

  /** A key the document in force holds is refused in some run if and only if the TTL,
      or zero for a negative one, is below both other limits. */
  lemma {:induction false} CachedRefusalExactly(c: Limits)
    ensures (exists clock, actions, i :: CachedRefusal(Run(c, Start(clock), actions).refreshes, Run(c, Start(clock), actions).verdicts, i))
      <==> CanRefuseCached(c)
  {
    if CanRefuseCached(c) {
      var actions, i := CachedRefused(c);
    }
    forall clock, actions, i | CachedRefusal(Run(c, Start(clock), actions).refreshes, Run(c, Start(clock), actions).verdicts, i)
      ensures CanRefuseCached(c)
    {
      RunKeepsInvariant(c, clock, actions);
      CachedRefusalBound(c, Run(c, Start(clock), actions).refreshes, Run(c, Start(clock), actions).verdicts, i);
    }
  }
}
