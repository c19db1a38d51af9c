/** Key loading in the Go verifier: any number of goroutines in `ensureKeys`, cut
    at its locks, at its clock readings and around the HTTP request. */
module GoKeyCache {
  import opened Records
  import opened KeyRefreshes

  datatype Config = Config(ttl: int, minFetch: int, unknownTTL: int, hasURL: bool)

  const SECOND := 1_000_000_000

  function Positive(value: int, default: int): int {
    if value <= 0 then default else value
  }

  /** A zero or negative setting means the default. */
  function Configured(ttl: int, minFetch: int, unknownTTL: int, hasURL: bool): (c: Config)
    ensures c.ttl > 0 && c.minFetch > 0 && c.unknownTTL > 0 && c.hasURL == hasURL
    ensures c.ttl == (if ttl > 0 then ttl else 300_000_000_000)
    ensures c.minFetch == (if minFetch > 0 then minFetch else 30_000_000_000)
    ensures c.unknownTTL == (if unknownTTL > 0 then unknownTTL else 30_000_000_000)
  {
    Config(Positive(ttl, 300 * SECOND), Positive(minFetch, 30 * SECOND), Positive(unknownTTL, 30 * SECOND), hasURL)
  }

  /** Where a goroutine stands. From Locked on it holds `refreshMu`. */
  datatype Goroutine =
    | Checked(kid: string, negative: bool, lastRefresh: Option<Instant>)
    | Queued(kid: string)
    | Locked(kid: string)
    | Rechecked(kid: string, lastRefresh: Option<Instant>)
    | Fetching(kid: string, fetch: nat)
    | Stamped(kid: string, refresh: Refresh)
    | Leaving

  predicate Holding(g: Goroutine) {
    g.Locked? || g.Rechecked? || g.Fetching? || g.Stamped? || g.Leaving?
  }

  datatype System = System(
    cache: Cache,
    refreshMu: Option<nat>,
    goroutines: map<nat, Goroutine>,
    clock: Instant,
    fetches: nat,              // history: fetches started
    refreshes: seq<Refresh>,   // history
    verdicts: seq<Verdict>)    // history

  function Start(clock: Instant): System {
    System(Empty, None, map[], clock, 0, [], [])
  }

  datatype Action =
    | Read(id: nat, kid: string, now: Instant, later: Instant)
    | Decide(id: nat, now: Instant)
    | Acquire(id: nat)
    | Reread(id: nat, now: Instant)
    | Fetch(id: nat, now: Instant)
    | Receive(id: nat, document: Option<Keys>, now: Instant)
    | Install(id: nat)
    | Release(id: nat)

  function Moved(s: System, id: nat, g: Goroutine): System {
    s.(goroutines := s.goroutines[id := g])
  }

  function Answered(s: System, v: Verdict): System {
    s.(verdicts := s.verdicts + [v])
  }

  predicate At(s: System, id: nat, now: Instant) {
    id in s.goroutines && s.clock <= now
  }

  /** The first read, under the read lock. */
  function DoRead(c: Config, s: System, id: nat, kid: string, now: Instant, later: Instant): System {
    if id in s.goroutines || !(s.clock <= now <= later) then s
    else if kid in s.cache.keys && IsFresh(s.cache, now, c.ttl) then
      Answered(s.(clock := later), Hit(kid, s.cache.keys[kid], now, |s.refreshes|))
    else
      Moved(s.(clock := later), id, Checked(kid, Recent(MissedAt(s.cache, kid), later, c.unknownTTL), s.cache.lastRefresh))
  }

  function DoDecide(c: Config, s: System, id: nat, now: Instant): System {
    if !At(s, id, now) || !s.goroutines[id].Checked? then s
    else
      var g, s1 := s.goroutines[id], s.(clock := now, goroutines := s.goroutines - {id});
      if g.negative && Recent(g.lastRefresh, now, c.minFetch) then Answered(s1, Denied(g.kid, now, |s.refreshes|))
      else if !c.hasURL then s1
      else Moved(s1, id, Queued(g.kid))
  }

  function DoAcquire(s: System, id: nat): System {
    if id !in s.goroutines || !s.goroutines[id].Queued? || s.refreshMu.Some? then s
    else Moved(s.(refreshMu := Some(id)), id, Locked(s.goroutines[id].kid))
  }

  /** The second read. */
  function DoReread(c: Config, s: System, id: nat, now: Instant): System {
    if !At(s, id, now) || !s.goroutines[id].Locked? then s
    else
      var kid, s1 := s.goroutines[id].kid, s.(clock := now);
      if kid in s.cache.keys && IsFresh(s.cache, now, c.ttl)
      then Answered(Moved(s1, id, Leaving), Hit(kid, s.cache.keys[kid], now, |s.refreshes|))
      else Moved(s1, id, Rechecked(kid, s.cache.lastRefresh))
  }

  function DoFetch(c: Config, s: System, id: nat, now: Instant): System {
    if !At(s, id, now) || !s.goroutines[id].Rechecked? then s
    else
      var g, s1 := s.goroutines[id], s.(clock := now);
      if Recent(g.lastRefresh, now, c.minFetch) then Answered(Moved(s1, id, Leaving), Denied(g.kid, now, |s.refreshes|))
      else Moved(s1.(fetches := s.fetches + 1), id, Fetching(g.kid, s.fetches))
  }

  /** The response, parsed; None for every failure. Its time is read before the write lock. */
  function DoReceive(s: System, id: nat, document: Option<Keys>, now: Instant): System {
    if !At(s, id, now) || !s.goroutines[id].Fetching? then s
    else
      var g, s1 := s.goroutines[id], s.(clock := now);
      if document.None? then Moved(s1, id, Leaving)
      else Moved(s1, id, Stamped(g.kid, Refresh(g.fetch, now, document.value)))
  }

  function DoInstall(s: System, id: nat): System {
    if id !in s.goroutines || !s.goroutines[id].Stamped? then s
    else
      var Stamped(kid, r) := s.goroutines[id];
      Answered(Moved(s.(cache := Noted(Installed(s.cache, r), kid, r.at), refreshes := s.refreshes + [r]), id, Leaving),
               Outcome(r.keys, kid, r.fetch, |s.refreshes| + 1))
  }

  function DoRelease(s: System, id: nat): System {
    if id !in s.goroutines || !s.goroutines[id].Leaving? then s
    else s.(refreshMu := None, goroutines := s.goroutines - {id})
  }

  function Step(c: Config, s: System, a: Action): System {
    match a
    case Read(id, kid, now, later) => DoRead(c, s, id, kid, now, later)
    case Decide(id, now) => DoDecide(c, s, id, now)
    case Acquire(id) => DoAcquire(s, id)
    case Reread(id, now) => DoReread(c, s, id, now)
    case Fetch(id, now) => DoFetch(c, s, id, now)
    case Receive(id, document, now) => DoReceive(s, id, document, now)
    case Install(id) => DoInstall(s, id)
    case Release(id) => DoRelease(s, id)
  }

  function Run(c: Config, s: System, actions: seq<Action>): System {
    if actions == [] then s else Step(c, Run(c, s, actions[..|actions| - 1]), actions[|actions| - 1])
  }

  // ---- the invariant ----

  /** Some earlier refresh happened then. */
  ghost predicate Happened(rs: seq<Refresh>, last: Option<Instant>) {
    last.Some? ==> exists i :: 0 <= i < |rs| && rs[i].at == last.value
  }

  ghost predicate GoroutineFits(c: Config, g: Goroutine, last: Option<Instant>, rs: seq<Refresh>, clock: Instant, fetches: nat) {
    match g
    case Checked(_, _, seen) => Happened(rs, seen)
    case Rechecked(_, seen) => seen == last
    case Fetching(_, fetch) => Apart(last, clock, c.minFetch) && fetch < fetches
    case Stamped(_, r) => Apart(last, r.at, c.minFetch) && r.at <= clock && (rs != [] ==> rs[|rs| - 1].at <= r.at)
    case _ => true
  }

  /** A successful refresh lies less than the minimum interval back. */
  ghost predicate JustRefreshed(rs: seq<Refresh>, at: Instant, gap: int) {
    exists i :: 0 <= i < |rs| && 0 <= at - rs[i].at < gap
  }

  ghost predicate VerdictFits(c: Config, rs: seq<Refresh>, v: Verdict) {
    match v
    case Hit(_, _, _, _) => HitFits(rs, v, c.ttl)
    case Denied(_, at, _) => JustRefreshed(rs, at, c.minFetch)
    case Remembered(_, _, _, _) => false
    case _ => OutcomeFits(rs, v)
  }

  /** The lock is held by exactly the goroutine that is past it. */
  ghost predicate Exclusive(goroutines: map<nat, Goroutine>, refreshMu: Option<nat>) {
    && (forall id :: id in goroutines && Holding(goroutines[id]) ==> refreshMu == Some(id))
    && (refreshMu.Some? ==> refreshMu.value in goroutines && Holding(goroutines[refreshMu.value]))
  }

  ghost predicate GoroutinesFit(c: Config, s: System) {
    forall id :: id in s.goroutines ==>
      GoroutineFits(c, s.goroutines[id], s.cache.lastRefresh, s.refreshes, s.clock, s.fetches)
  }

  ghost predicate HistoryFits(c: Config, rs: seq<Refresh>, clock: Instant) {
    InOrder(rs) && Spaced(rs, 1, c.minFetch) && forall i :: 0 <= i < |rs| ==> rs[i].at <= clock
  }

  ghost predicate VerdictsFit(c: Config, rs: seq<Refresh>, verdicts: seq<Verdict>) {
    forall i :: 0 <= i < |verdicts| ==> VerdictFits(c, rs, verdicts[i])
  }

  ghost predicate Invariant(c: Config, s: System) {
    && Exclusive(s.goroutines, s.refreshMu) && Tied(s.cache, s.refreshes) && HistoryFits(c, s.refreshes, s.clock)
    && GoroutinesFit(c, s) && VerdictsFit(c, s.refreshes, s.verdicts)
  }

  /** A fresh cached key is one of the latest document. */
  lemma FreshHit(c: Config, s: System, kid: string, now: Instant)
    requires Invariant(c, s) && s.clock <= now && kid in s.cache.keys && IsFresh(s.cache, now, c.ttl)
    ensures VerdictFits(c, s.refreshes, Hit(kid, s.cache.keys[kid], now, |s.refreshes|))
  {
  }

  lemma ReadKeeps(c: Config, s: System, id: nat, kid: string, now: Instant, later: Instant)
    requires Invariant(c, s)
    ensures Invariant(c, DoRead(c, s, id, kid, now, later))
  {
    if id !in s.goroutines && s.clock <= now <= later && kid in s.cache.keys && IsFresh(s.cache, now, c.ttl) {
      FreshHit(c, s, kid, now);
    }
  }

  lemma AnsweredKeeps(c: Config, s: System, v: Verdict)
    requires Invariant(c, s) && VerdictFits(c, s.refreshes, v)
    ensures Invariant(c, Answered(s, v))
  {
  }

  lemma LeftKeeps(c: Config, s: System, id: nat, now: Instant)
    requires Invariant(c, s) && At(s, id, now) && s.goroutines[id].Checked?
    ensures Invariant(c, s.(clock := now, goroutines := s.goroutines - {id}))
    ensures Invariant(c, Moved(s.(clock := now, goroutines := s.goroutines - {id}), id, Queued(s.goroutines[id].kid)))
  {
  }

  lemma DecideKeeps(c: Config, s: System, id: nat, now: Instant)
    requires Invariant(c, s)
    ensures Invariant(c, DoDecide(c, s, id, now))
  {
    if At(s, id, now) && s.goroutines[id].Checked? {
      var g := s.goroutines[id];
      LeftKeeps(c, s, id, now);
      if Recent(g.lastRefresh, now, c.minFetch) {
        StillThrottled(c, s.refreshes, g.lastRefresh, g.kid, now, |s.refreshes|);
        AnsweredKeeps(c, s.(clock := now, goroutines := s.goroutines - {id}), Denied(g.kid, now, |s.refreshes|));
      }
    }
  }

  lemma StillThrottled(c: Config, rs: seq<Refresh>, last: Option<Instant>, kid: string, now: Instant, document: nat)
    requires Happened(rs, last) && Recent(last, now, c.minFetch) && forall i :: 0 <= i < |rs| ==> rs[i].at <= now
    ensures VerdictFits(c, rs, Denied(kid, now, document))
  {
  }

  lemma AcquireKeeps(c: Config, s: System, id: nat)
    requires Invariant(c, s)
    ensures Invariant(c, DoAcquire(s, id))
  {
  }

  lemma RereadKeeps(c: Config, s: System, id: nat, now: Instant)
    requires Invariant(c, s)
    ensures Invariant(c, DoReread(c, s, id, now))
  {
    if At(s, id, now) && s.goroutines[id].Locked? {
      var kid := s.goroutines[id].kid;
      if kid in s.cache.keys && IsFresh(s.cache, now, c.ttl) { FreshHit(c, s, kid, now); }
    }
  }

  lemma FetchKeeps(c: Config, s: System, id: nat, now: Instant)
    requires Invariant(c, s)
    ensures Invariant(c, DoFetch(c, s, id, now))
  {
  }

  lemma ReceiveKeeps(c: Config, s: System, id: nat, document: Option<Keys>, now: Instant)
    requires Invariant(c, s)
    ensures Invariant(c, DoReceive(s, id, document, now))
  {
  }

  lemma LaterVerdict(c: Config, rs: seq<Refresh>, r: Refresh, v: Verdict)
    requires VerdictFits(c, rs, v)
    ensures VerdictFits(c, rs + [r], v)
  {
    if v.Denied? {
      var i :| 0 <= i < |rs| && 0 <= v.at - rs[i].at < c.minFetch;
      assert (rs + [r])[i] == rs[i];
    }
  }

  lemma LaterHappened(rs: seq<Refresh>, r: Refresh, last: Option<Instant>)
    requires Happened(rs, last)
    ensures Happened(rs + [r], last)
  {
    if last.Some? {
      var i :| 0 <= i < |rs| && rs[i].at == last.value;
      assert (rs + [r])[i] == rs[i];
    }
  }

  lemma InstallKeepsVerdicts(c: Config, s: System, r: Refresh, kid: string)
    requires VerdictsFit(c, s.refreshes, s.verdicts)
    ensures VerdictsFit(c, s.refreshes + [r], s.verdicts + [Outcome(r.keys, kid, r.fetch, |s.refreshes| + 1)])
  {
    forall i | 0 <= i < |s.verdicts| ensures VerdictFits(c, s.refreshes + [r], s.verdicts[i]) {
      LaterVerdict(c, s.refreshes, r, s.verdicts[i]);
    }
  }

  lemma InstallKeepsRefreshes(c: Config, s: System, r: Refresh)
    requires Tied(s.cache, s.refreshes) && HistoryFits(c, s.refreshes, s.clock)
    requires Apart(s.cache.lastRefresh, r.at, c.minFetch) && r.at <= s.clock
    requires s.refreshes != [] ==> s.refreshes[|s.refreshes| - 1].at <= r.at
    ensures HistoryFits(c, s.refreshes + [r], s.clock)
  {
    SpacedExtends(s.refreshes, r, 1, c.minFetch);
  }

  lemma InstallKeeps(c: Config, s: System, id: nat)
    requires Invariant(c, s)
    ensures Invariant(c, DoInstall(s, id))
  {
    if id in s.goroutines && s.goroutines[id].Stamped? {
      var s', r := DoInstall(s, id), s.goroutines[id].refresh;
      assert GoroutineFits(c, s.goroutines[id], s.cache.lastRefresh, s.refreshes, s.clock, s.fetches);
      InstallKeepsRefreshes(c, s, r);
      InstallKeepsVerdicts(c, s, r, s.goroutines[id].kid);
      forall other | other in s'.goroutines
        ensures GoroutineFits(c, s'.goroutines[other], s'.cache.lastRefresh, s'.refreshes, s'.clock, s'.fetches)
      {
        if other != id && s.goroutines[other].Checked? {
          LaterHappened(s.refreshes, r, s.goroutines[other].lastRefresh);
        }
      }
    }
  }

  lemma ReleaseKeeps(c: Config, s: System, id: nat)
    requires Invariant(c, s)
    ensures Invariant(c, DoRelease(s, id))
  {
  }

  lemma {:induction false} RunKeepsInvariant(c: Config, clock: Instant, actions: seq<Action>)
    ensures Invariant(c, Run(c, Start(clock), actions))
  {
    if actions != [] {
      var s := Run(c, Start(clock), actions[..|actions| - 1]);
      RunKeepsInvariant(c, clock, actions[..|actions| - 1]);
      match actions[|actions| - 1]
      case Read(id, kid, now, later) => ReadKeeps(c, s, id, kid, now, later);
      case Decide(id, now) => DecideKeeps(c, s, id, now);
      case Acquire(id) => AcquireKeeps(c, s, id);
      case Reread(id, now) => RereadKeeps(c, s, id, now);
      case Fetch(id, now) => FetchKeeps(c, s, id, now);
      case Receive(id, document, now) => ReceiveKeeps(c, s, id, document, now);
      case Install(id) => InstallKeeps(c, s, id);
      case Release(id) => ReleaseKeeps(c, s, id);
    }
  }

  // ---- what it gives ----

  /** Never two fetches at once, for any number of goroutines and keys. */
  lemma {:induction false} OneFetchAtOnce(c: Config, clock: Instant, actions: seq<Action>, a: nat, b: nat)
    requires var s := Run(c, Start(clock), actions);
      a in s.goroutines && b in s.goroutines && s.goroutines[a].Fetching? && s.goroutines[b].Fetching?
    ensures a == b
  {
    RunKeepsInvariant(c, clock, actions);
  }

  /** Successful refreshes are pairwise at least the minimum interval apart. */
  lemma {:induction false} RefreshesApart(c: Config, clock: Instant, actions: seq<Action>, i: nat, j: nat)
    requires i <= j < |Run(c, Start(clock), actions).refreshes|
    ensures var rs := Run(c, Start(clock), actions).refreshes;
      rs[j].at - rs[i].at >= (j - i) * c.minFetch
  {
    RunKeepsInvariant(c, clock, actions);
    ApartInSteps(Run(c, Start(clock), actions).refreshes, c.minFetch, i, j);
  }

  /** A window of length W sees at most W / minFetch + 1 of them. */
  lemma {:induction false} RefreshesPerWindow(c: Config, clock: Instant, actions: seq<Action>, from: Instant, width: nat)
    requires c.minFetch > 0
    ensures Count(Run(c, Start(clock), actions).refreshes, from, width) <= width / c.minFetch + 1
  {
    RunKeepsInvariant(c, clock, actions);
    WindowBound(Run(c, Start(clock), actions).refreshes, 1, c.minFetch, from, width);
  }

  /** A key answered without a fetch comes from the document installed last, younger
      than the TTL at the decision; a refusal without a fetch happens only within the
      minimum interval after a successful refresh; and the outcome of a fetch is that
      of the document this very fetch brought. */
  lemma {:induction false} AnswersAreCurrent(c: Config, clock: Instant, actions: seq<Action>, i: nat)
    requires i < |Run(c, Start(clock), actions).verdicts|
    ensures var s := Run(c, Start(clock), actions);
      var v, rs := s.verdicts[i], s.refreshes;
      && (v.Hit? ==> Current(rs, v.document, v.at, c.ttl) && Holds(rs[v.document - 1], v.kid, v.key))
      && (v.Denied? ==> JustRefreshed(rs, v.at, c.minFetch))
      && (v.Found? || v.Absent? ==> OutcomeFits(rs, v))
  {
    RunKeepsInvariant(c, clock, actions);
  }

  // ---- what each step answers ----

  /** The first read answers exactly when the document in force has the key and is
      within its TTL, with that document's key; otherwise the call goes on with what
      it has read. */
  lemma {:induction false} ReadExactly(c: Config, clock: Instant, actions: seq<Action>, id: nat, kid: string, now: Instant, later: Instant)
    requires var s := Run(c, Start(clock), actions); id !in s.goroutines && s.clock <= now <= later
    ensures var s := Run(c, Start(clock), actions);
      var s', rs := Step(c, s, Read(id, kid, now, later)), s.refreshes;
      && s'.refreshes == rs && s'.cache == s.cache && s'.refreshMu == s.refreshMu && s'.clock == later
      && if Serves(rs, kid, now, c.ttl)
         then s'.verdicts == s.verdicts + [Hit(kid, rs[|rs| - 1].keys[kid], now, |rs|)] && s'.goroutines == s.goroutines
         else s'.verdicts == s.verdicts && s'.goroutines == s.goroutines[id := Checked(kid, NotedMiss(s.cache.unknown, kid, later, c.unknownTTL), s.cache.lastRefresh)]
  {
    RunKeepsInvariant(c, clock, actions);
  }

  /** The second read, under the lock, likewise. */
  lemma {:induction false} RereadExactly(c: Config, clock: Instant, actions: seq<Action>, id: nat, now: Instant)
    requires var s := Run(c, Start(clock), actions); At(s, id, now) && s.goroutines[id].Locked?
    ensures var s := Run(c, Start(clock), actions);
      var s', rs, kid := Step(c, s, Reread(id, now)), s.refreshes, s.goroutines[id].kid;
      && s'.refreshes == rs && s'.cache == s.cache && s'.refreshMu == s.refreshMu
      && if Serves(rs, kid, now, c.ttl)
         then s'.verdicts == s.verdicts + [Hit(kid, rs[|rs| - 1].keys[kid], now, |rs|)] && s'.goroutines == s.goroutines[id := Leaving]
         else s'.verdicts == s.verdicts && s'.goroutines == s.goroutines[id := Rechecked(kid, s.cache.lastRefresh)]
  {
    RunKeepsInvariant(c, clock, actions);
  }

  // ---- a call on its own ----

  /** What a call that meets no other is answered, and the refresh it makes, if any. */
  function Alone(c: Config, rs: seq<Refresh>, unknown: map<string, Instant>, fetch: nat, kid: string,
                 read: Instant, negative: Instant, decided: Instant, fetching: Instant, document: Option<Keys>, received: Instant)
    : (seq<Verdict>, seq<Refresh>)
  {
    if Serves(rs, kid, read, c.ttl) then ([Hit(kid, rs[|rs| - 1].keys[kid], read, |rs|)], [])
    else if NotedMiss(unknown, kid, negative, c.unknownTTL) && Throttled(rs, decided, c.minFetch) then ([Denied(kid, decided, |rs|)], [])
    else if !c.hasURL then ([], [])
    else if Throttled(rs, fetching, c.minFetch) then ([Denied(kid, fetching, |rs|)], [])
    else if document.None? then ([], [])
    else ([Outcome(document.value, kid, fetch, |rs| + 1)], [Refresh(fetch, received, document.value)])
  }

  lemma {:induction false} RunFront(c: Config, s: System, a: Action, rest: seq<Action>)
    ensures Run(c, s, [a] + rest) == Run(c, Step(c, s, a), rest)
  {
    if rest == [] {
      assert [a] + rest == [a] && [a][..0] == [];
    } else {
      var n := |rest| - 1;
      RunFront(c, s, a, rest[..n]);
      assert ([a] + rest)[..n + 1] == [a] + rest[..n];
    }
  }

  /** The steps of one call, in order: the read, then those from the decision on, then
      those under the lock. */
  function UnderLock(id: nat, reread: Instant, fetching: Instant, document: Option<Keys>, received: Instant): seq<Action> {
    [Reread(id, reread)] + ([Fetch(id, fetching)] + ([Receive(id, document, received)] + ([Install(id)] + ([Release(id)] + []))))
  }

  function WholeCall(id: nat, kid: string, read: Instant, negative: Instant, decided: Instant, reread: Instant,
                     fetching: Instant, document: Option<Keys>, received: Instant): seq<Action>
  {
    [Read(id, kid, read, negative)] + ([Decide(id, decided)] + ([Acquire(id)] + UnderLock(id, reread, fetching, document, received)))
  }

  /** The call has ended with these verdicts and refreshes, and holds nothing. */
  predicate Ended(s: System, s': System, answers: (seq<Verdict>, seq<Refresh>)) {
    && s'.goroutines == map[] && s'.refreshMu == None
    && s'.verdicts == s.verdicts + answers.0 && s'.refreshes == s.refreshes + answers.1
  }

  function AfterFetch(s: System, id: nat, document: Option<Keys>, received: Instant): System {
    DoRelease(DoInstall(DoReceive(s, id, document, received), id), id)
  }

  lemma {:induction false} UnderLockRuns(c: Config, s: System, id: nat, reread: Instant, fetching: Instant, document: Option<Keys>, received: Instant)
    ensures Run(c, s, UnderLock(id, reread, fetching, document, received)) ==
      AfterFetch(DoFetch(c, DoReread(c, s, id, reread), id, fetching), id, document, received)
  {
    var s1 := DoReread(c, s, id, reread);
    var s2 := DoFetch(c, s1, id, fetching);
    var s3 := DoReceive(s2, id, document, received);
    RunFront(c, s, Reread(id, reread), [Fetch(id, fetching)] + ([Receive(id, document, received)] + ([Install(id)] + ([Release(id)] + []))));
    RunFront(c, s1, Fetch(id, fetching), [Receive(id, document, received)] + ([Install(id)] + ([Release(id)] + [])));
    RunFront(c, s2, Receive(id, document, received), [Install(id)] + ([Release(id)] + []));
    RunFront(c, s3, Install(id), [Release(id)] + []);
    RunFront(c, DoInstall(s3, id), Release(id), []);
  }

  lemma {:induction false} WholeCallRuns(c: Config, s: System, id: nat, kid: string, read: Instant, negative: Instant, decided: Instant, reread: Instant,
                      fetching: Instant, document: Option<Keys>, received: Instant)
    ensures Run(c, s, WholeCall(id, kid, read, negative, decided, reread, fetching, document, received)) ==
      Run(c, DoAcquire(DoDecide(c, DoRead(c, s, id, kid, read, negative), id, decided), id), UnderLock(id, reread, fetching, document, received))
  {
    var s1 := DoRead(c, s, id, kid, read, negative);
    var s2 := DoDecide(c, s1, id, decided);
    var locked := UnderLock(id, reread, fetching, document, received);
    RunFront(c, s, Read(id, kid, read, negative), [Decide(id, decided)] + ([Acquire(id)] + locked));
    RunFront(c, s1, Decide(id, decided), [Acquire(id)] + locked);
    RunFront(c, s2, Acquire(id), locked);
  }

  lemma FetchedAlone(s: System, id: nat, kid: string, fetch: nat, document: Option<Keys>, received: Instant)
    requires s.goroutines == map[id := Fetching(kid, fetch)] && s.refreshMu == Some(id) && s.clock <= received
    ensures var s' := AfterFetch(s, id, document, received);
      if document.None? then Ended(s, s', ([], [])) && s'.cache == s.cache
      else && Ended(s, s', ([Outcome(document.value, kid, fetch, |s.refreshes| + 1)], [Refresh(fetch, received, document.value)]))
           && s'.cache.unknown == MissesAfter(s.cache.unknown, document.value, kid, received)
  {
  }

  lemma {:induction false} LockedAlone(c: Config, s: System, id: nat, kid: string, reread: Instant, fetching: Instant, document: Option<Keys>, received: Instant)
    requires Tied(s.cache, s.refreshes) && s.goroutines == map[id := Locked(kid)] && s.refreshMu == Some(id)
    requires s.clock <= reread <= fetching <= received && !Serves(s.refreshes, kid, reread, c.ttl)
    ensures var s' := Run(c, s, UnderLock(id, reread, fetching, document, received));
      if Throttled(s.refreshes, fetching, c.minFetch) then Ended(s, s', ([Denied(kid, fetching, |s.refreshes|)], [])) && s'.cache == s.cache
      else if document.None? then Ended(s, s', ([], [])) && s'.cache == s.cache
      else && Ended(s, s', ([Outcome(document.value, kid, s.fetches, |s.refreshes| + 1)], [Refresh(s.fetches, received, document.value)]))
           && s'.cache.unknown == MissesAfter(s.cache.unknown, document.value, kid, received)
  {
    UnderLockRuns(c, s, id, reread, fetching, document, received);
    var s1 := DoReread(c, s, id, reread);
    assert s1 == s.(clock := reread, goroutines := map[id := Rechecked(kid, s.cache.lastRefresh)]);
    var s2 := DoFetch(c, s1, id, fetching);
    if !Throttled(s.refreshes, fetching, c.minFetch) {
      FetchedAlone(s2, id, kid, s.fetches, document, received);
    }
  }

  /** A call that is answered, or refused for want of a URL, never reaches the lock. */
  lemma DecidedAlone(c: Config, s: System, id: nat, kid: string, read: Instant, negative: Instant, decided: Instant)
    requires Tied(s.cache, s.refreshes) && s.goroutines == map[] && s.refreshMu == None && s.clock <= read <= negative <= decided
    ensures var s', rs := DoAcquire(DoDecide(c, DoRead(c, s, id, kid, read, negative), id, decided), id), s.refreshes;
      if Serves(rs, kid, read, c.ttl) then Ended(s, s', ([Hit(kid, rs[|rs| - 1].keys[kid], read, |rs|)], []))
      else if NotedMiss(s.cache.unknown, kid, negative, c.unknownTTL) && Throttled(rs, decided, c.minFetch)
      then Ended(s, s', ([Denied(kid, decided, |rs|)], []))
      else if !c.hasURL then Ended(s, s', ([], []))
      else s' == s.(goroutines := map[id := Locked(kid)], refreshMu := Some(id), clock := decided)
  {
  }

  lemma {:induction false} NothingMore(c: Config, s: System, id: nat, reread: Instant, fetching: Instant, document: Option<Keys>, received: Instant)
    requires id !in s.goroutines
    ensures Run(c, s, UnderLock(id, reread, fetching, document, received)) == s
  {
    UnderLockRuns(c, s, id, reread, fetching, document, received);
  }

  lemma {:induction false} CallAloneFrom(c: Config, s: System, id: nat, kid: string, read: Instant, negative: Instant,
                      decided: Instant, reread: Instant, fetching: Instant, document: Option<Keys>, received: Instant)
    requires Tied(s.cache, s.refreshes) && s.goroutines == map[] && s.refreshMu == None && s.clock <= read
    requires read <= negative <= decided <= reread <= fetching <= received
    ensures
      Ended(s, Run(c, s, WholeCall(id, kid, read, negative, decided, reread, fetching, document, received)),
            Alone(c, s.refreshes, s.cache.unknown, s.fetches, kid, read, negative, decided, fetching, document, received))
  {
    WholeCallRuns(c, s, id, kid, read, negative, decided, reread, fetching, document, received);
    DecidedAlone(c, s, id, kid, read, negative, decided);
    var s' := DoAcquire(DoDecide(c, DoRead(c, s, id, kid, read, negative), id, decided), id);
    if id in s'.goroutines {
      LockedAlone(c, s', id, kid, reread, fetching, document, received);
    } else {
      NothingMore(c, s', id, reread, fetching, document, received);
    }
  }

  /** In every reachable state with no other call about, a call is answered as the
      sequential reading of the cache says, makes that refresh, and leaves no lock held. */
  lemma {:induction false} CallAlone(c: Config, clock: Instant, actions: seq<Action>, id: nat, kid: string, read: Instant, negative: Instant,
                                     decided: Instant, reread: Instant, fetching: Instant, document: Option<Keys>, received: Instant)
    requires var s := Run(c, Start(clock), actions); s.goroutines == map[] && s.clock <= read
    requires read <= negative <= decided <= reread <= fetching <= received
    ensures var s := Run(c, Start(clock), actions);
      Ended(s, Run(c, s, WholeCall(id, kid, read, negative, decided, reread, fetching, document, received)),
            Alone(c, s.refreshes, s.cache.unknown, s.fetches, kid, read, negative, decided, fetching, document, received))
  {
    RunKeepsInvariant(c, clock, actions);
    CallAloneFrom(c, Run(c, Start(clock), actions), id, kid, read, negative, decided, reread, fetching, document, received);
  }

  // ---- reading the document ----

  /** One entry of the document; `modulus` and `exponent` are None when they do not decode. */
  datatype JWK = JWK(kty: string, use: string, alg: string, kid: string, modulus: Option<seq<Byte>>, exponent: Option<seq<Byte>>)

  type Byte = n: nat | n < 256

  function BigEndian(bytes: seq<Byte>): nat {
    if bytes == [] then 0 else BigEndian(bytes[..|bytes| - 1]) * 256 + bytes[|bytes| - 1]
  }

  const TWO_TO_THE_63 := 0x8000_0000_0000_0000
  const TWO_TO_THE_64 := 0x1_0000_0000_0000_0000

  /** What a 64-bit `int` keeps of a number. */
  function Wrapped(n: int): int {
    (n + TWO_TO_THE_63) % TWO_TO_THE_64 - TWO_TO_THE_63
  }

  function PublicExponent(bytes: seq<Byte>): int {
    Wrapped(BigEndian(bytes))
  }

  predicate Usable(k: JWK, algorithm: string) {
    && k.kty == "RSA" && (k.use == "" || k.use == "sig") && (k.alg == "" || k.alg == algorithm) && k.kid != ""
    && k.modulus.Some? && k.modulus.value != [] && k.exponent.Some? && PublicExponent(k.exponent.value) != 0
  }

  function KeyOf(k: JWK, algorithm: string): (seq<Byte>, int)
    requires Usable(k, algorithm)
  {
    (k.modulus.value, PublicExponent(k.exponent.value))
  }

  function Document(raw: seq<JWK>, algorithm: string): map<string, (seq<Byte>, int)> {
    if raw == [] then map[]
    else
      var before, k := Document(raw[..|raw| - 1], algorithm), raw[|raw| - 1];
      if Usable(k, algorithm) then before[k.kid := KeyOf(k, algorithm)] else before
  }

  /** Entry `i` is the last usable one for its kid. */
  ghost predicate LastUsable(raw: seq<JWK>, i: nat, algorithm: string)
    requires i < |raw|
  {
    Usable(raw[i], algorithm) && forall j :: i < j < |raw| && Usable(raw[j], algorithm) ==> raw[j].kid != raw[i].kid
  }

  lemma {:induction false} HeldByUsable(raw: seq<JWK>, algorithm: string, kid: string) returns (i: nat)
    requires kid in Document(raw, algorithm)
    ensures i < |raw| && LastUsable(raw, i, algorithm) && raw[i].kid == kid
  {
    var n := |raw| - 1;
    if Usable(raw[n], algorithm) && raw[n].kid == kid {
      i := n;
    } else {
      i := HeldByUsable(raw[..n], algorithm, kid);
      assert forall j :: 0 <= j < n ==> raw[..n][j] == raw[j];
    }
  }

  lemma {:induction false} UsableIsHeld(raw: seq<JWK>, algorithm: string, i: nat)
    requires i < |raw| && LastUsable(raw, i, algorithm)
    ensures raw[i].kid in Document(raw, algorithm) && Document(raw, algorithm)[raw[i].kid] == KeyOf(raw[i], algorithm)
  {
    var n := |raw| - 1;
    if i < n {
      assert forall j :: 0 <= j < n ==> raw[..n][j] == raw[j];
      UsableIsHeld(raw[..n], algorithm, i);
    }
  }

  /** The document maps a kid to a key exactly when the last usable entry with that
      kid spells that key. */
  lemma {:induction false} LastUsableWins(raw: seq<JWK>, algorithm: string, kid: string, key: (seq<Byte>, int))
    ensures kid in Document(raw, algorithm) && Document(raw, algorithm)[kid] == key <==>
      exists i :: 0 <= i < |raw| && LastUsable(raw, i, algorithm) && raw[i].kid == kid && KeyOf(raw[i], algorithm) == key
  {
    if kid in Document(raw, algorithm) {
      var i := HeldByUsable(raw, algorithm, kid);
      UsableIsHeld(raw, algorithm, i);
    }
    forall i | 0 <= i < |raw| && LastUsable(raw, i, algorithm) && raw[i].kid == kid
      ensures kid in Document(raw, algorithm) && Document(raw, algorithm)[kid] == KeyOf(raw[i], algorithm)
    {
      UsableIsHeld(raw, algorithm, i);
    }
  }

  lemma WrapsOnce(n: int, b: int)
    ensures Wrapped(Wrapped(Wrapped(n) * 256) + b) == Wrapped(n * 256 + b)
  {
  }

  method Exponent(bytes: seq<Byte>) returns (e: int)
    ensures e == PublicExponent(bytes)
  {
    e := 0;
    for b := 0 to |bytes|
      invariant e == PublicExponent(bytes[..b])
    {
      assert bytes[..b + 1][..b] == bytes[..b];
      WrapsOnce(BigEndian(bytes[..b]), bytes[b]);
      e := Wrapped(Wrapped(e * 256) + bytes[b]);
    }
    assert bytes[..|bytes|] == bytes;
  }

  /** The last `k` base-256 digits are zero. */
  predicate Divisible(n: nat, k: nat) {
    k == 0 || (n % 256 == 0 && Divisible(n / 256, k - 1))
  }

  predicate EndsInZeros(bytes: seq<Byte>, k: nat) {
    forall i :: 0 <= i < |bytes| && |bytes| - k <= i ==> bytes[i] == 0
  }

  lemma {:induction false} DivisibleExactly(bytes: seq<Byte>, k: nat)
    ensures Divisible(BigEndian(bytes), k) <==> EndsInZeros(bytes, k)
    decreases k
  {
    if k > 0 {
      if bytes == [] {
        DivisibleExactly(bytes, k - 1);
      } else {
        var n := |bytes| - 1;
        DivisibleExactly(bytes[..n], k - 1);
        assert BigEndian(bytes) / 256 == BigEndian(bytes[..n]);
        assert EndsInZeros(bytes, k) <==> bytes[n] == 0 && EndsInZeros(bytes[..n], k - 1);
      }
    }
  }

  lemma Multiple(d: int, q: int, x: int)
    requires d > 0 && x == d * q
    ensures x % d == 0
  {
    var r := q - x / d;
    assert d * r == x % d;
    assert r >= 1 ==> d * r >= d;
    assert r <= -1 ==> d * r + d <= 0;
  }

  lemma DropDigit(n: nat, m: nat, p: nat)
    requires m > 0 && p == 256 * m
    ensures n % p == 0 <==> n % 256 == 0 && (n / 256) % m == 0
  {
    if n % p == 0 {
      var q := n / p;
      assert p * q == 256 * (m * q);
      Multiple(m, q, n / 256);
    }
    if n % 256 == 0 && (n / 256) % m == 0 {
      var q := n / 256 / m;
      assert p * q == 256 * (m * q);
      Multiple(p, q, n);
    }
  }

  function Power256(k: nat): (p: nat)
    ensures p > 0
  {
    if k == 0 then 1 else 256 * Power256(k - 1)
  }

  lemma {:induction false} DivisibleByPower(n: nat, k: nat)
    ensures Divisible(n, k) <==> n % Power256(k) == 0
    decreases k
  {
    if k > 0 {
      DropDigit(n, Power256(k - 1), Power256(k));
      DivisibleByPower(n / 256, k - 1);
    }
  }

  lemma EightDigits()
    ensures Power256(8) == TWO_TO_THE_64
  {
    assert Power256(4) == 0x1_0000_0000;
  }

  /** The exponent is the number its bytes spell exactly below 2^63, and an entry is
      skipped for a zero exponent exactly when its last eight bytes are zero, so also
      for some exponents that are not. */
  lemma {:induction false} ExponentExactly(bytes: seq<Byte>)
    ensures PublicExponent(bytes) == BigEndian(bytes) <==> BigEndian(bytes) < TWO_TO_THE_63
    ensures PublicExponent(bytes) == 0 <==> EndsInZeros(bytes, 8)
  {
    DivisibleExactly(bytes, 8);
    DivisibleByPower(BigEndian(bytes), 8);
    EightDigits();
  }

  /** An RSA signing key for the algorithm, as far as the entry says, with a modulus and
      an exponent that does not end in eight zero bytes. */
  predicate Qualifies(k: JWK, algorithm: string) {
    && k.kty == "RSA" && k.use in ["", "sig"] && k.alg in ["", algorithm]
    && k.modulus.Some? && |k.modulus.value| > 0 && k.exponent.Some? && !EndsInZeros(k.exponent.value, 8)
  }

  lemma UsableExactly(k: JWK, algorithm: string)
    ensures Usable(k, algorithm) <==> k.kid != "" && Qualifies(k, algorithm)
  {
    if k.exponent.Some? { ExponentExactly(k.exponent.value); }
  }

  lemma {:induction false} DocumentKids(raw: seq<JWK>, algorithm: string, kid: string)
    ensures kid in Document(raw, algorithm) <==> kid != "" && exists i :: 0 <= i < |raw| && raw[i].kid == kid && Qualifies(raw[i], algorithm)
  {
    if kid in Document(raw, algorithm) {
      var i := HeldByUsable(raw, algorithm, kid);
      UsableExactly(raw[i], algorithm);
    }
    if i :| 0 <= i < |raw| && raw[i].kid == kid != "" && Qualifies(raw[i], algorithm) {
      UsableExactly(raw[i], algorithm);
      var last := LastOf(raw, algorithm, i);
      UsableIsHeld(raw, algorithm, last);
    }
  }

  /** Among the usable entries with one kid there is a last. */
  lemma {:induction false} LastOf(raw: seq<JWK>, algorithm: string, i: nat) returns (j: nat)
    requires i < |raw| && Usable(raw[i], algorithm)
    ensures j < |raw| && raw[j].kid == raw[i].kid && LastUsable(raw, j, algorithm)
    decreases |raw| - i
  {
    if k :| i < k < |raw| && Usable(raw[k], algorithm) && raw[k].kid == raw[i].kid {
      j := LastOf(raw, algorithm, k);
    } else {
      j := i;
    }
  }

  method ReadDocument(raw: seq<JWK>, algorithm: string) returns (keys: map<string, (seq<Byte>, int)>)
    ensures keys == Document(raw, algorithm)
    ensures forall kid :: kid in keys <==> kid != "" && exists i :: 0 <= i < |raw| && raw[i].kid == kid && Qualifies(raw[i], algorithm)
  {
    keys := map[];
    for n := 0 to |raw|
      invariant keys == Document(raw[..n], algorithm)
    {
      assert raw[..n + 1][..n] == raw[..n];
      var jwk := raw[n];
      if jwk.kty != "RSA" || (jwk.use != "" && jwk.use != "sig") || (jwk.alg != "" && jwk.alg != algorithm) {
        continue;
      }
      if jwk.modulus.None? || jwk.exponent.None? || jwk.modulus.value == [] || jwk.exponent.value == [] || jwk.kid == "" {
        continue;
      }
      var e := Exponent(jwk.exponent.value);
      if e == 0 {
        continue;
      }
      keys := keys[jwk.kid := (jwk.modulus.value, e)];
    }
    assert raw[..|raw|] == raw;
    forall kid
      ensures kid in keys <==> kid != "" && exists i :: 0 <= i < |raw| && raw[i].kid == kid && Qualifies(raw[i], algorithm)
    {
      DocumentKids(raw, algorithm, kid);
    }
  }
}
