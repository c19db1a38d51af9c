/** Reusing and refreshing the upstream token set of a subject: one exchange on its
    own, and any number of exchanges and logins interleaved at their store calls. */
module UpstreamSessions {
  import opened Records
  import opened MemoryStores

  const SECOND := 1_000_000_000
  const DEFAULT_LIFETIME := 300 * SECOND

  /** The provider's answer to a refresh; `scope` is None for an empty scope text. */
  datatype TokenAnswer =
    | Refused
    | Token(accessToken: string, refreshToken: string, tokenType: string, expiresIn: int, scope: Option<seq<string>>)

  predicate Accepted(answer: TokenAnswer) {
    answer.Token? && answer.accessToken != ""
  }

  function Lifetime(expiresIn: int): int {
    if expiresIn * SECOND <= 0 then DEFAULT_LIFETIME else expiresIn * SECOND
  }

  function Refreshed(session: UpstreamSession, answer: TokenAnswer, now: Instant): UpstreamSession
    requires Accepted(answer)
  {
    UpstreamSession(
      answer.accessToken,
      if answer.refreshToken == "" then session.refreshToken else answer.refreshToken,
      if answer.tokenType == "" then "Bearer" else answer.tokenType,
      now + Lifetime(answer.expiresIn),
      if answer.scope.None? then session.scope else answer.scope.value)
  }

  /** What the provider issued or left out decides the new session, field by field. */
  predicate RefreshedFrom(r: UpstreamSession, session: UpstreamSession, answer: TokenAnswer, received: Instant)
    requires answer.Token?
  {
    && r.accessToken == answer.accessToken != ""
    && (answer.refreshToken != "" ==> r.refreshToken == answer.refreshToken)
    && (answer.refreshToken == "" ==> r.refreshToken == session.refreshToken)
    && (answer.tokenType != "" ==> r.tokenType == answer.tokenType)
    && (answer.tokenType == "" ==> r.tokenType == "Bearer")
    && (answer.expiresIn > 0 ==> r.expiresAt == received + answer.expiresIn * 1_000_000_000)
    && (answer.expiresIn <= 0 ==> r.expiresAt == received + 300_000_000_000)
    && (answer.scope.Some? ==> r.scope == answer.scope.value)
    && (answer.scope.None? ==> r.scope == session.scope)
  }

  /** A refresh never loses the refresh token and always yields a session still alive. */
  lemma RefreshedIsUsable(session: UpstreamSession, answer: TokenAnswer, now: Instant)
    requires Accepted(answer)
    ensures var r := Refreshed(session, answer, now);
      && RefreshedFrom(r, session, answer, now) && now < r.expiresAt
      && (session.refreshToken != "" ==> r.refreshToken != "")
  {
  }

  /** One exchange, alone. It answers exactly when the session is still alive at
      `checked` or can be refreshed; then what it answers is what is stored. */
  method Exchange(store: MemoryStore, subject: string, checked: Instant, answer: TokenAnswer, received: Instant)
    returns (r: Option<UpstreamSession>)
    modifies store`upstreamSessions
    ensures
      var before := old(store.upstreamSessions);
      r.Some? <==> (subject != "" && subject in before
        && (checked < before[subject].expiresAt || (before[subject].refreshToken != "" && Accepted(answer))))
    ensures r.None? ==> store.upstreamSessions == old(store.upstreamSessions)
    ensures r.Some? ==> store.upstreamSessions == old(store.upstreamSessions)[subject := r.value]
    ensures r.Some? ==>
      var session := old(store.upstreamSessions)[subject];
      if checked < session.expiresAt then r.value == session
      else RefreshedFrom(r.value, session, answer, received) && received < r.value.expiresAt && r.value.refreshToken != ""
  {
    if subject == "" {
      return None;
    }
    var found := store.GetUpstreamSession(subject);
    if found.Err? {
      return None;
    }
    var session := found.value;
    if checked < session.expiresAt {
      assert store.upstreamSessions[subject := session] == store.upstreamSessions;
      return Some(session);
    }
    if session.refreshToken == "" || !Accepted(answer) {
      return None;
    }
    var refreshed := Refreshed(session, answer, received);
    RefreshedIsUsable(session, answer, received);
    store.SaveUpstreamSession(subject, refreshed);
    return Some(refreshed);
  }

  // ---- interleaved exchanges ----

  datatype Flight =
    | Refreshing(subject: string, read: UpstreamSession)
    | Saving(subject: string, session: UpstreamSession, at: Instant)

  /** A successful answer, and when its session was checked or refreshed. */
  datatype Reply = Reply(subject: string, session: UpstreamSession, at: Instant)

  /** What the provider issued to a subject. */
  datatype Issue =
    | AtLogin(subject: string, session: UpstreamSession)
    | AtRefresh(subject: string, read: UpstreamSession, answer: TokenAnswer, at: Instant)

  datatype System = System(
    sessions: map<string, UpstreamSession>,
    flights: map<nat, Flight>,
    replies: seq<Reply>,            // history
    granted: set<Issue>,            // history
    latest: map<string, string>)    // history: the refresh token last issued for a subject, none issued counting as "" at a login

  const Start := System(map[], map[], [], {}, map[])

  datatype Action =
    | Login(subject: string, session: UpstreamSession)
    | Begin(id: nat, subject: string, now: Instant)
    | Answer(id: nat, answer: TokenAnswer, now: Instant)
    | Save(id: nat, stored: bool)
    | Drop(id: nat)

  function DoLogin(s: System, subject: string, session: UpstreamSession): System {
    s.(sessions := s.sessions[subject := session], granted := s.granted + {AtLogin(subject, session)},
       latest := s.latest[subject := session.refreshToken])
  }

  function DoBegin(s: System, id: nat, subject: string, now: Instant): System {
    if id in s.flights || subject == "" || subject !in s.sessions then s
    else
      var session := s.sessions[subject];
      if now < session.expiresAt then s.(replies := s.replies + [Reply(subject, session, now)])
      else if session.refreshToken == "" then s
      else s.(flights := s.flights[id := Refreshing(subject, session)])
  }

  function DoAnswer(s: System, id: nat, answer: TokenAnswer, now: Instant): System {
    if id !in s.flights || !s.flights[id].Refreshing? then s
    else if !Accepted(answer) then s.(flights := s.flights - {id})
    else
      var subject, refreshed := s.flights[id].subject, Refreshed(s.flights[id].read, answer, now);
      s.(flights := s.flights[id := Saving(subject, refreshed, now)],
         granted := s.granted + {AtRefresh(subject, s.flights[id].read, answer, now)},
         latest := if answer.refreshToken == "" then s.latest else s.latest[subject := answer.refreshToken])
  }

  function DoSave(s: System, id: nat, stored: bool): System {
    if id !in s.flights || !s.flights[id].Saving? then s
    else if !stored then s.(flights := s.flights - {id})
    else
      var Saving(subject, session, at) := s.flights[id];
      s.(sessions := s.sessions[subject := session], flights := s.flights - {id}, replies := s.replies + [Reply(subject, session, at)])
  }

  function Step(s: System, a: Action): System {
    match a
    case Login(subject, session) => DoLogin(s, subject, session)
    case Begin(id, subject, now) => DoBegin(s, id, subject, now)
    case Answer(id, answer, now) => DoAnswer(s, id, answer, now)
    case Save(id, stored) => DoSave(s, id, stored)
    case Drop(id) => s.(flights := s.flights - {id})
  }

  function Run(s: System, actions: seq<Action>): System {
    if actions == [] then s else Step(Run(s, actions[..|actions| - 1]), actions[|actions| - 1])
  }

  /** The session is this issue's: the one of the login, or what the provider's answer
      makes of the session that was read. */
  predicate IssuedAs(i: Issue, subject: string, session: UpstreamSession) {
    i.subject == subject &&
    match i
    case AtLogin(_, issued) => session == issued
    case AtRefresh(_, read, answer, at) => answer.Token? && RefreshedFrom(session, read, answer, at)
  }

  ghost predicate Held(granted: set<Issue>, subject: string, session: UpstreamSession) {
    exists i :: i in granted && IssuedAs(i, subject, session)
  }

  /** Whatever was refreshed had itself been issued to the same subject. */
  ghost predicate Chained(granted: set<Issue>) {
    forall i :: i in granted && i.AtRefresh? ==> Held(granted, i.subject, i.read)
  }

  ghost predicate FlightFits(f: Flight, granted: set<Issue>) {
    if f.Refreshing? then f.read.refreshToken != "" && Held(granted, f.subject, f.read)
    else f.session.refreshToken != "" && f.at < f.session.expiresAt && Held(granted, f.subject, f.session)
  }

  ghost predicate ReplyFits(r: Reply, granted: set<Issue>) {
    r.at < r.session.expiresAt && Held(granted, r.subject, r.session)
  }

  ghost predicate Invariant(s: System) {
    && (forall id :: id in s.flights ==> FlightFits(s.flights[id], s.granted))
    && (forall subject :: subject in s.sessions ==> Held(s.granted, subject, s.sessions[subject]))
    && (forall i :: 0 <= i < |s.replies| ==> ReplyFits(s.replies[i], s.granted))
    && Chained(s.granted)
  }

  lemma StillHeld(granted: set<Issue>, more: set<Issue>, subject: string, session: UpstreamSession)
    requires Held(granted, subject, session) && granted <= more
    ensures Held(more, subject, session)
  {
  }

  /** A new issue to someone who held what was refreshed. */
  lemma IssueKeepsInvariant(s: System, s': System, i: Issue)
    requires Invariant(s) && s'.granted == s.granted + {i} && s'.replies == s.replies
    requires i.AtRefresh? ==> Held(s.granted, i.subject, i.read)
    requires forall id :: id in s'.flights ==> (id in s.flights && s'.flights[id] == s.flights[id]) || FlightFits(s'.flights[id], s'.granted)
    requires forall subject :: subject in s'.sessions ==>
      (subject in s.sessions && s'.sessions[subject] == s.sessions[subject]) || Held(s'.granted, subject, s'.sessions[subject])
    ensures Invariant(s')
  {
  }

  lemma StepKeepsInvariant(s: System, a: Action)
    requires Invariant(s)
    ensures Invariant(Step(s, a))
  {
    match a
    case Answer(id, answer, now) =>
      if id in s.flights && s.flights[id].Refreshing? && Accepted(answer) {
        var i := AtRefresh(s.flights[id].subject, s.flights[id].read, answer, now);
        RefreshedIsUsable(s.flights[id].read, answer, now);
        assert i in Step(s, a).granted && IssuedAs(i, i.subject, Refreshed(i.read, answer, now));
        IssueKeepsInvariant(s, Step(s, a), i);
      }
    case Login(subject, session) =>
      assert AtLogin(subject, session) in Step(s, a).granted && IssuedAs(AtLogin(subject, session), subject, session);
      IssueKeepsInvariant(s, Step(s, a), AtLogin(subject, session));
    case _ =>
  }

  lemma {:induction false} RunKeepsInvariant(s: System, actions: seq<Action>)
    requires Invariant(s)
    ensures Invariant(Run(s, actions))
  {
    if actions != [] {
      RunKeepsInvariant(s, actions[..|actions| - 1]);
      StepKeepsInvariant(Run(s, actions[..|actions| - 1]), actions[|actions| - 1]);
    }
  }

  /** Every successful answer of every run carries a session that was alive when it
      was checked or refreshed, and is, field by field, what the provider issued to the
      subject who asked: at a login, or by an answer to a session issued so before. */
  lemma {:induction false} RepliesAreLive(actions: seq<Action>, i: nat)
    requires i < |Run(Start, actions).replies|
    ensures var s := Run(Start, actions);
      var r := s.replies[i];
      r.at < r.session.expiresAt && Held(s.granted, r.subject, r.session) && Chained(s.granted)
  {
    RunKeepsInvariant(Start, actions);
  }

  lemma {:induction false} RunExtends(s: System, actions: seq<Action>, a: Action)
    ensures Run(s, actions + [a]) == Step(Run(s, actions), a)
  {
    assert (actions + [a])[..|actions|] == actions;
  }

  /** One exchange's own steps. */
  function WholeExchange(id: nat, subject: string, checked: Instant, answer: TokenAnswer, received: Instant, stored: bool): seq<Action> {
    (([] + [Begin(id, subject, checked)]) + [Answer(id, answer, received)]) + [Save(id, stored)]
  }

  lemma {:induction false} WholeExchangeRuns(s: System, id: nat, subject: string, checked: Instant, answer: TokenAnswer, received: Instant, stored: bool)
    ensures Run(s, WholeExchange(id, subject, checked, answer, received, stored)) ==
      DoSave(DoAnswer(DoBegin(s, id, subject, checked), id, answer, received), id, stored)
  {
    var a1 := [] + [Begin(id, subject, checked)];
    RunExtends(s, [], Begin(id, subject, checked));
    RunExtends(s, a1, Answer(id, answer, received));
    RunExtends(s, a1 + [Answer(id, answer, received)], Save(id, stored));
  }

  /** Nothing is answered or stored, and no exchange is left behind. */
  predicate Failed(s: System, s': System) {
    s'.sessions == s.sessions && s'.replies == s.replies && s'.flights == s.flights
  }

  /** The steps of an exchange that meets no other answer what the exchange on its own
      answers: the stored session while it is alive, else, field by field, what the
      provider makes of it, once that is stored. */
  lemma {:induction false} ExchangeAlone(s: System, id: nat, subject: string, checked: Instant, answer: TokenAnswer, received: Instant, stored: bool)
    requires id !in s.flights
    ensures var s' := Run(s, WholeExchange(id, subject, checked, answer, received, stored));
      if subject == "" || subject !in s.sessions then Failed(s, s')
      else
        var session := s.sessions[subject];
        if checked < session.expiresAt then s' == s.(replies := s.replies + [Reply(subject, session, checked)])
        else if session.refreshToken == "" || answer.Refused? || answer.accessToken == "" || !stored then Failed(s, s')
        else
          && subject in s'.sessions && RefreshedFrom(s'.sessions[subject], session, answer, received)
          && s'.sessions == s.sessions[subject := s'.sessions[subject]] && s'.flights == s.flights
          && s'.replies == s.replies + [Reply(subject, s'.sessions[subject], received)]
  {
    WholeExchangeRuns(s, id, subject, checked, answer, received, stored);
    if subject in s.sessions && Accepted(answer) {
      RefreshedIsUsable(s.sessions[subject], answer, received);
    }
  }

  ghost predicate Refreshable(s: System, subject: string) {
    subject in s.sessions && s.sessions[subject].refreshToken != ""
  }

  lemma StepStaysRefreshable(s: System, subject: string, a: Action)
    requires Invariant(s) && Refreshable(s, subject) && !(a.Login? && a.subject == subject)
    ensures Refreshable(Step(s, a), subject)
  {
  }

  lemma {:induction false} StaysRefreshable(s: System, subject: string, actions: seq<Action>)
    requires Invariant(s) && Refreshable(s, subject)
    requires forall i :: 0 <= i < |actions| ==> !(actions[i].Login? && actions[i].subject == subject)
    ensures Refreshable(Run(s, actions), subject)
  {
    if actions != [] {
      var n := |actions| - 1;
      StaysRefreshable(s, subject, actions[..n]);
      RunKeepsInvariant(s, actions[..n]);
      StepStaysRefreshable(Run(s, actions[..n]), subject, actions[n]);
    }
  }

  /** Once the stored session has a refresh token, every later one does until the
      subject logs in anew, whatever exchanges were in flight or start meanwhile. */
  lemma {:induction false} RefreshTokenRetained(before: seq<Action>, subject: string, after: seq<Action>)
    requires Refreshable(Run(Start, before), subject)
    requires forall i :: 0 <= i < |after| ==> !(after[i].Login? && after[i].subject == subject)
    ensures Refreshable(Run(Run(Start, before), after), subject)
  {
    RunKeepsInvariant(Start, before);
    StaysRefreshable(Run(Start, before), subject, after);
  }

  // ---- the newest refresh token ----

  predicate Idle(flights: map<nat, Flight>, subject: string) {
    forall id :: id in flights ==> flights[id].subject != subject
  }

  predicate InFlight(s: System, subject: string, id: nat) {
    id in s.flights && s.flights[id].subject == subject
  }

  /** The stored session has the refresh token issued last. */
  predicate NewestStored(s: System, subject: string) {
    subject in s.sessions && subject in s.latest && s.sessions[subject].refreshToken == s.latest[subject]
  }

  /** The refresh token a flight will store unless the provider issues another. */
  function TokenOf(f: Flight): string {
    if f.Refreshing? then f.read.refreshToken else f.session.refreshToken
  }

  /** Nothing in flight and the newest token stored; or one exchange still waiting for
      the provider, with the newest token read and stored; or any number of answered
      exchanges, all about to store the newest token. */
  ghost predicate Settled(s: System, subject: string) {
    && (Idle(s.flights, subject) ==> NewestStored(s, subject))
    && (forall id :: InFlight(s, subject, id) ==> subject in s.latest && TokenOf(s.flights[id]) == s.latest[subject])
    && (forall id, other :: InFlight(s, subject, id) && s.flights[id].Refreshing? && InFlight(s, subject, other) ==> other == id)
    && (forall id :: InFlight(s, subject, id) && s.flights[id].Refreshing? ==> NewestStored(s, subject))
  }

  /** The step starts nothing new for the subject and loses no answered exchange of it. */
  predicate Finishing(s: System, subject: string, a: Action) {
    match a
    case Login(who, _) => who != subject
    case Begin(_, who, _) => who != subject
    case Answer(_, _, _) => true
    case Save(id, stored) => InFlight(s, subject, id) ==> stored
    case Drop(id) => InFlight(s, subject, id) ==> s.flights[id].Refreshing?
  }

  predicate FinishingRun(s: System, subject: string, actions: seq<Action>) {
    actions == [] ||
    (FinishingRun(s, subject, actions[..|actions| - 1]) && Finishing(Run(s, actions[..|actions| - 1]), subject, actions[|actions| - 1]))
  }

  /** The subject's own flights and session decide. */
  lemma SameSubject(s: System, s': System, subject: string)
    requires Settled(s, subject)
    requires forall id :: InFlight(s', subject, id) <==> InFlight(s, subject, id)
    requires forall id :: InFlight(s, subject, id) ==> id in s'.flights && s'.flights[id] == s.flights[id]
    requires subject in s.sessions ==> subject in s'.sessions && s'.sessions[subject] == s.sessions[subject]
    requires subject in s.latest ==> subject in s'.latest && s'.latest[subject] == s.latest[subject]
    ensures Settled(s', subject)
  {
    if Idle(s'.flights, subject) {
      forall id | id in s.flights ensures s.flights[id].subject != subject {
        assert !InFlight(s', subject, id);
        assert !InFlight(s, subject, id);
      }
    }
  }

  lemma AnswerKeepsSettled(s: System, subject: string, id: nat, answer: TokenAnswer, now: Instant)
    requires Settled(s, subject)
    ensures Settled(DoAnswer(s, id, answer, now), subject)
  {
    var s' := DoAnswer(s, id, answer, now);
    if id in s.flights && s.flights[id].Refreshing? {
      assert forall other :: other in s'.flights && other != id ==> other in s.flights && s'.flights[other] == s.flights[other];
      if s.flights[id].subject == subject {
        assert InFlight(s, subject, id);
        assert forall other :: InFlight(s', subject, other) ==> InFlight(s, subject, other);
        assert Accepted(answer) ==> InFlight(s', subject, id);
      } else {
        SameSubject(s, s', subject);
      }
    }
  }

  lemma SaveKeepsSettled(s: System, subject: string, id: nat, stored: bool)
    requires Settled(s, subject) && Finishing(s, subject, Save(id, stored))
    ensures Settled(DoSave(s, id, stored), subject)
  {
    var s' := DoSave(s, id, stored);
    if id in s.flights && s.flights[id].Saving? {
      assert forall other :: other in s'.flights <==> other in s.flights && other != id;
      if s.flights[id].subject == subject {
        assert InFlight(s, subject, id);
        assert forall other :: InFlight(s', subject, other) ==> InFlight(s, subject, other);
      } else {
        SameSubject(s, s', subject);
      }
    }
  }

  lemma DropKeepsSettled(s: System, subject: string, id: nat)
    requires Settled(s, subject) && Finishing(s, subject, Drop(id))
    ensures Settled(Step(s, Drop(id)), subject)
  {
    var s' := Step(s, Drop(id));
    assert forall other :: other in s'.flights <==> other in s.flights && other != id;
    if InFlight(s, subject, id) {
      forall other ensures !InFlight(s', subject, other) {
        assert InFlight(s', subject, other) ==> InFlight(s, subject, other);
      }
    } else {
      SameSubject(s, s', subject);
    }
  }

  lemma OthersKeepSettled(s: System, subject: string, a: Action)
    requires Settled(s, subject) && (a.Login? || a.Begin?) && a.subject != subject
    ensures Settled(Step(s, a), subject)
  {
    var s' := Step(s, a);
    assert forall id :: id in s.flights ==> id in s'.flights && s'.flights[id] == s.flights[id];
    assert forall id :: id in s'.flights && id !in s.flights ==> s'.flights[id].subject != subject;
    SameSubject(s, s', subject);
  }

  lemma FinishingKeepsSettled(s: System, subject: string, a: Action)
    requires Settled(s, subject) && Finishing(s, subject, a)
    ensures Settled(Step(s, a), subject)
  {
    match a
    case Login(_, _) => OthersKeepSettled(s, subject, a);
    case Begin(_, _, _) => OthersKeepSettled(s, subject, a);
    case Answer(id, answer, now) => AnswerKeepsSettled(s, subject, id, answer, now);
    case Save(id, stored) => SaveKeepsSettled(s, subject, id, stored);
    case Drop(id) => DropKeepsSettled(s, subject, id);
  }

  lemma {:induction false} FinishingRunKeepsSettled(s: System, subject: string, actions: seq<Action>)
    requires Settled(s, subject) && FinishingRun(s, subject, actions)
    ensures Settled(Run(s, actions), subject)
  {
    if actions != [] {
      FinishingRunKeepsSettled(s, subject, actions[..|actions| - 1]);
      FinishingKeepsSettled(Run(s, actions[..|actions| - 1]), subject, actions[|actions| - 1]);
    }
  }

  // The other direction: how an unsettled subject can end up with an older token.

  lemma {:induction false} FinishingExtends(s: System, subject: string, actions: seq<Action>, a: Action)
    requires FinishingRun(s, subject, actions) && Finishing(Run(s, actions), subject, a)
    ensures FinishingRun(s, subject, actions + [a])
  {
    assert (actions + [a])[..|actions|] == actions;
  }

  /** Every way of finishing what is in flight ends with the newest token stored. */
  ghost predicate AlwaysNewest(s: System, subject: string) {
    forall actions :: FinishingRun(s, subject, actions) && Idle(Run(s, actions).flights, subject) ==> NewestStored(Run(s, actions), subject)
  }

  /** A run that finishes every other exchange of the subject and only then saves this one. */
  lemma SavedLast(s: System, subject: string, start: seq<Action>, id: nat) returns (actions: seq<Action>)
    requires FinishingRun(s, subject, start)
    requires var s1 := Run(s, start); InFlight(s1, subject, id) && s1.flights[id].Saving?
    ensures FinishingRun(s, subject, actions) && Idle(Run(s, actions).flights, subject)
    ensures var s1, s2 := Run(s, start), Run(s, actions);
      && s2.latest == s1.latest && subject in s2.sessions
      && s2.sessions[subject].refreshToken == TokenOf(s1.flights[id])
  {
    actions := start;
    ghost var s1 := Run(s, start);
    while exists other :: other != id && InFlight(Run(s, actions), subject, other)
      invariant FinishingRun(s, subject, actions) && Run(s, actions).latest == s1.latest
      invariant id in Run(s, actions).flights && Run(s, actions).flights[id] == s1.flights[id]
      decreases |Run(s, actions).flights|
    {
      var other :| other != id && InFlight(Run(s, actions), subject, other);
      var a := if Run(s, actions).flights[other].Refreshing? then Drop(other) else Save(other, true);
      RunExtends(s, actions, a);
      FinishingExtends(s, subject, actions, a);
      assert Run(s, actions + [a]).flights == Run(s, actions).flights - {other};
      actions := actions + [a];
    }
    RunExtends(s, actions, Save(id, true));
    FinishingExtends(s, subject, actions, Save(id, true));
    forall other | other in Run(s, actions + [Save(id, true)]).flights
      ensures Run(s, actions + [Save(id, true)]).flights[other].subject != subject
    {
      assert !InFlight(Run(s, actions), subject, other);
    }
    actions := actions + [Save(id, true)];
  }

  lemma {:induction false} OlderSaved(s: System, subject: string, start: seq<Action>, id: nat)
    requires FinishingRun(s, subject, start)
    requires var s1 := Run(s, start);
      InFlight(s1, subject, id) && subject in s1.latest && TokenOf(s1.flights[id]) != s1.latest[subject]
    ensures !AlwaysNewest(s, subject)
  {
    var begun := start;
    if Run(s, start).flights[id].Refreshing? {
      var a := Answer(id, Token("a", "", "", 1, None), 0);
      RunExtends(s, start, a);
      FinishingExtends(s, subject, start, a);
      begun := start + [a];
    }
    var actions := SavedLast(s, subject, begun, id);
    assert !NewestStored(Run(s, actions), subject);
  }

  /** Two exchanges, one of them still waiting: the provider rotates for that one, and
      the other saves what it had. */
  lemma OverlapLoses(s: System, subject: string, id: nat, other: nat)
    requires InFlight(s, subject, id) && s.flights[id].Refreshing? && InFlight(s, subject, other) && other != id
    ensures !AlwaysNewest(s, subject)
  {
    var rotated := TokenOf(s.flights[other]) + "x";
    var a := Answer(id, Token("a", rotated, "", 1, None), 0);
    RunExtends(s, [], a);
    FinishingExtends(s, subject, [], a);
    OlderSaved(s, subject, [] + [a], other);
  }

  /** A refused exchange leaves whatever is stored. */
  lemma RefusalLoses(s: System, subject: string, id: nat)
    requires InFlight(s, subject, id) && s.flights[id].Refreshing? && !NewestStored(s, subject)
    requires forall other :: InFlight(s, subject, other) ==> other == id
    ensures !AlwaysNewest(s, subject)
  {
    RunExtends(s, [], Drop(id));
    FinishingExtends(s, subject, [], Drop(id));
    var actions := [] + [Drop(id)];
    forall other | other in Run(s, actions).flights ensures Run(s, actions).flights[other].subject != subject {
      assert !InFlight(s, subject, other);
    }
    assert !NewestStored(Run(s, actions), subject);
  }

  /** From any state, however it came about: every way of finishing the exchanges of a
      subject leaves the newest refresh token stored if and only if the subject is
      settled. So one exchange at a time is safe, two of which one still waits for the
      provider never are, and answered ones are as long as they carry the newest token. */
  lemma NewestExactly(s: System, subject: string)
    requires subject in s.sessions && subject in s.latest
    ensures AlwaysNewest(s, subject) <==> Settled(s, subject)
  {
    if Settled(s, subject) {
      forall actions | FinishingRun(s, subject, actions) && Idle(Run(s, actions).flights, subject)
        ensures NewestStored(Run(s, actions), subject)
      {
        FinishingRunKeepsSettled(s, subject, actions);
      }
    } else if Idle(s.flights, subject) {
      assert Run(s, []) == s && FinishingRun(s, subject, []);
      if NewestStored(s, subject) { IdleIsSettled(s, subject); }
    } else if id :| InFlight(s, subject, id) && TokenOf(s.flights[id]) != s.latest[subject] {
      assert Run(s, []) == s;
      OlderSaved(s, subject, [], id);
    } else if id, other :| InFlight(s, subject, id) && s.flights[id].Refreshing? && InFlight(s, subject, other) && other != id {
      OverlapLoses(s, subject, id, other);
    } else {
      var id :| InFlight(s, subject, id) && s.flights[id].Refreshing? && !NewestStored(s, subject);
      RefusalLoses(s, subject, id);
    }
  }

  lemma IdleIsSettled(s: System, subject: string)
    requires Idle(s.flights, subject) && NewestStored(s, subject)
    ensures Settled(s, subject)
  {
    assert forall id :: !InFlight(s, subject, id);
  }

  // ---- whole runs ----

  /** Besides finishing steps, a login or a new exchange while nothing is in flight. */
  predicate Orderly(s: System, subject: string, a: Action) {
    if (a.Login? || a.Begin?) && a.subject == subject then Idle(s.flights, subject) else Finishing(s, subject, a)
  }

  predicate OrderlyRun(s: System, subject: string, actions: seq<Action>) {
    actions == [] ||
    (OrderlyRun(s, subject, actions[..|actions| - 1]) && Orderly(Run(s, actions[..|actions| - 1]), subject, actions[|actions| - 1]))
  }

  ghost predicate UpToDate(s: System, subject: string) {
    if subject in s.sessions then Settled(s, subject) else Idle(s.flights, subject)
  }

  lemma LoginKeepsUpToDate(s: System, subject: string, session: UpstreamSession)
    requires Idle(s.flights, subject)
    ensures Settled(DoLogin(s, subject, session), subject)
  {
    IdleIsSettled(DoLogin(s, subject, session), subject);
  }

  lemma BeginKeepsUpToDate(s: System, subject: string, id: nat, now: Instant)
    requires UpToDate(s, subject) && Idle(s.flights, subject)
    ensures UpToDate(DoBegin(s, id, subject, now), subject)
  {
    var s' := DoBegin(s, id, subject, now);
    assert forall other :: !InFlight(s, subject, other);
    if s'.flights == s.flights {
      if subject in s.sessions { IdleIsSettled(s', subject); }
    } else {
      assert InFlight(s', subject, id);
      assert forall other :: InFlight(s', subject, other) && other != id ==> InFlight(s, subject, other);
    }
  }

  lemma AbsentStays(s: System, subject: string, a: Action)
    requires subject !in s.sessions && Idle(s.flights, subject) && Finishing(s, subject, a)
    ensures subject !in Step(s, a).sessions && Idle(Step(s, a).flights, subject)
  {
  }

  lemma {:induction false} OrderlyKeepsUpToDate(subject: string, actions: seq<Action>)
    requires OrderlyRun(Start, subject, actions)
    ensures UpToDate(Run(Start, actions), subject)
  {
    if actions != [] {
      var s, a := Run(Start, actions[..|actions| - 1]), actions[|actions| - 1];
      OrderlyKeepsUpToDate(subject, actions[..|actions| - 1]);
      if a.Login? && a.subject == subject {
        LoginKeepsUpToDate(s, subject, a.session);
      } else if a.Begin? && a.subject == subject {
        BeginKeepsUpToDate(s, subject, a.id, a.now);
      } else if subject in s.sessions {
        FinishingKeepsSettled(s, subject, a);
        SessionStays(s, subject, a);
      } else {
        AbsentStays(s, subject, a);
      }
    }
  }

  lemma SessionStays(s: System, subject: string, a: Action)
    requires subject in s.sessions
    ensures subject in Step(s, a).sessions
  {
  }

  /** While a subject's exchanges do not overlap and none is lost between its answer
      and its save, what is stored between them is the refresh token issued last. */
  lemma {:induction false} NewestTokenStored(subject: string, actions: seq<Action>)
    requires OrderlyRun(Start, subject, actions)
    ensures var s := Run(Start, actions);
      Idle(s.flights, subject) && subject in s.sessions ==> NewestStored(s, subject)
  {
    OrderlyKeepsUpToDate(subject, actions);
  }

  /** Both exchanges have read the session of a login that is already expired. */
  lemma TwoReaders(subject: string, spent: string) returns (actions: seq<Action>)
    requires subject != "" && spent != ""
    ensures var s := Run(Start, actions);
      var read := UpstreamSession("a", spent, "Bearer", 0, []);
      s.flights == map[1 := Refreshing(subject, read), 2 := Refreshing(subject, read)]
  {
    var read := UpstreamSession("a", spent, "Bearer", 0, []);
    RunExtends(Start, [], Login(subject, read));
    RunExtends(Start, [] + [Login(subject, read)], Begin(1, subject, 1));
    RunExtends(Start, [] + [Login(subject, read)] + [Begin(1, subject, 1)], Begin(2, subject, 1));
    actions := [] + [Login(subject, read)] + [Begin(1, subject, 1)] + [Begin(2, subject, 1)];
  }

  /** All is finished, but the stored token is the spent one and not the newest. */
  ghost predicate RotationLost(s: System, subject: string, spent: string, rotated: string) {
    && s.flights == map[] && subject in s.sessions && subject in s.latest
    && s.sessions[subject].refreshToken == spent && s.latest[subject] == rotated
  }

  /** The unsettled case is reached: two exchanges read the same session, the provider
      rotates for the first and not for the second, and the second save puts the spent
      token back. */
  lemma OverlapLosesRotation(subject: string, spent: string, rotated: string) returns (actions: seq<Action>)
    requires subject != "" && spent != "" && rotated != "" && spent != rotated
    ensures RotationLost(Run(Start, actions), subject, spent, rotated) && !NewestStored(Run(Start, actions), subject)
  {
    var first, second := Token("b", rotated, "", 1, None), Token("c", "", "", 1, None);
    var a0 := TwoReaders(subject, spent);
    var a1 := a0 + [Answer(1, first, 1)];
    var a2 := a1 + [Save(1, true)];
    var a3 := a2 + [Answer(2, second, 1)];
    actions := a3 + [Save(2, true)];
    RunExtends(Start, a0, Answer(1, first, 1));
    RunExtends(Start, a1, Save(1, true));
    RunExtends(Start, a2, Answer(2, second, 1));
    RunExtends(Start, a3, Save(2, true));
    assert Run(Start, a2).flights.Keys == {2};
  }
}
