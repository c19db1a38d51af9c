/** The history of the grant machine: every logged event is backed by earlier
    ones, and every trace by the log. */
module GrantHistory {
  import opened Records
  import opened Grants
  import opened GrantSafety

  /** An event is backed by the events before it. */
  ghost predicate Backed(c: Config, before: seq<Event>, e: Event) {
    match e
    case Accepted(g, client, r) => Admissible(c, client, r) && forall client', r' :: Accepted(g, client', r') !in before
    case Consented(g) => exists client, r :: Accepted(g, client, r) in before
    case Authenticated(g, subject) => Consented(g) in before
    case CodeSaved(g, subject, code) => Authenticated(g, subject) in before
    case Verified(g, subject, redemption) =>
      && CodeSaved(g, subject, HashSecret(redemption.form.code)) in before
      && (exists client, r :: Accepted(g, client, r) in before && MatchesRequest(c, redemption, r))
    case Issued(g, subject, clientID, scope, resource, family) =>
      && (exists redemption :: Verified(g, subject, redemption) in before)
      && (exists client, r :: Accepted(g, client, r) in before && r.clientID == clientID && r.scope == scope && r.resource == resource)
  }

  ghost predicate TraceLogged(c: Config, log: seq<Event>, drawn: set<string>, g: Digest, t: Trace) {
    && Accepted(g, t.client, t.request) in log && Admissible(c, t.client, t.request)
    && (t.consented ==> Consented(g) in log)
    && (t.subject.Some? ==> Authenticated(g, t.subject.value) in log)
    && (t.code.Some? ==> t.subject.Some? && CodeSaved(g, t.subject.value, t.code.value) in log)
    && (t.redemption.Some? ==> t.subject.Some? && Verified(g, t.subject.value, t.redemption.value) in log
                               && MatchesRequest(c, t.redemption.value, t.request))
    && (t.family != "" ==> t.family in drawn)
  }

  ghost predicate EventTraced(traces: Traces, e: Event) {
    && e.grant in traces
    && (e.Issued? ==> traces[e.grant].family == e.family != ""
                      && Carries(traces[e.grant], e.clientID, e.subject, e.scope, e.resource))
  }

  ghost predicate LogBacked(c: Config, log: seq<Event>) {
    forall i :: 0 <= i < |log| ==> Backed(c, log[..i], log[i])
  }

  ghost predicate TracesLogged(c: Config, log: seq<Event>, traces: Traces, drawn: set<string>) {
    forall g :: g in traces ==> TraceLogged(c, log, drawn, g, traces[g])
  }

  ghost predicate EventsTraced(log: seq<Event>, traces: Traces) {
    forall e :: e in log ==> EventTraced(traces, e)
  }

  ghost predicate FamiliesDistinct(traces: Traces) {
    forall g1, g2 :: g1 in traces && g2 in traces && traces[g1].family == traces[g2].family != "" ==> g1 == g2
  }

  ghost predicate History(c: Config, s: System) {
    && LogBacked(c, s.log) && TracesLogged(c, s.log, s.traces, s.drawn)
    && EventsTraced(s.log, s.traces) && FamiliesDistinct(s.traces)
  }

  lemma LogGrows(c: Config, log: seq<Event>, e: Event)
    requires LogBacked(c, log) && Backed(c, log, e)
    ensures LogBacked(c, log + [e])
  {
    forall i | 0 <= i <= |log| ensures Backed(c, (log + [e])[..i], (log + [e])[i]) {
      assert (log + [e])[..i] == if i < |log| then log[..i] else log;
    }
  }

  lemma TracesStayLogged(c: Config, log: seq<Event>, more: seq<Event>, traces: Traces, drawn: set<string>, drawn': set<string>)
    requires TracesLogged(c, log, traces, drawn) && drawn <= drawn'
    ensures TracesLogged(c, log + more, traces, drawn')
  {
    assert forall e :: e in log ==> e in log + more;
  }

  lemma EventsStayTraced(log: seq<Event>, traces: Traces, g: Digest, t': Trace)
    requires EventsTraced(log, traces) && (g in traces ==> Gains(traces[g], t'))
    ensures EventsTraced(log, traces[g := t'])
  {
  }

  lemma EventAdded(log: seq<Event>, traces: Traces, e: Event)
    requires EventsTraced(log, traces) && EventTraced(traces, e)
    ensures EventsTraced(log + [e], traces)
  {
  }

  lemma FamiliesStayDistinct(log: seq<Event>, c: Config, traces: Traces, drawn: set<string>, g: Digest, t': Trace)
    requires FamiliesDistinct(traces) && TracesLogged(c, log, traces, drawn)
    requires t'.family == "" || (g in traces && traces[g].family == t'.family) || t'.family !in drawn
    ensures FamiliesDistinct(traces[g := t'])
  {
    assert forall g' :: g' in traces && traces[g'].family != "" ==> traces[g'].family in drawn;
  }

  lemma TraceAdded(c: Config, log: seq<Event>, traces: Traces, drawn: set<string>, g: Digest, t': Trace)
    requires TracesLogged(c, log, traces, drawn) && TraceLogged(c, log, drawn, g, t')
    ensures TracesLogged(c, log, traces[g := t'], drawn)
  {
  }

  /** A grant's baton moves silently. */
  lemma Rehold(c: Config, s: System, s': System, g: Digest, b: Baton)
    requires History(c, s) && g in s.traces && s'.traces == s.traces[g := s.traces[g].(holder := b)]
    requires s.drawn <= s'.drawn && s'.log == s.log
    ensures History(c, s')
  {
    var t' := s.traces[g].(holder := b);
    TracesStayLogged(c, s.log, [], s.traces, s.drawn, s'.drawn);
    assert s.log + [] == s.log;
    TraceAdded(c, s.log, s.traces, s'.drawn, g, t');
    EventsStayTraced(s.log, s.traces, g, t');
    FamiliesStayDistinct(s.log, c, s.traces, s.drawn, g, t');
  }

  /** One grant's trace gains something, and an event says so. */
  lemma GainsWithEvent(c: Config, s: System, s': System, g: Digest, t': Trace, e: Event)
    requires History(c, s) && (g in s.traces ==> Gains(s.traces[g], t')) && e.grant == g
    requires s.drawn <= s'.drawn && s'.log == s.log + [e] && s'.traces == s.traces[g := t']
    requires t'.family == "" || (g in s.traces && s.traces[g].family == t'.family) || t'.family !in s.drawn
    requires TraceLogged(c, s'.log, s'.drawn, g, t') && Backed(c, s.log, e) && EventTraced(s'.traces, e)
    ensures History(c, s')
  {
    LogGrows(c, s.log, e);
    TracesStayLogged(c, s.log, [e], s.traces, s.drawn, s'.drawn);
    EventsStayTraced(s.log, s.traces, g, t');
    TraceAdded(c, s'.log, s.traces, s'.drawn, g, t');
    FamiliesStayDistinct(s.log, c, s.traces, s.drawn, g, t');
    EventAdded(s.log, s'.traces, e);
  }

  lemma TraceStaysLogged(c: Config, log: seq<Event>, e: Event, drawn: set<string>, g: Digest, t: Trace)
    requires TraceLogged(c, log, drawn, g, t)
    ensures TraceLogged(c, log + [e], drawn, g, t)
  {
  }

  lemma AcceptKeepsHistory(c: Config, s: System, client: Client, request: AuthorizationRequest, nonce: string, consentID: string, now: Instant)
    requires Shape(s) && History(c, s) && Fresh(s, consentID) && Admissible(c, client, request)
    ensures History(c, Accept(c, s, client, request, nonce, consentID, now))
  {
    var g := HashSecret(consentID);
    assert g !in s.traces;
    assert Backed(c, s.log, Accepted(g, client, request));
    GainsWithEvent(c, s, Accept(c, s, client, request, nonce, consentID, now), g,
                   Trace(client, request, Entry(g), false, None, None, None, ""), Accepted(g, client, request));
  }

  lemma AuthorizeKeepsHistory(c: Config, s: System, q: Query, client: Option<Client>, consentID: string, nonce: string, now: Instant)
    requires Shape(s) && History(c, s)
    ensures History(c, DoAuthorize(c, s, q, client, consentID, nonce, now))
  {
    var parsed := Parse(c, q, client);
    if parsed.Some? && Fresh(s, consentID) {
      AcceptKeepsHistory(c, s, client.value, parsed.value, if q.nonce == "" then nonce else q.nonce, consentID, now);
    }
  }

  lemma ConsentKeepsHistory(c: Config, s: System, s': System, g: Digest, b: Baton)
    requires History(c, s) && g in s.traces && s'.drawn == s.drawn
    requires s'.log == s.log + [Consented(g)] && s'.traces == s.traces[g := s.traces[g].(holder := b, consented := true)]
    ensures History(c, s')
  {
    assert Accepted(g, s.traces[g].client, s.traces[g].request) in s.log;
    TraceStaysLogged(c, s.log, Consented(g), s.drawn, g, s.traces[g]);
    GainsWithEvent(c, s, s', g, s.traces[g].(holder := b, consented := true), Consented(g));
  }

  lemma SameHistory(c: Config, s: System, s': System)
    requires History(c, s) && s'.log == s.log && s'.traces == s.traces && s'.drawn == s.drawn
    ensures History(c, s')
  {
  }

  /** What a consent step adds to the history: nothing, or the approval. */
  lemma FinishConsentHistory(s: System, id: nat, consentID: string, approved: bool, now: Instant)
    ensures var s', h := DoFinishConsent(s, id, consentID, approved, now), HashSecret(consentID);
      && s'.drawn == s.drawn
      && (h !in s.vault.consent ==> s'.log == s.log && s'.traces == s.traces)
      && ((s'.log == s.log && s'.traces == s.traces)
          || (s'.log == s.log + [Consented(OwnerOf(s, h))]
              && s'.traces == s.traces[OwnerOf(s, h) := TraceOf(s, OwnerOf(s, h)).(holder := InFlight(id), consented := true)]))
  {
  }

  lemma FinishConsentKeepsHistory(c: Config, s: System, id: nat, consentID: string, approved: bool, now: Instant)
    requires Shape(s) && History(c, s)
    ensures History(c, DoFinishConsent(s, id, consentID, approved, now))
  {
    var s', h := DoFinishConsent(s, id, consentID, approved, now), HashSecret(consentID);
    FinishConsentHistory(s, id, consentID, approved, now);
    if s'.log == s.log && s'.traces == s.traces {
      SameHistory(c, s, s');
    } else {
      EntryOwned(s, h);
      ConsentKeepsHistory(c, s, s', OwnerOf(s, h), InFlight(id));
    }
  }

  lemma EntryOwned(s: System, h: Digest)
    requires Shape(s) && h in s.vault.consent
    ensures OwnerOf(s, h) in s.traces && TraceOf(s, OwnerOf(s, h)) == s.traces[OwnerOf(s, h)]
  {
  }

  /** Consent is on record for every handler about to identify the user: directly
      after an approval, or through the non-empty verifier only an approval stores. */
  lemma IdentifyKeepsHistory(c: Config, s: System, s': System, id: nat, subject: string)
    requires Shape(s) && History(c, s)
    requires id in s.handlers && (s.handlers[id].Approved? || s.handlers[id].Returned?)
    requires s.handlers[id].Returned? ==> s.handlers[id].pending.codeVerifier != ""
    requires var g := s.handlers[id].grant;
      && s'.traces == s.traces[g := TraceOf(s, g).(subject := Some(subject))]
      && s'.log == s.log + [Authenticated(g, subject)] && s'.drawn == s.drawn
    ensures History(c, s')
  {
    var g := s.handlers[id].grant;
    assert s.traces[g].consented;
    assert Backed(c, s.log, Authenticated(g, subject));
    GainsWithEvent(c, s, s', g, s.traces[g].(subject := Some(subject)), Authenticated(g, subject));
  }

  lemma StoreCodeKeepsHistory(c: Config, s: System, id: nat, code: string, now: Instant)
    requires Shape(s) && History(c, s)
    ensures History(c, DoStoreCode(c, s, id, code, now))
  {
    var s' := DoStoreCode(c, s, id, code, now);
    if s' != s {
      var g, subject, h := s.handlers[id].grant, s.handlers[id].subject, HashSecret(code);
      assert HandlerFits(s.traces[g], id, s.handlers[id]);
      assert Backed(c, s.log, CodeSaved(g, subject, h));
      GainsWithEvent(c, s, s', g, s.traces[g].(holder := Code(h), code := Some(h)), CodeSaved(g, subject, h));
    }
  }

  lemma MatchesAsRequested(c: Config, redemption: Redemption, t: Trace, h: Digest, code: AuthorizationCode)
    requires CodeFits(t, h, code) && MatchesCode(c, redemption, code)
    ensures MatchesRequest(c, redemption, t.request)
  {
  }

  /** What a redemption adds to the history: nothing, or the verification. */
  lemma RedeemHistory(c: Config, s: System, id: nat, form: CodeForm, client: Client, now: Instant)
    ensures var s', h := DoRedeem(c, s, id, form, client, now), HashSecret(form.code);
      && s'.drawn == s.drawn
      && ((s'.log == s.log && s'.traces == s.traces)
          || (h in s.vault.codes && !s.vault.codes[h].used && MatchesCode(c, Redemption(client, form), s.vault.codes[h])
              && s'.log == s.log + [Verified(OwnerOf(s, h), s.vault.codes[h].subject, Redemption(client, form))]
              && s'.traces == s.traces[OwnerOf(s, h) := TraceOf(s, OwnerOf(s, h)).(holder := InFlight(id), redemption := Some(Redemption(client, form)))]))
  {
  }

  lemma VerifiedKeepsHistory(c: Config, s: System, s': System, g: Digest, subject: string, b: Baton, redemption: Redemption)
    requires History(c, s) && g in s.traces && s'.drawn == s.drawn
    requires var t := s.traces[g];
      && t.code.Some? && t.subject == Some(subject) && t.redemption.None? && t.family == ""
      && t.code == Some(HashSecret(redemption.form.code)) && MatchesRequest(c, redemption, t.request)
      && s'.log == s.log + [Verified(g, subject, redemption)] && s'.traces == s.traces[g := t.(holder := b, redemption := Some(redemption))]
    ensures History(c, s')
  {
    var e := Verified(g, subject, redemption);
    assert Accepted(g, s.traces[g].client, s.traces[g].request) in s.log && CodeSaved(g, subject, s.traces[g].code.value) in s.log;
    TraceStaysLogged(c, s.log, e, s.drawn, g, s.traces[g]);
    GainsWithEvent(c, s, s', g, s.traces[g].(holder := b, redemption := Some(redemption)), e);
  }

  lemma CodeOwned(s: System, h: Digest)
    requires Shape(s) && h in s.vault.codes
    ensures var g := OwnerOf(s, h);
      g in s.traces && TraceOf(s, g) == s.traces[g] && CodeFits(s.traces[g], h, s.vault.codes[h])
  {
  }

  lemma RedeemKeepsHistory(c: Config, s: System, id: nat, form: CodeForm, client: Client, now: Instant)
    requires Shape(s) && History(c, s)
    ensures History(c, DoRedeem(c, s, id, form, client, now))
  {
    var s' := DoRedeem(c, s, id, form, client, now);
    RedeemHistory(c, s, id, form, client, now);
    if s'.log == s.log && s'.traces == s.traces {
      SameHistory(c, s, s');
    } else {
      var h := HashSecret(form.code);
      CodeOwned(s, h);
      MatchesAsRequested(c, Redemption(client, form), s.traces[OwnerOf(s, h)], h, s.vault.codes[h]);
      VerifiedKeepsHistory(c, s, s', OwnerOf(s, h), s.vault.codes[h].subject, InFlight(id), Redemption(client, form));
    }
  }

  lemma IssueKeepsHistory(c: Config, s: System, id: nat, token: string, drawnFamily: string, now: Instant)
    requires Shape(s) && History(c, s)
    ensures History(c, DoIssue(c, s, id, token, drawnFamily, now))
  {
    var s' := DoIssue(c, s, id, token, drawnFamily, now);
    if s' != s {
      var Issuing(g, clientID, subject, scope, resource, familyID) := s.handlers[id];
      var t, family := s.traces[g], if familyID == "" then drawnFamily else familyID;
      assert HandlerFits(t, id, s.handlers[id]);
      assert Accepted(g, t.client, t.request) in s.log && Verified(g, subject, t.redemption.value) in s.log;
      assert Backed(c, s.log, Issued(g, subject, clientID, scope, resource, family));
      GainsWithEvent(c, s, s', g, t.(holder := Token(HashSecret(token)), family := family),
                     Issued(g, subject, clientID, scope, resource, family));
    }
  }

  lemma BeginUpstreamKeepsHistory(c: Config, s: System, id: nat, state: string, verifier: string, now: Instant)
    requires Shape(s) && History(c, s)
    ensures History(c, DoBeginUpstream(c, s, id, state, verifier, now))
  {
    var s' := DoBeginUpstream(c, s, id, state, verifier, now);
    if s'.traces != s.traces {
      var g := s.handlers[id].grant;
      Rehold(c, s, s', g, Entry(HashSecret(state)));
    }
  }

  lemma CallbackKeepsHistory(c: Config, s: System, id: nat, state: string, upstreamError: bool, now: Instant)
    requires Shape(s) && History(c, s)
    ensures History(c, DoCallback(c, s, id, state, upstreamError, now))
  {
    var s' := DoCallback(c, s, id, state, upstreamError, now);
    if s'.traces != s.traces {
      var g := s.owner[HashSecret(state)];
      Rehold(c, s, s', g, InFlight(id));
    }
  }

  lemma RotateEffect(s: System, id: nat, token: string, clientID: string, now: Instant) returns (g: Digest)
    requires Shape(s)
    ensures var s' := DoRotate(s, id, token, clientID, now);
      && s'.log == s.log && s'.drawn == s.drawn
      && (s'.traces == s.traces || (g in s.traces && s'.traces == s.traces[g := s.traces[g].(holder := InFlight(id))]))
  {
    g := OwnerOf(s, HashSecret(token));
  }

  lemma RotateKeepsHistory(c: Config, s: System, id: nat, token: string, clientID: string, now: Instant)
    requires Shape(s) && History(c, s)
    ensures History(c, DoRotate(s, id, token, clientID, now))
  {
    var g := RotateEffect(s, id, token, clientID, now);
    var s' := DoRotate(s, id, token, clientID, now);
    if s'.traces != s.traces {
      Rehold(c, s, s', g, InFlight(id));
    }
  }

  lemma StepKeepsHistory(c: Config, s: System, a: Action)
    requires Shape(s) && History(c, s)
    ensures History(c, Step(c, s, a))
  {
    match a
    case Authorize(q, client, consentID, nonce, now) => AuthorizeKeepsHistory(c, s, q, client, consentID, nonce, now);
    case FinishConsent(id, consentID, approved, now) => FinishConsentKeepsHistory(c, s, id, consentID, approved, now);
    case Authenticate(id, subject, session) =>
      if Step(c, s, a) != s { IdentifyKeepsHistory(c, s, Step(c, s, a), id, subject); }
    case Complete(id, code, subject, session) =>
      if Step(c, s, a).log != s.log { IdentifyKeepsHistory(c, s, Step(c, s, a), id, subject); }
    case StoreCode(id, code, now) => StoreCodeKeepsHistory(c, s, id, code, now);
    case Redeem(id, form, client, now) => RedeemKeepsHistory(c, s, id, form, client, now);
    case Issue(id, token, family, now) => IssueKeepsHistory(c, s, id, token, family, now);
    case BeginUpstream(id, state, head, tail, now) => BeginUpstreamKeepsHistory(c, s, id, state, head + tail, now);
    case Callback(id, state, upstreamError, now) => CallbackKeepsHistory(c, s, id, state, upstreamError, now);
    case Rotate(id, token, clientID, now) => RotateKeepsHistory(c, s, id, token, clientID, now);
    case _ =>
  }

  lemma {:induction false} RunKeepsInvariant(c: Config, actions: seq<Action>)
    ensures Shape(Run(c, Start, actions)) && History(c, Run(c, Start, actions))
  {
    if actions != [] {
      var before := actions[..|actions| - 1];
      RunKeepsInvariant(c, before);
      StepKeepsShape(c, Run(c, Start, before), actions[|actions| - 1]);
      StepKeepsHistory(c, Run(c, Start, before), actions[|actions| - 1]);
    }
  }
}
