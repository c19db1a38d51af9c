/** Safety of the grant machine over whole runs: one baton per grant, and the
    provenance of every token. */
module GrantSafety {
  import opened Records
  import opened Grants

  /** The baton can still be used: by presenting the id, code or token, or by the handler itself. */
  predicate Held(s: System, b: Baton) {
    match b
    case Entry(h) => h in s.vault.consent
    case Code(h) => h in s.vault.codes && !s.vault.codes[h].used
    case Token(h) => h in s.vault.refresh && !s.vault.refresh[h].used && !s.vault.refresh[h].revoked
    case InFlight(id) => id in s.handlers && !s.handlers[id].Detected?
  }

  function GrantOf(s: System, b: Baton): Digest
    requires Held(s, b)
  {
    if b.InFlight? then s.handlers[b.handler].grant else OwnerOf(s, b.hash)
  }

  // ---- the shape invariant: every record fits the trace of its grant ----

  ghost predicate EntryFits(t: Trace, entry: ConsentRequest) {
    && t.code.None? && t.redemption.None? && t.family == "" && entry.request == t.request
    && (entry.codeVerifier != "" ==> t.consented)
  }

  ghost predicate CodeFits(t: Trace, h: Digest, code: AuthorizationCode) {
    && t.code == Some(h) && t.subject == Some(code.subject)
    && code.clientID == t.request.clientID && code.scope == t.request.scope && code.resource == t.request.resource
    && code.codeChallenge == t.request.codeChallenge && code.redirectURI == t.request.redirectURI
    && (!code.used ==> t.redemption.None? && t.family == "" && t.holder == Code(h))
  }

  ghost predicate Carries(t: Trace, clientID: string, subject: string, scope: seq<string>, resource: string) {
    && t.code.Some? && t.redemption.Some? && t.subject == Some(subject)
    && clientID == t.request.clientID && scope == t.request.scope && resource == t.request.resource
  }

  ghost predicate TokenFits(t: Trace, h: Digest, k: RefreshToken) {
    && Carries(t, k.clientID, k.subject, k.scope, k.resource) && k.familyID == t.family != ""
    && (!k.used && !k.revoked ==> t.holder == Token(h))
  }

  ghost predicate HandlerFits(t: Trace, id: nat, h: Handler)
    requires !h.Detected?
  {
    && t.holder == InFlight(id)
    && match h
       case Approved(_, pending) => EntryFits(t, pending) && t.consented
       case Returned(_, pending, _) => EntryFits(t, pending)
       case Identified(_, pending, subject, _) => EntryFits(t, pending) && t.subject == Some(subject) && t.consented
       case Issuing(_, clientID, subject, scope, resource, family) =>
         Carries(t, clientID, subject, scope, resource) && family == t.family
  }

  type Owners = map<Digest, Digest>
  type Traces = map<Digest, Trace>

  ghost predicate Named(owner: Owners, traces: Traces, drawn: set<string>) {
    && (forall h :: h in owner ==> h.preimage in drawn && owner[h] in traces)
    && (forall g :: g in traces ==> g.preimage in drawn)
  }

  ghost predicate EntriesFit(consent: map<Digest, ConsentRequest>, owner: Owners, traces: Traces) {
    forall h :: h in consent ==>
      h in owner && owner[h] in traces && traces[owner[h]].holder == Entry(h) && EntryFits(traces[owner[h]], consent[h])
  }

  ghost predicate CodesFit(codes: map<Digest, AuthorizationCode>, owner: Owners, traces: Traces) {
    forall h :: h in codes ==> h in owner && owner[h] in traces && CodeFits(traces[owner[h]], h, codes[h])
  }

  ghost predicate TokensFit(refresh: map<Digest, RefreshToken>, owner: Owners, traces: Traces) {
    forall h :: h in refresh ==> h in owner && owner[h] in traces && TokenFits(traces[owner[h]], h, refresh[h])
  }

  ghost predicate HandlersFit(handlers: map<nat, Handler>, traces: Traces) {
    forall id :: id in handlers && !handlers[id].Detected? ==>
      handlers[id].grant in traces && HandlerFits(traces[handlers[id].grant], id, handlers[id])
  }

  ghost predicate Shape(s: System) {
    && Named(s.owner, s.traces, s.drawn)
    && EntriesFit(s.vault.consent, s.owner, s.traces)
    && CodesFit(s.vault.codes, s.owner, s.traces)
    && TokensFit(s.vault.refresh, s.owner, s.traces)
    && HandlersFit(s.handlers, s.traces)
  }

  /** Nobody holds a baton of this grant. */
  ghost predicate Idle(s: System, g: Digest) {
    && (forall h :: h in s.vault.consent && h in s.owner ==> s.owner[h] != g)
    && (forall h :: h in s.vault.codes && h in s.owner && s.owner[h] == g ==> s.vault.codes[h].used)
    && (forall h :: h in s.vault.refresh && h in s.owner && s.owner[h] == g ==> s.vault.refresh[h].used || s.vault.refresh[h].revoked)
    && (forall id :: id in s.handlers && !s.handlers[id].Detected? ==> s.handlers[id].grant != g)
  }

  // Taking a baton: the grant is idle afterwards.

  lemma TakenEntry(s: System, h: Digest) returns (s': System)
    requires Shape(s) && h in s.vault.consent
    ensures s' == s.(vault := s.vault.(consent := s.vault.consent - {h}))
    ensures Shape(s') && Idle(s', s.owner[h])
  {
    s' := s.(vault := s.vault.(consent := s.vault.consent - {h}));
  }

  lemma TakenCode(s: System, h: Digest) returns (s': System)
    requires Shape(s) && h in s.vault.codes && !s.vault.codes[h].used
    ensures s' == s.(vault := s.vault.(codes := s.vault.codes[h := s.vault.codes[h].(used := true)]))
    ensures Shape(s') && Idle(s', s.owner[h])
  {
    s' := s.(vault := s.vault.(codes := s.vault.codes[h := s.vault.codes[h].(used := true)]));
    var t := s.traces[s.owner[h]];
    assert forall h' :: h' in s.vault.codes && s.owner[h'] == s.owner[h] ==> t.code == Some(h');
  }

  lemma TakenToken(s: System, h: Digest) returns (s': System)
    requires Shape(s) && h in s.vault.refresh && !s.vault.refresh[h].used && !s.vault.refresh[h].revoked
    ensures s' == s.(vault := s.vault.(refresh := s.vault.refresh[h := s.vault.refresh[h].(used := true)]))
    ensures Shape(s') && Idle(s', s.owner[h])
  {
    s' := s.(vault := s.vault.(refresh := s.vault.refresh[h := s.vault.refresh[h].(used := true)]));
  }

  lemma TakenHandler(s: System, id: nat) returns (s': System)
    requires Shape(s) && id in s.handlers && !s.handlers[id].Detected?
    ensures s' == s.(handlers := s.handlers - {id})
    ensures Shape(s') && Idle(s', s.handlers[id].grant)
  {
    s' := s.(handlers := s.handlers - {id});
  }

  /** While idle, a grant's trace may gain what it does not have yet. */
  ghost predicate Gains(t: Trace, t': Trace) {
    && t'.client == t.client && t'.request == t.request
    && (t.code.Some? ==> t'.code == t.code && t'.subject == t.subject)
    && (t.redemption.Some? ==> t'.redemption == t.redemption)
    && (t.family != "" ==> t'.family == t.family)
  }

  lemma Retraced(s: System, g: Digest, t': Trace) returns (s': System)
    requires Shape(s) && g in s.traces && Idle(s, g) && Gains(s.traces[g], t')
    ensures s' == s.(traces := s.traces[g := t'])
    ensures Shape(s') && Idle(s', g)
  {
    s' := s.(traces := s.traces[g := t']);
  }

  // Giving a baton to an idle grant.

  lemma GivenEntry(s: System, g: Digest, id: string, entry: ConsentRequest) returns (s': System)
    requires Shape(s) && Fresh(s, id) && g in s.traces
    requires s.traces[g].holder == Entry(HashSecret(id)) && EntryFits(s.traces[g], entry)
    ensures var h := HashSecret(id);
      s' == s.(vault := s.vault.(consent := s.vault.consent[h := entry]), owner := s.owner[h := g], drawn := s.drawn + {id})
    ensures Shape(s')
  {
    var h := HashSecret(id);
    assert h !in s.owner;
    s' := s.(vault := s.vault.(consent := s.vault.consent[h := entry]), owner := s.owner[h := g], drawn := s.drawn + {id});
  }

  lemma GivenCode(s: System, g: Digest, id: string, code: AuthorizationCode) returns (s': System)
    requires Shape(s) && Fresh(s, id) && g in s.traces && CodeFits(s.traces[g], HashSecret(id), code)
    ensures var h := HashSecret(id);
      s' == s.(vault := s.vault.(codes := s.vault.codes[h := code]), owner := s.owner[h := g], drawn := s.drawn + {id})
    ensures Shape(s')
  {
    var h := HashSecret(id);
    assert h !in s.owner;
    s' := s.(vault := s.vault.(codes := s.vault.codes[h := code]), owner := s.owner[h := g], drawn := s.drawn + {id});
  }

  lemma GivenToken(s: System, g: Digest, id: string, token: RefreshToken, drawn: set<string>) returns (s': System)
    requires Shape(s) && Fresh(s, id) && g in s.traces && TokenFits(s.traces[g], HashSecret(id), token)
    requires s.drawn + {id} <= drawn
    ensures var h := HashSecret(id);
      s' == s.(vault := s.vault.(refresh := s.vault.refresh[h := token]), owner := s.owner[h := g], drawn := drawn)
    ensures Shape(s')
  {
    var h := HashSecret(id);
    assert h !in s.owner;
    s' := s.(vault := s.vault.(refresh := s.vault.refresh[h := token]), owner := s.owner[h := g], drawn := drawn);
  }

  lemma GivenHandler(s: System, id: nat, h: Handler) returns (s': System)
    requires Shape(s) && id !in s.handlers
    requires !h.Detected? ==> h.grant in s.traces && HandlerFits(s.traces[h.grant], id, h)
    ensures s' == s.(handlers := s.handlers[id := h])
    ensures Shape(s')
  {
    s' := s.(handlers := s.handlers[id := h]);
  }

  // Every step takes a baton, lets the trace gain something, and gives a baton.

  lemma Enrolled(s: System, id: string, t: Trace, entry: ConsentRequest) returns (s': System)
    requires Shape(s) && Fresh(s, id)
    requires t.holder == Entry(HashSecret(id)) && EntryFits(t, entry)
    ensures var g := HashSecret(id);
      s' == s.(vault := s.vault.(consent := s.vault.consent[g := entry]), drawn := s.drawn + {id},
               owner := s.owner[g := g], traces := s.traces[g := t])
    ensures Shape(s')
  {
    var g := HashSecret(id);
    assert g !in s.traces && g !in s.owner;
    s' := s.(vault := s.vault.(consent := s.vault.consent[g := entry]), drawn := s.drawn + {id},
             owner := s.owner[g := g], traces := s.traces[g := t]);
  }

  lemma AcceptKeepsShape(c: Config, s: System, client: Client, request: AuthorizationRequest, nonce: string, consentID: string, now: Instant)
    requires Shape(s) && Fresh(s, consentID)
    ensures Shape(Accept(c, s, client, request, nonce, consentID, now))
  {
    var g := HashSecret(consentID);
    var s1 := Enrolled(s, consentID, Trace(client, request, Entry(g), false, None, None, None, ""),
                       ConsentRequest(g, request, nonce, now + c.codeTTL, ""));
  }

  lemma AuthorizeKeepsShape(c: Config, s: System, q: Query, client: Option<Client>, consentID: string, nonce: string, now: Instant)
    requires Shape(s)
    ensures Shape(DoAuthorize(c, s, q, client, consentID, nonce, now))
  {
    var parsed := Parse(c, q, client);
    if parsed.Some? && Fresh(s, consentID) {
      AcceptKeepsShape(c, s, client.value, parsed.value, if q.nonce == "" then nonce else q.nonce, consentID, now);
    }
  }

  lemma FinishConsentKeepsShape(s: System, id: nat, consentID: string, approved: bool, now: Instant)
    requires Shape(s)
    ensures Shape(DoFinishConsent(s, id, consentID, approved, now))
  {
    var h := HashSecret(consentID);
    if id !in s.handlers && TakeConsent(s.vault.consent, consentID, now).1.Ok? {
      var g := s.owner[h];
      var s1 := TakenEntry(s, h);
      var s2 := Retraced(s1, g, s.traces[g].(holder := InFlight(id), consented := true));
      var s3 := GivenHandler(s2, id, Approved(g, s.vault.consent[h]));
    }
  }

  lemma BeginUpstreamKeepsShape(c: Config, s: System, id: nat, state: string, verifier: string, now: Instant)
    requires Shape(s)
    ensures Shape(DoBeginUpstream(c, s, id, state, verifier, now))
  {
    if id in s.handlers && s.handlers[id].Approved? && Fresh(s, state) {
      var g, pending, h := s.handlers[id].grant, s.handlers[id].pending, HashSecret(state);
      var s1 := TakenHandler(s, id);
      var s2 := Retraced(s1, g, s.traces[g].(holder := Entry(h)));
      var s3 := GivenEntry(s2, g, state, ConsentRequest(h, pending.request, pending.nonce, now + c.codeTTL, verifier));
    }
  }

  lemma IdentifyKeepsShape(s: System, id: nat, subject: string, session: Option<UpstreamSession>) returns (s': System)
    requires Shape(s) && id in s.handlers && (s.handlers[id].Approved? || s.handlers[id].Returned?)
    requires s.traces[s.handlers[id].grant].consented
    ensures var h := s.handlers[id];
      s' == s.(handlers := s.handlers[id := Identified(h.grant, h.pending, subject, session)],
               traces := s.traces[h.grant := TraceOf(s, h.grant).(subject := Some(subject))])
    ensures Shape(s')
  {
    var h := s.handlers[id];
    var s1 := TakenHandler(s, id);
    var s2 := Retraced(s1, h.grant, s.traces[h.grant].(subject := Some(subject)));
    s' := GivenHandler(s2, id, Identified(h.grant, h.pending, subject, session));
    assert (s.handlers - {id})[id := Identified(h.grant, h.pending, subject, session)]
        == s.handlers[id := Identified(h.grant, h.pending, subject, session)];
  }

  lemma CallbackKeepsShape(c: Config, s: System, id: nat, state: string, upstreamError: bool, now: Instant)
    requires Shape(s)
    ensures Shape(DoCallback(c, s, id, state, upstreamError, now))
  {
    var h := HashSecret(state);
    if id !in s.handlers && TakeConsent(s.vault.consent, state, now).1.Ok? {
      var g := s.owner[h];
      var s1 := TakenEntry(s, h);
      var s2 := Retraced(s1, g, s.traces[g].(holder := InFlight(id)));
      var s3 := GivenHandler(s2, id, Returned(g, s.vault.consent[h], state));
    }
  }

  lemma CompleteKeepsShape(c: Config, s: System, id: nat, code: string, subject: string, session: Option<UpstreamSession>)
    requires Shape(s)
    ensures Shape(DoComplete(c, s, id, code, subject, session))
  {
    if id in s.handlers && s.handlers[id].Returned? {
      var s1 := TakenHandler(s, id);
      if s.handlers[id].pending.codeVerifier != "" {
        var s2 := IdentifyKeepsShape(s, id, subject, session);
      }
    }
  }

  lemma StoreSessionKeepsShape(s: System, id: nat)
    requires Shape(s)
    ensures Shape(DoStoreSession(s, id))
  {
  }

  lemma StoreCodeKeepsShape(c: Config, s: System, id: nat, code: string, now: Instant)
    requires Shape(s)
    ensures Shape(DoStoreCode(c, s, id, code, now))
  {
    if id in s.handlers && s.handlers[id].Identified? && s.handlers[id].session.None? && Fresh(s, code) {
      var Identified(g, pending, subject, _) := s.handlers[id];
      var r, h := pending.request, HashSecret(code);
      var s1 := TakenHandler(s, id);
      var s2 := Retraced(s1, g, s.traces[g].(holder := Code(h), code := Some(h)));
      var s3 := GivenCode(s2, g, code, AuthorizationCode(h, r.clientID, r.redirectURI, r.codeChallenge, r.scope, r.resource,
                                                         subject, pending.nonce, now + c.codeTTL, false));
    }
  }

  lemma RedeemKeepsShape(c: Config, s: System, id: nat, form: CodeForm, client: Client, now: Instant)
    requires Shape(s)
    ensures Shape(DoRedeem(c, s, id, form, client, now))
  {
    var h := HashSecret(form.code);
    if id !in s.handlers && TakeCode(s.vault.codes, form.code, now).1.Ok? {
      var g, code := s.owner[h], s.vault.codes[h];
      var s1 := TakenCode(s, h);
      var s2 := Retraced(s1, g, s.traces[g].(holder := InFlight(id), redemption := Some(Redemption(client, form))));
      var s3 := GivenHandler(s2, id, Issuing(g, code.clientID, code.subject, code.scope, code.resource, ""));
    }
  }

  lemma RotateKeepsShape(s: System, id: nat, token: string, clientID: string, now: Instant)
    requires Shape(s)
    ensures Shape(DoRotate(s, id, token, clientID, now))
  {
    var h := HashSecret(token);
    if id !in s.handlers {
      var answer := TakeToken(s.vault.refresh, token, now).1;
      if answer == Err(AlreadyUsed) {
        var s0 := GivenHandler(s, id, Detected(token));
      } else if answer.Ok? {
        var g, k := s.owner[h], s.vault.refresh[h];
        var s1 := TakenToken(s, h);
        if k.clientID == clientID {
          var s2 := Retraced(s1, g, s.traces[g].(holder := InFlight(id)));
          var s3 := GivenHandler(s2, id, Issuing(g, k.clientID, k.subject, k.scope, k.resource, k.familyID));
        }
      }
    }
  }

  lemma SaveSuccessorKeepsShape(c: Config, s: System, id: nat, token: string, family: string, now: Instant)
    requires Shape(s) && id in s.handlers && s.handlers[id].Issuing? && Fresh(s, token) && family != ""
    requires s.handlers[id].familyID == "" || s.handlers[id].familyID == family
    ensures Shape(SaveSuccessor(c, s, id, token, family, now))
  {
    var Issuing(g, clientID, subject, scope, resource, familyID) := s.handlers[id];
    var h := HashSecret(token);
    var s1 := TakenHandler(s, id);
    var s2 := Retraced(s1, g, s.traces[g].(holder := Token(h), family := family));
    var s3 := GivenToken(s2, g, token, RefreshToken(h, family, clientID, subject, scope, resource, now + c.refreshTTL, false, false),
                         s.drawn + {token, family});
  }

  lemma IssueKeepsShape(c: Config, s: System, id: nat, token: string, drawnFamily: string, now: Instant)
    requires Shape(s)
    ensures Shape(DoIssue(c, s, id, token, drawnFamily, now))
  {
    if DoIssue(c, s, id, token, drawnFamily, now) != s {
      SaveSuccessorKeepsShape(c, s, id, token, if s.handlers[id].familyID == "" then drawnFamily else s.handlers[id].familyID, now);
    }
  }

  lemma RevokeKeepsShape(s: System, refresh: map<Digest, RefreshToken>)
    requires Shape(s) && refresh.Keys == s.vault.refresh.Keys
    requires forall h :: h in refresh ==> refresh[h] == s.vault.refresh[h] || refresh[h] == s.vault.refresh[h].(revoked := true)
    ensures Shape(s.(vault := s.vault.(refresh := refresh)))
  {
  }

  lemma ConsentStepKeepsShape(c: Config, s: System, a: Action)
    requires Shape(s) && (a.Authorize? || a.FinishConsent? || a.BeginUpstream? || a.Authenticate? || a.Callback? || a.Complete?)
    ensures Shape(Step(c, s, a))
  {
    match a
    case Authorize(q, client, consentID, nonce, now) => AuthorizeKeepsShape(c, s, q, client, consentID, nonce, now);
    case FinishConsent(id, consentID, approved, now) => FinishConsentKeepsShape(s, id, consentID, approved, now);
    case BeginUpstream(id, state, head, tail, now) => BeginUpstreamKeepsShape(c, s, id, state, head + tail, now);
    case Callback(id, state, upstreamError, now) => CallbackKeepsShape(c, s, id, state, upstreamError, now);
    case Authenticate(id, subject, session) =>
      if id in s.handlers && s.handlers[id].Approved? { var _ := IdentifyKeepsShape(s, id, subject, session); }
    case Complete(id, code, subject, session) => CompleteKeepsShape(c, s, id, code, subject, session);
  }

  lemma StepKeepsShape(c: Config, s: System, a: Action)
    requires Shape(s)
    ensures Shape(Step(c, s, a))
  {
    match a
    case StoreSession(id) => StoreSessionKeepsShape(s, id);
    case StoreCode(id, code, now) => StoreCodeKeepsShape(c, s, id, code, now);
    case Redeem(id, form, client, now) => RedeemKeepsShape(c, s, id, form, client, now);
    case Rotate(id, token, clientID, now) => RotateKeepsShape(s, id, token, clientID, now);
    case RevokeReused(id) =>
      if id in s.handlers && s.handlers[id].Detected? {
        RevokeKeepsShape(s, RevokeReplayed(s.vault.refresh, s.handlers[id].presented));
      }
    case Issue(id, token, family, now) => IssueKeepsShape(c, s, id, token, family, now);
    case Revoke(token) => RevokeKeepsShape(s, RevokeOne(s.vault.refresh, token));
    case Abort(id) =>
    case _ => ConsentStepKeepsShape(c, s, a);
  }
}
