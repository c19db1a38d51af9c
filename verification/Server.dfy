/** The request handlers of the authorization server over the in-memory store. Each
    one, run without interruption, is the sequence of its steps of module Grants. */
module AuthorizationServers {
  import opened Records
  import opened Grants
  import opened GrantRules
  import opened MemoryStores
  import GrantSafety
  import GrantTheorems

  /** What the identity provider says; None is a failed authentication. */
  datatype Identity = Identity(subject: string, session: Option<UpstreamSession>)

  datatype Reply =
    | BadRequest
    | ServerError
    | ConsentPage(consentID: string)
    | Expired
    | Denied
    | ToProvider(state: string, codeVerifier: string)
    | ToClient(code: string)
    | Tokens(refreshToken: string)
    | RevocationDone

  method Contains(values: seq<string>, want: string) returns (found: bool)
    ensures found <==> want in values
  {
    for i := 0 to |values|
      invariant want !in values[..i]
    {
      if values[i] == want {
        return true;
      }
      assert values[..i + 1] == values[..i] + [values[i]];
    }
    assert values[..|values|] == values;
    return false;
  }

  method ParseAuthorizationRequest(c: Config, q: Query, client: Option<Client>) returns (r: Option<AuthorizationRequest>)
    ensures r == Parse(c, q, client)
    ensures r == if Acceptable(c, q, client) then Some(Requested(c, q)) else None
    ensures r.Some? ==> Admissible(c, client.value, r.value)
  {
    if client.None? {
      return None;
    }
    if q.responseType != "code" || q.codeChallenge == "" || q.codeChallengeMethod != "S256" {
      return None;
    }
    if !c.redirectPermitted(client.value, q.redirectURI) || !c.validRedirect(q.redirectURI) {
      return None;
    }
    var resource := q.resource;
    if resource == "" && |c.resources| == 1 {
      resource := c.resources[0];
    }
    var known := Contains(c.resources, resource);
    if !known {
      return None;
    }
    for i := 0 to |q.scope|
      invariant forall j :: 0 <= j < i ==> q.scope[j] in c.allowedScopes
    {
      var allowed := Contains(c.allowedScopes, q.scope[i]);
      if !allowed {
        return None;
      }
    }
    return Some(AuthorizationRequest(q.clientID, q.redirectURI, q.scope, q.state, q.codeChallenge, resource, q.responseType, q.nonce));
  }

  /** A handler that ends early. */
  function Dropped(s: System, id: nat): System {
    s.(handlers := s.handlers - {id})
  }

  function TokenRevoked(s: System, token: string): System {
    s.(vault := s.vault.(refresh := RevokeOne(s.vault.refresh, token)))
  }

  predicate HandsOn(h: Handler, t: RefreshToken) {
    h.Issuing? && h.clientID == t.clientID && h.subject == t.subject && h.scope == t.scope && h.resource == t.resource && h.familyID == t.familyID
  }

  /** A first token of this code's grant can be issued. */
  predicate HandsOnCode(h: Handler, code: AuthorizationCode) {
    h.Issuing? && h.clientID == code.clientID && h.subject == code.subject && h.scope == code.scope && h.resource == code.resource && h.familyID == ""
  }

  /** What the callback needs to succeed, read off the store and the request. */
  predicate CallbackAdmitted(c: Config, v: Vault, state: string, upstreamError: bool, upstreamCode: string, now: Instant) {
    && Pending(v, state, now) && v.consent[HashSecret(state)].codeVerifier != "" && state != ""
    && !upstreamError && upstreamCode != "" && c.callbackURL != ""
  }

  function SessionSaved(v: Vault, identity: Identity): Vault {
    if identity.session.None? then v else v.(sessions := v.sessions[identity.subject := identity.session.value])
  }

  /** From an approved consent to a stored code, without interruption. */
  function CodeAfterConsent(c: Config, s: System, id: nat, identity: Identity, code: string, now: Instant): System {
    DoStoreCode(c, DoStoreSession(DoAuthenticate(c, s, id, identity.subject, identity.session), id), id, code, now)
  }

  /** From the provider's redirect back to a stored code, without interruption. */
  function CodeAfterCallback(c: Config, s: System, id: nat, upstreamCode: string, identity: Identity, code: string, now: Instant): System {
    DoStoreCode(c, DoStoreSession(DoComplete(c, s, id, upstreamCode, identity.subject, identity.session), id), id, code, now)
  }

  /** A token request from its successful consume to its answer. */
  function TokensIssued(c: Config, s: System, id: nat, signed: bool, refreshToken: string, drawnFamily: string, now: Instant): System {
    if signed then DoIssue(c, s, id, refreshToken, drawnFamily, now) else Dropped(s, id)
  }

  // ---- every handler is a sequence of steps of the machine ----

  ghost predicate Reachable(c: Config, s: System) {
    exists actions :: s == Run(c, Start, actions)
  }

  lemma StepReachable(c: Config, s: System, a: Action)
    requires Reachable(c, s)
    ensures Reachable(c, Step(c, s, a))
  {
    var actions :| s == Run(c, Start, actions);
    assert (actions + [a])[..|actions|] == actions;
    assert Run(c, Start, actions + [a]) == Step(c, s, a);
  }

  lemma AuthorizeReachable(c: Config, s: System, q: Query, client: Option<Client>, consentID: string, drawnNonce: string, now: Instant)
    requires Reachable(c, s)
    ensures Reachable(c, DoAuthorize(c, s, q, client, consentID, drawnNonce, now))
  {
    StepReachable(c, s, Grants.Authorize(q, client, consentID, drawnNonce, now));
  }

  lemma InteractiveReachable(c: Config, s: System, id: nat, consentID: string, approved: bool, now: Instant,
                             upstreamState: string, head: string, tail: string, later: Instant)
    requires Reachable(c, s)
    ensures Reachable(c, DoBeginUpstream(c, DoFinishConsent(s, id, consentID, approved, now), id, upstreamState, head + tail, later))
  {
    StepReachable(c, s, Grants.FinishConsent(id, consentID, approved, now));
    StepReachable(c, DoFinishConsent(s, id, consentID, approved, now), Grants.BeginUpstream(id, upstreamState, head, tail, later));
  }

  lemma CompleteReachable(c: Config, s: System, id: nat, code: string, now: Instant)
    requires Reachable(c, s)
    ensures Reachable(c, DoStoreCode(c, DoStoreSession(s, id), id, code, now))
  {
    StepReachable(c, s, Grants.StoreSession(id));
    StepReachable(c, DoStoreSession(s, id), Grants.StoreCode(id, code, now));
  }

  lemma DirectReachable(c: Config, s: System, id: nat, consentID: string, approved: bool, now: Instant,
                        identity: Option<Identity>, code: string, later: Instant)
    requires Reachable(c, s)
    ensures var taken := DoFinishConsent(s, id, consentID, approved, now);
      Reachable(c, Dropped(taken, id)) && (identity.Some? ==> Reachable(c, CodeAfterConsent(c, taken, id, identity.value, code, later)))
  {
    var taken := DoFinishConsent(s, id, consentID, approved, now);
    StepReachable(c, s, Grants.FinishConsent(id, consentID, approved, now));
    StepReachable(c, taken, Abort(id));
    if identity.Some? {
      var who := identity.value;
      StepReachable(c, taken, Grants.Authenticate(id, who.subject, who.session));
      CompleteReachable(c, DoAuthenticate(c, taken, id, who.subject, who.session), id, code, later);
    }
  }

  lemma CallbackReachable(c: Config, s: System, id: nat, upstreamState: string, upstreamError: bool, now: Instant,
                          upstreamCode: string, identity: Option<Identity>, code: string, later: Instant)
    requires Reachable(c, s)
    ensures var taken := DoCallback(c, s, id, upstreamState, upstreamError, now);
      && Reachable(c, Dropped(taken, id))
      && (identity.Some? ==> Reachable(c, CodeAfterCallback(c, taken, id, upstreamCode, identity.value, code, later)))
  {
    var taken := DoCallback(c, s, id, upstreamState, upstreamError, now);
    StepReachable(c, s, Grants.Callback(id, upstreamState, upstreamError, now));
    StepReachable(c, taken, Abort(id));
    if identity.Some? {
      var who := identity.value;
      StepReachable(c, taken, Grants.Complete(id, upstreamCode, who.subject, who.session));
      CompleteReachable(c, DoComplete(c, taken, id, upstreamCode, who.subject, who.session), id, code, later);
    }
  }

  lemma IssueReachable(c: Config, s: System, id: nat, signed: bool, refreshToken: string, drawnFamily: string, now: Instant)
    requires Reachable(c, s)
    ensures Reachable(c, TokensIssued(c, s, id, signed, refreshToken, drawnFamily, now))
  {
    StepReachable(c, s, if signed then Grants.Issue(id, refreshToken, drawnFamily, now) else Abort(id));
  }

  lemma CodeTokenReachable(c: Config, s: System, id: nat, form: CodeForm, client: Client, now: Instant,
                           signed: bool, refreshToken: string, drawnFamily: string, later: Instant)
    requires Reachable(c, s)
    ensures Reachable(c, TokensIssued(c, DoRedeem(c, s, id, form, client, now), id, signed, refreshToken, drawnFamily, later))
  {
    StepReachable(c, s, Grants.Redeem(id, form, client, now));
    IssueReachable(c, DoRedeem(c, s, id, form, client, now), id, signed, refreshToken, drawnFamily, later);
  }

  lemma RefreshTokenReachable(c: Config, s: System, id: nat, presented: string, clientID: string, now: Instant,
                              signed: bool, refreshToken: string, drawnFamily: string, later: Instant)
    requires Reachable(c, s)
    ensures Reachable(c, TokensIssued(c, DoRevokeReused(DoRotate(s, id, presented, clientID, now), id), id, signed, refreshToken, drawnFamily, later))
  {
    var rotated := DoRotate(s, id, presented, clientID, now);
    StepReachable(c, s, Grants.Rotate(id, presented, clientID, now));
    StepReachable(c, rotated, Grants.RevokeReused(id));
    IssueReachable(c, DoRevokeReused(rotated, id), id, signed, refreshToken, drawnFamily, later);
  }

  lemma RevokeReachable(c: Config, s: System, token: string)
    requires Reachable(c, s)
    ensures Reachable(c, TokenRevoked(s, token))
  {
    StepReachable(c, s, Grants.Revoke(token));
  }

  class Server {
    const config: Config
    const store: MemoryStore
    ghost var system: System   // the machine of module Grants, run alongside

    /** The store holds what the machine says. */
    ghost predicate Synced()
      reads this, store
    {
      store.State() == system.vault
    }

    /** Between requests the machine is moreover in a state of one of its runs. */
    ghost predicate Valid()
      reads this, store
    {
      Synced() && Reachable(config, system)
    }

    constructor (config: Config, store: MemoryStore)
      requires store.State() == EmptyVault
      ensures Valid() && system == Start && this.config == config && this.store == store
    {
      this.config, this.store, system := config, store, Start;
      new;
      assert Run(config, Start, []) == Start;
    }

    method Authorize(query: Query, client: Option<Client>, consentID: string, drawnNonce: string, now: Instant) returns (r: Reply)
      requires Valid() && Fresh(system, consentID)
      modifies this, store
      ensures Valid() && system == DoAuthorize(config, old(system), query, client, consentID, drawnNonce, now)
      ensures r == if Acceptable(config, query, client) then ConsentPage(consentID) else BadRequest
      ensures store.State() ==
        if Acceptable(config, query, client)
        then EntryAdded(old(store.State()), consentID, Requested(config, query), if query.nonce == "" then drawnNonce else query.nonce, now + config.codeTTL, "")
        else old(store.State())
    {
      AuthorizeReachable(config, system, query, client, consentID, drawnNonce, now);
      var request := ParseAuthorizationRequest(config, query, client);
      system := DoAuthorize(config, system, query, client, consentID, drawnNonce, now);
      if request.None? {
        return BadRequest;
      }
      var nonce := request.value.nonce;
      if nonce == "" {
        nonce := drawnNonce;
      }
      store.SaveConsentRequest(ConsentRequest(HashSecret(consentID), request.value, nonce, now + config.codeTTL, ""));
      return ConsentPage(consentID);
    }

    /** Up to the point where the entry is gone and, when approved, the handler goes on. */
    method TakeEntry(ghost id: nat, consentID: string, approved: bool, now: Instant) returns (r: Result<ConsentRequest>)
      requires Synced() && id !in system.handlers
      modifies this, store
      ensures Synced() && system == DoFinishConsent(old(system), id, consentID, approved, now)
      ensures var v := old(store.State());
        if Pending(v, consentID, now)
        then r == Ok(v.consent[HashSecret(consentID)]) && store.State() == EntryRemoved(v, consentID)
        else r.Err? && store.State() == v
    {
      r := store.ConsumeConsentRequest(consentID, now);
      system := DoFinishConsent(system, id, consentID, approved, now);
    }

    /** With an interactive provider: consent, then the redirect upstream. */
    method FinishConsentInteractive(ghost id: nat, consentID: string, approved: bool, now: Instant,
                                    upstreamState: string, head: string, tail: string, later: Instant) returns (r: Reply)
      requires Valid() && config.oidc && id !in system.handlers && Fresh(system, upstreamState) && head + tail != ""
      modifies this, store
      ensures Valid()
      ensures system == DoBeginUpstream(config, DoFinishConsent(old(system), id, consentID, approved, now), id, upstreamState, head + tail, later)
      ensures var v := old(store.State());
        if !Pending(v, consentID, now) then r == Expired && store.State() == v
        else
          var pending, taken := v.consent[HashSecret(consentID)], EntryRemoved(v, consentID);
          if !approved then r == Denied && store.State() == taken
          else if config.nonceRequired && pending.nonce == "" then r == ServerError && store.State() == taken
          else r == ToProvider(upstreamState, head + tail)
               && store.State() == EntryAdded(taken, upstreamState, pending.request, pending.nonce, later + config.codeTTL, head + tail)
    {
      InteractiveReachable(config, system, id, consentID, approved, now, upstreamState, head, tail, later);
      var pending := TakeEntry(id, consentID, approved, now);
      ghost var taken := system;
      system := DoBeginUpstream(config, system, id, upstreamState, head + tail, later);
      if pending.Err? {
        return Expired;
      }
      if !approved {
        return Denied;
      }
      if config.nonceRequired && pending.value.nonce == "" {
        return ServerError;
      }
      assert taken.handlers[id].pending == pending.value;
      store.SaveConsentRequest(ConsentRequest(HashSecret(upstreamState), pending.value.request, pending.value.nonce,
                                              later + config.codeTTL, head + tail));
      return ToProvider(upstreamState, head + tail);
    }

    /** Saves the upstream session if there is one, then the code. */
    method CompleteAuthorization(ghost id: nat, pending: ConsentRequest, identity: Identity, code: string, now: Instant) returns (r: Reply)
      requires Synced() && Fresh(system, code) && id in system.handlers && system.handlers[id].Identified?
      requires system.handlers[id].pending == pending
      requires system.handlers[id].subject == identity.subject && system.handlers[id].session == identity.session
      modifies this, store
      ensures Synced() && system == DoStoreCode(config, DoStoreSession(old(system), id), id, code, now)
      ensures r == ToClient(code)
      ensures store.State() == CodeAdded(SessionSaved(old(store.State()), identity), code, pending, identity.subject, now + config.codeTTL)
    {
      var request := pending.request;
      if identity.session.Some? {
        store.SaveUpstreamSession(identity.subject, identity.session.value);
      }
      system := DoStoreSession(system, id);
      store.SaveAuthorizationCode(AuthorizationCode(
        HashSecret(code), request.clientID, request.redirectURI, request.codeChallenge, request.scope, request.resource,
        identity.subject, pending.nonce, now + config.codeTTL, false));
      system := DoStoreCode(config, system, id, code, now);
      return ToClient(code);
    }

    /** With a provider that needs no redirect: consent, authentication, code. */
    method FinishConsentDirect(ghost id: nat, consentID: string, approved: bool, now: Instant,
                               identity: Option<Identity>, code: string, later: Instant) returns (r: Reply)
      requires Valid() && !config.oidc && id !in system.handlers && Fresh(system, code)
      modifies this, store
      ensures Valid()
      ensures var v := old(store.State());
        if !Pending(v, consentID, now) then r == Expired && store.State() == v
        else
          var pending, taken := v.consent[HashSecret(consentID)], EntryRemoved(v, consentID);
          if !approved || identity.None? then r == Denied && store.State() == taken
          else r == ToClient(code)
               && store.State() == CodeAdded(SessionSaved(taken, identity.value), code, pending, identity.value.subject, later + config.codeTTL)
      ensures r.ToClient? ==> system == CodeAfterConsent(config, DoFinishConsent(old(system), id, consentID, approved, now), id, identity.value, code, later)
      ensures !r.ToClient? ==> system == Dropped(DoFinishConsent(old(system), id, consentID, approved, now), id)
    {
      DirectReachable(config, system, id, consentID, approved, now, identity, code, later);
      var pending := TakeEntry(id, consentID, approved, now);
      if pending.Err? || !approved || identity.None? {
        system := Dropped(system, id);
        return if pending.Err? then Expired else Denied;
      }
      system := DoAuthenticate(config, system, id, identity.value.subject, identity.value.session);
      r := CompleteAuthorization(id, pending.value, identity.value, code, later);
    }

    /** The callback up to the point where the entry is gone and, without an error, the
        handler goes on. */
    method TakeState(ghost id: nat, upstreamState: string, upstreamError: bool, now: Instant) returns (r: Result<ConsentRequest>)
      requires Synced() && config.oidc && id !in system.handlers
      modifies this, store
      ensures Synced() && system == DoCallback(config, old(system), id, upstreamState, upstreamError, now)
      ensures var v := old(store.State());
        if Pending(v, upstreamState, now)
        then && r == Ok(v.consent[HashSecret(upstreamState)]) && store.State() == EntryRemoved(v, upstreamState)
             && (!upstreamError ==> id in system.handlers && system.handlers[id].Returned?
                                    && system.handlers[id].pending == r.value && system.handlers[id].state == upstreamState)
        else r.Err? && store.State() == v
    {
      r := store.ConsumeConsentRequest(upstreamState, now);
      system := DoCallback(config, system, id, upstreamState, upstreamError, now);
    }

    /** The provider's redirect back. */
    method IdentityCallback(ghost id: nat, upstreamState: string, upstreamError: bool, now: Instant,
                            upstreamCode: string, identity: Option<Identity>, code: string, later: Instant) returns (r: Reply)
      requires Valid() && config.oidc && id !in system.handlers && Fresh(system, code)
      modifies this, store
      ensures Valid()
      ensures var v := old(store.State());
        if !Pending(v, upstreamState, now) then r == Expired && store.State() == v
        else
          var pending, taken := v.consent[HashSecret(upstreamState)], EntryRemoved(v, upstreamState);
          if !CallbackAdmitted(config, v, upstreamState, upstreamError, upstreamCode, now) || identity.None?
          then r == Denied && store.State() == taken
          else r == ToClient(code)
               && store.State() == CodeAdded(SessionSaved(taken, identity.value), code, pending, identity.value.subject, later + config.codeTTL)
      ensures r.ToClient? ==>
        system == CodeAfterCallback(config, DoCallback(config, old(system), id, upstreamState, upstreamError, now), id, upstreamCode, identity.value, code, later)
      ensures !r.ToClient? ==>
        system == Dropped(DoCallback(config, old(system), id, upstreamState, upstreamError, now), id)
    {
      CallbackReachable(config, system, id, upstreamState, upstreamError, now, upstreamCode, identity, code, later);
      var pending := TakeState(id, upstreamState, upstreamError, now);
      if pending.Err? || upstreamError {
        system := Dropped(system, id);
        return if pending.Err? then Expired else Denied;
      }
      if upstreamCode == "" || config.callbackURL == "" || upstreamState == "" || pending.value.codeVerifier == "" || identity.None? {
        system := Dropped(system, id);
        return Denied;
      }
      system := DoComplete(config, system, id, upstreamCode, identity.value.subject, identity.value.session);
      r := CompleteAuthorization(id, pending.value, identity.value, code, later);
    }

    /** `signed`: whether the key provider signed the access token. */
    method IssueTokens(ghost id: nat, clientID: string, subject: string, scope: seq<string>, resource: string, familyID: string,
                       signed: bool, refreshToken: string, drawnFamily: string, now: Instant) returns (r: Reply)
      requires Synced() && id in system.handlers && system.handlers[id].Issuing?
      requires var Issuing(g, client, who, scopes, target, family) := system.handlers[id];
        client == clientID && who == subject && scopes == scope && target == resource && family == familyID
      requires Fresh(system, refreshToken) && Fresh(system, drawnFamily) && refreshToken != drawnFamily
      modifies this, store
      ensures Synced()
      ensures system == if signed then DoIssue(config, old(system), id, refreshToken, drawnFamily, now) else Dropped(old(system), id)
      ensures r == if signed then Tokens(refreshToken) else ServerError
      ensures store.State() ==
        if signed then TokenAdded(old(store.State()), refreshToken, if familyID == "" then drawnFamily else familyID,
                                  clientID, subject, scope, resource, now + config.refreshTTL)
        else old(store.State())
    {
      if !signed {
        system := Dropped(system, id);
        return ServerError;
      }
      var family := familyID;
      if family == "" {
        family := drawnFamily;
      }
      store.SaveRefreshToken(RefreshToken(HashSecret(refreshToken), family, clientID, subject, scope, resource,
                                          now + config.refreshTTL, false, false));
      system := DoIssue(config, system, id, refreshToken, drawnFamily, now);
      return Tokens(refreshToken);
    }

    /** Consumes the code and checks it against the request. */
    method TakeCode(ghost id: nat, form: CodeForm, client: Client, now: Instant) returns (r: Option<AuthorizationCode>)
      requires Synced() && id !in system.handlers
      modifies this, store
      ensures Synced() && system == DoRedeem(config, old(system), id, form, client, now)
      ensures r.Some? ==> id in system.handlers && HandsOnCode(system.handlers[id], r.value)
      ensures r.None? ==> id !in system.handlers
      ensures var v := old(store.State());
        && store.State() == (if Unspent(v, form.code, now) then CodeSpent(v, form.code) else v)
        && (if Redeemable(config, v, Redemption(client, form), now)
            then r == Some(store.codes[HashSecret(form.code)]) else r.None?)
    {
      var code := store.ConsumeAuthorizationCode(form.code, now);
      system := DoRedeem(config, system, id, form, client, now);
      if code.Err? || code.value.clientID != form.clientID || code.value.redirectURI != form.redirectURI
         || !config.redirectPermitted(client, code.value.redirectURI) {
        return None;
      }
      if config.s256(form.codeVerifier) != code.value.codeChallenge {
        return None;
      }
      var resource := form.resource;
      if resource == "" {
        resource := code.value.resource;
      }
      if resource != code.value.resource {
        return None;
      }
      return Some(code.value);
    }

    method AuthorizationCodeToken(ghost id: nat, form: CodeForm, client: Client, now: Instant,
                                  signed: bool, refreshToken: string, drawnFamily: string, later: Instant) returns (r: Reply)
      requires Valid() && id !in system.handlers
      requires Fresh(system, refreshToken) && Fresh(system, drawnFamily) && refreshToken != drawnFamily
      modifies this, store
      ensures Valid()
      ensures system == TokensIssued(config, DoRedeem(config, old(system), id, form, client, now), id, signed, refreshToken, drawnFamily, later)
      ensures var v := old(store.State());
        if !Redeemable(config, v, Redemption(client, form), now) then
          r == BadRequest && store.State() == if Unspent(v, form.code, now) then CodeSpent(v, form.code) else v
        else
          var code, spent := v.codes[HashSecret(form.code)], CodeSpent(v, form.code);
          if !signed then r == ServerError && store.State() == spent
          else r == Tokens(refreshToken)
               && store.State() == TokenAdded(spent, refreshToken, drawnFamily, code.clientID, code.subject, code.scope, code.resource,
                                              later + config.refreshTTL)
    {
      CodeTokenReachable(config, system, id, form, client, now, signed, refreshToken, drawnFamily, later);
      var taken := TakeCode(id, form, client, now);
      if taken.None? {
        system := Dropped(system, id);
        return BadRequest;
      }
      var code := taken.value;
      r := IssueTokens(id, code.clientID, code.subject, code.scope, code.resource, "", signed, refreshToken, drawnFamily, later);
    }

    /** Consumes the presented token; a used one revokes its family. */
    method TakeRefreshToken(ghost id: nat, presented: string, clientID: string, now: Instant) returns (r: Option<RefreshToken>)
      requires Synced() && id !in system.handlers
      modifies this, store
      ensures Synced() && system == DoRevokeReused(DoRotate(old(system), id, presented, clientID, now), id)
      ensures r.Some? ==> id in system.handlers && HandsOn(system.handlers[id], r.value)
      ensures r.None? ==> id !in system.handlers
      ensures var v := old(store.State());
        if Replayed(v, presented, now) then r.None? && RevokedExactly(v, store.State(), FamilyOf(v, presented))
        else
          && store.State() == (if Live(v, presented, now) then TokenSpent(v, presented) else v)
          && (if Rotatable(v, presented, clientID, now) then r == Some(store.refresh[HashSecret(presented)]) else r.None?)
    {
      var token := store.ConsumeRefreshToken(presented, now);
      system := DoRotate(system, id, presented, clientID, now);
      if token.Err? {
        if token.error == AlreadyUsed {
          var _ := store.RevokeRefreshFamily(presented);
        }
        system := DoRevokeReused(system, id);
        return None;
      }
      system := DoRevokeReused(system, id);
      return if token.value.clientID == clientID then Some(token.value) else None;
    }

    method RefreshTokenToken(ghost id: nat, presented: string, clientID: string, now: Instant,
                             signed: bool, refreshToken: string, drawnFamily: string, later: Instant) returns (r: Reply)
      requires Valid() && id !in system.handlers
      requires Fresh(system, refreshToken) && Fresh(system, drawnFamily) && refreshToken != drawnFamily
      modifies this, store
      ensures Valid()
      ensures system == TokensIssued(config, DoRevokeReused(DoRotate(old(system), id, presented, clientID, now), id), id, signed, refreshToken, drawnFamily, later)
      ensures var v := old(store.State());
        if Replayed(v, presented, now) then r == BadRequest && RevokedExactly(v, store.State(), FamilyOf(v, presented))
        else if !Rotatable(v, presented, clientID, now) then
          r == BadRequest && store.State() == if Live(v, presented, now) then TokenSpent(v, presented) else v
        else
          var t, spent := v.refresh[HashSecret(presented)], TokenSpent(v, presented);
          if !signed then r == ServerError && store.State() == spent
          else r == Tokens(refreshToken)
               && store.State() == TokenAdded(spent, refreshToken, if t.familyID == "" then drawnFamily else t.familyID,
                                              t.clientID, t.subject, t.scope, t.resource, later + config.refreshTTL)
    {
      RefreshTokenReachable(config, system, id, presented, clientID, now, signed, refreshToken, drawnFamily, later);
      var taken := TakeRefreshToken(id, presented, clientID, now);
      if taken.None? {
        system := Dropped(system, id);
        return BadRequest;
      }
      var t := taken.value;
      r := IssueTokens(id, t.clientID, t.subject, t.scope, t.resource, t.familyID, signed, refreshToken, drawnFamily, later);
    }

    method Revoke(token: string) returns (r: Reply)
      requires Valid()
      modifies this, store
      ensures Valid()
      ensures system == if token == "" then old(system) else TokenRevoked(old(system), token)
      ensures if token == "" then r == BadRequest && store.State() == old(store.State())
              else r == RevocationDone && RevokedExactly(old(store.State()), store.State(), {HashSecret(token)})
    {
      RevokeReachable(config, system, token);
      if token == "" {
        return BadRequest;
      }
      var _ := store.RevokeRefreshToken(token);
      system := TokenRevoked(system, token);
      return RevocationDone;
    }

    // ---- so the theorems about runs hold of the store itself ----

    /** Between requests a grant has at most one usable continuation. */
    lemma OneBaton(b1: Baton, b2: Baton)
      requires Valid() && GrantSafety.Held(system, b1) && GrantSafety.Held(system, b2)
      requires GrantSafety.GrantOf(system, b1) == GrantSafety.GrantOf(system, b2)
      ensures b1 == b2
    {
      var actions :| system == Run(config, Start, actions);
      GrantTheorems.SingleBaton(config, actions, b1, b2);
    }

    /** Every refresh token in the store goes back to an accepted request, an
        approval, an identification, a code and a verifier. */
    lemma StoredTokenProvenance(h: Digest) returns (r: AuthorizationRequest, redemption: Redemption, at: (nat, nat, nat, nat, nat))
      requires Valid() && h in store.State().refresh
      ensures var k := store.State().refresh[h];
        && (r.clientID, r.scope, r.resource) == (k.clientID, k.scope, k.resource)
        && GrantTheorems.Chain(config, system.log, at, OwnerOf(system, h), r, k.subject, redemption)
    {
      var actions :| system == Run(config, Start, actions);
      r, redemption, at := GrantTheorems.TokenProvenance(config, actions, h);
    }
  }
}
