/** The grant lifecycle as a step machine: every HTTP handler of the authorization
    server is cut at its store calls, and any number of handlers interleave between
    those cuts. An action names the step, the request that causes it and the random
    values drawn; a disabled action leaves the system unchanged, so a run is any
    sequence of actions. No step looks at the fields marked as history. */
module Grants {
  import opened Records

  datatype Client = Client(id: string, redirectURIs: seq<string>)

  /** The deployment. The URL predicates and the S256 transform are parameters. */
  datatype Config = Config(
    resources: seq<string>,
    allowedScopes: seq<string>,
    codeTTL: int,
    refreshTTL: int,
    oidc: bool,
    nonceRequired: bool,
    callbackURL: string,
    redirectPermitted: (Client, string) -> bool,
    validRedirect: string -> bool,
    s256: string -> string)

  /** The query of GET /authorize; the scope text is already split at white space. */
  datatype Query = Query(
    clientID: string, redirectURI: string, scope: seq<string>, state: string, codeChallenge: string,
    codeChallengeMethod: string, resource: string, responseType: string, nonce: string)

  datatype CodeForm = CodeForm(code: string, clientID: string, redirectURI: string, codeVerifier: string, resource: string)

  /** A code request: the form and the client it authenticated as. */
  datatype Redemption = Redemption(client: Client, form: CodeForm)

  /** A request handler suspended between two store calls. */
  datatype Handler =
    | Approved(grant: Digest, pending: ConsentRequest)
    | Returned(grant: Digest, pending: ConsentRequest, state: string)
    | Identified(grant: Digest, pending: ConsentRequest, subject: string, session: Option<UpstreamSession>)
    | Issuing(grant: Digest, clientID: string, subject: string, scope: seq<string>, resource: string, familyID: string)
    | Detected(presented: string)

  /** What a grant can be continued with. */
  datatype Baton = Entry(hash: Digest) | Code(hash: Digest) | Token(hash: Digest) | InFlight(handler: nat)

  /** History of the run, in order. A grant is named by the digest of its first consent id. */
  datatype Event =
    | Accepted(grant: Digest, client: Client, request: AuthorizationRequest)
    | Consented(grant: Digest)
    | Authenticated(grant: Digest, subject: string)
    | CodeSaved(grant: Digest, subject: string, code: Digest)
    | Verified(grant: Digest, subject: string, redemption: Redemption)
    | Issued(grant: Digest, subject: string, clientID: string, scope: seq<string>, resource: string, family: string)

  /** History of one grant: its client and request, the baton last handed on, and the
      consent, subject, code, redemption and family it has gained so far. */
  datatype Trace = Trace(
    client: Client, request: AuthorizationRequest, holder: Baton, consented: bool, subject: Option<string>,
    code: Option<Digest>, redemption: Option<Redemption>, family: string)

  datatype System = System(
    vault: Vault,
    handlers: map<nat, Handler>,
    drawn: set<string>,            // every random id drawn so far
    owner: map<Digest, Digest>,    // history: the grant of every stored hash
    traces: map<Digest, Trace>,    // history
    log: seq<Event>)               // history

  const Start := System(EmptyVault, map[], {}, map[], map[], [])

  datatype Action =
    | Authorize(query: Query, client: Option<Client>, consentID: string, drawnNonce: string, now: Instant)
    | FinishConsent(id: nat, consentID: string, approved: bool, now: Instant)
    | BeginUpstream(id: nat, upstreamState: string, verifierHead: string, verifierTail: string, now: Instant)
    | Authenticate(id: nat, subject: string, session: Option<UpstreamSession>)
    | Callback(id: nat, state: string, upstreamError: bool, now: Instant)
    | Complete(id: nat, upstreamCode: string, subject: string, session: Option<UpstreamSession>)
    | StoreSession(id: nat)
    | StoreCode(id: nat, code: string, now: Instant)
    | Redeem(id: nat, form: CodeForm, authenticated: Client, now: Instant)
    | Rotate(id: nat, refreshToken: string, clientID: string, now: Instant)
    | RevokeReused(id: nat)
    | Issue(id: nat, refreshToken: string, family: string, now: Instant)
    | Revoke(token: string)
    | Abort(id: nat)

  predicate Fresh(s: System, id: string) {
    id != "" && id !in s.drawn
  }

  function Parse(c: Config, q: Query, client: Option<Client>): Option<AuthorizationRequest> {
    if client.None? then None
    else if q.responseType != "code" || q.codeChallenge == "" || q.codeChallengeMethod != "S256" then None
    else if !c.redirectPermitted(client.value, q.redirectURI) || !c.validRedirect(q.redirectURI) then None
    else
      var resource := if q.resource == "" && |c.resources| == 1 then c.resources[0] else q.resource;
      if resource !in c.resources then None
      else if exists scope :: scope in q.scope && scope !in c.allowedScopes then None
      else Some(AuthorizationRequest(q.clientID, q.redirectURI, q.scope, q.state, q.codeChallenge, resource, q.responseType, q.nonce))
  }

  /** What the server promises about every request it accepts. */
  predicate Admissible(c: Config, client: Client, r: AuthorizationRequest) {
    && r.resource in c.resources
    && (forall scope :: scope in r.scope ==> scope in c.allowedScopes)
    && r.codeChallenge != "" && r.responseType == "code"
    && c.redirectPermitted(client, r.redirectURI) && c.validRedirect(r.redirectURI)
  }

  /** The redemption repeats what was fixed for it, and its client may use the redirect URI. */
  predicate Matches(c: Config, redemption: Redemption, clientID: string, redirectURI: string, codeChallenge: string, resource: string) {
    var Redemption(client, form) := redemption;
    && form.clientID == clientID && form.redirectURI == redirectURI && (form.resource == "" || form.resource == resource)
    && c.redirectPermitted(client, redirectURI) && c.s256(form.codeVerifier) == codeChallenge
  }

  predicate MatchesRequest(c: Config, redemption: Redemption, r: AuthorizationRequest) {
    Matches(c, redemption, r.clientID, r.redirectURI, r.codeChallenge, r.resource)
  }

  predicate MatchesCode(c: Config, redemption: Redemption, code: AuthorizationCode) {
    Matches(c, redemption, code.clientID, code.redirectURI, code.codeChallenge, code.resource)
  }

  function WithEntry(v: Vault, entry: ConsentRequest): Vault {
    v.(consent := v.consent[entry.valueHash := entry])
  }

  function Accept(c: Config, s: System, client: Client, request: AuthorizationRequest, nonce: string, consentID: string, now: Instant): System {
    var g := HashSecret(consentID);
    s.(vault := WithEntry(s.vault, ConsentRequest(g, request, nonce, now + c.codeTTL, "")),
       drawn := s.drawn + {consentID},
       owner := s.owner[g := g],
       traces := s.traces[g := Trace(client, request, Entry(g), false, None, None, None, "")],
       log := s.log + [Accepted(g, client, request)])
  }

  function DoAuthorize(c: Config, s: System, q: Query, client: Option<Client>, consentID: string, drawnNonce: string, now: Instant): System {
    var parsed := Parse(c, q, client);
    if parsed.None? || !Fresh(s, consentID) then s
    else Accept(c, s, client.value, parsed.value, if q.nonce == "" then drawnNonce else q.nonce, consentID, now)
  }

  /** The history of a grant; every stored record has one once the machine runs. */
  function TraceOf(s: System, g: Digest): Trace {
    if g in s.traces then s.traces[g]
    else Trace(Client("", []), AuthorizationRequest("", "", [], "", "", "", "", ""), Entry(g), false, None, None, None, "")
  }

  function OwnerOf(s: System, h: Digest): Digest {
    if h in s.owner then s.owner[h] else h
  }

  function DoFinishConsent(s: System, id: nat, consentID: string, approved: bool, now: Instant): System {
    if id in s.handlers then s
    else
      var (consent, answer) := TakeConsent(s.vault.consent, consentID, now);
      var v := s.vault.(consent := consent);
      if answer.Err? || !approved then s.(vault := v)
      else
        var g := OwnerOf(s, HashSecret(consentID));
        s.(vault := v, handlers := s.handlers[id := Approved(g, answer.value)],
           traces := s.traces[g := TraceOf(s, g).(holder := InFlight(id), consented := true)],
           log := s.log + [Consented(g)])
  }

  function DoBeginUpstream(c: Config, s: System, id: nat, upstreamState: string, verifier: string, now: Instant): System {
    if !c.oidc || id !in s.handlers || !s.handlers[id].Approved? || !Fresh(s, upstreamState) || verifier == "" then s
    else
      var g, pending := s.handlers[id].grant, s.handlers[id].pending;
      if c.nonceRequired && pending.nonce == "" then s.(handlers := s.handlers - {id})
      else
        var h := HashSecret(upstreamState);
        s.(vault := WithEntry(s.vault, ConsentRequest(h, pending.request, pending.nonce, now + c.codeTTL, verifier)),
           handlers := s.handlers - {id}, drawn := s.drawn + {upstreamState},
           owner := s.owner[h := g], traces := s.traces[g := TraceOf(s, g).(holder := Entry(h))])
  }

  function DoAuthenticate(c: Config, s: System, id: nat, subject: string, session: Option<UpstreamSession>): System {
    if c.oidc || id !in s.handlers || !s.handlers[id].Approved? then s
    else
      var g := s.handlers[id].grant;
      s.(handlers := s.handlers[id := Identified(g, s.handlers[id].pending, subject, session)],
         traces := s.traces[g := TraceOf(s, g).(subject := Some(subject))],
         log := s.log + [Authenticated(g, subject)])
  }

  function DoCallback(c: Config, s: System, id: nat, state: string, upstreamError: bool, now: Instant): System {
    if !c.oidc || id in s.handlers then s
    else
      var (consent, answer) := TakeConsent(s.vault.consent, state, now);
      var v := s.vault.(consent := consent);
      if answer.Err? || upstreamError then s.(vault := v)
      else
        var g := OwnerOf(s, HashSecret(state));
        s.(vault := v, handlers := s.handlers[id := Returned(g, answer.value, state)],
           traces := s.traces[g := TraceOf(s, g).(holder := InFlight(id))])
  }

  /** The OIDC provider refuses an empty code, redirect URI, state or code verifier;
      past that guard its answer is up to the upstream provider. */
  function DoComplete(c: Config, s: System, id: nat, upstreamCode: string, subject: string, session: Option<UpstreamSession>): System {
    if id !in s.handlers || !s.handlers[id].Returned? then s
    else
      var h := s.handlers[id];
      if upstreamCode == "" || c.callbackURL == "" || h.state == "" || h.pending.codeVerifier == ""
      then s.(handlers := s.handlers - {id})
      else
        s.(handlers := s.handlers[id := Identified(h.grant, h.pending, subject, session)],
           traces := s.traces[h.grant := TraceOf(s, h.grant).(subject := Some(subject))],
           log := s.log + [Authenticated(h.grant, subject)])
  }

  function DoStoreSession(s: System, id: nat): System {
    if id !in s.handlers || !s.handlers[id].Identified? || s.handlers[id].session.None? then s
    else
      var h := s.handlers[id];
      s.(vault := s.vault.(sessions := s.vault.sessions[h.subject := h.session.value]),
         handlers := s.handlers[id := h.(session := None)])
  }

  function DoStoreCode(c: Config, s: System, id: nat, code: string, now: Instant): System {
    if id !in s.handlers || !s.handlers[id].Identified? || s.handlers[id].session.Some? || !Fresh(s, code) then s
    else
      var Identified(g, pending, subject, _) := s.handlers[id];
      var r, h := pending.request, HashSecret(code);
      var record := AuthorizationCode(h, r.clientID, r.redirectURI, r.codeChallenge, r.scope, r.resource, subject,
                                      pending.nonce, now + c.codeTTL, false);
      s.(vault := s.vault.(codes := s.vault.codes[h := record]),
         handlers := s.handlers - {id}, drawn := s.drawn + {code}, owner := s.owner[h := g],
         traces := s.traces[g := TraceOf(s, g).(holder := Code(h), code := Some(h))],
         log := s.log + [CodeSaved(g, subject, h)])
  }

  function DoRedeem(c: Config, s: System, id: nat, form: CodeForm, client: Client, now: Instant): System {
    if id in s.handlers then s
    else
      var (codes, answer) := TakeCode(s.vault.codes, form.code, now);
      var v := s.vault.(codes := codes);
      if answer.Err? then s.(vault := v)
      else
        var code := answer.value;
        var resource := if form.resource == "" then code.resource else form.resource;
        if code.clientID != form.clientID || code.redirectURI != form.redirectURI || !c.redirectPermitted(client, code.redirectURI)
           || c.s256(form.codeVerifier) != code.codeChallenge || resource != code.resource
        then s.(vault := v)
        else
          var g := OwnerOf(s, HashSecret(form.code));
          s.(vault := v,
             handlers := s.handlers[id := Issuing(g, code.clientID, code.subject, code.scope, resource, "")],
             traces := s.traces[g := TraceOf(s, g).(holder := InFlight(id), redemption := Some(Redemption(client, form)))],
             log := s.log + [Verified(g, code.subject, Redemption(client, form))])
  }

  function DoRotate(s: System, id: nat, refreshToken: string, clientID: string, now: Instant): System {
    if id in s.handlers then s
    else
      var (refresh, answer) := TakeToken(s.vault.refresh, refreshToken, now);
      var v := s.vault.(refresh := refresh);
      if answer == Err(AlreadyUsed) then s.(vault := v, handlers := s.handlers[id := Detected(refreshToken)])
      else if answer.Err? || answer.value.clientID != clientID then s.(vault := v)
      else
        var t, g := answer.value, OwnerOf(s, HashSecret(refreshToken));
        s.(vault := v,
           handlers := s.handlers[id := Issuing(g, t.clientID, t.subject, t.scope, t.resource, t.familyID)],
           traces := s.traces[g := TraceOf(s, g).(holder := InFlight(id))])
  }

  function DoRevokeReused(s: System, id: nat): System {
    if id !in s.handlers || !s.handlers[id].Detected? then s
    else
      s.(vault := s.vault.(refresh := RevokeReplayed(s.vault.refresh, s.handlers[id].presented)),
         handlers := s.handlers - {id})
  }

  function SaveSuccessor(c: Config, s: System, id: nat, refreshToken: string, family: string, now: Instant): System
    requires id in s.handlers && s.handlers[id].Issuing?
  {
    var Issuing(g, clientID, subject, scope, resource, _) := s.handlers[id];
    var h := HashSecret(refreshToken);
    var record := RefreshToken(h, family, clientID, subject, scope, resource, now + c.refreshTTL, false, false);
    s.(vault := s.vault.(refresh := s.vault.refresh[h := record]),
       handlers := s.handlers - {id}, drawn := s.drawn + {refreshToken, family}, owner := s.owner[h := g],
       traces := s.traces[g := TraceOf(s, g).(holder := Token(h), family := family)],
       log := s.log + [Issued(g, subject, clientID, scope, resource, family)])
  }

  function DoIssue(c: Config, s: System, id: nat, refreshToken: string, drawnFamily: string, now: Instant): System {
    if id !in s.handlers || !s.handlers[id].Issuing? || !Fresh(s, refreshToken)
       || (s.handlers[id].familyID == "" && (!Fresh(s, drawnFamily) || refreshToken == drawnFamily)) then s
    else
      SaveSuccessor(c, s, id, refreshToken, if s.handlers[id].familyID == "" then drawnFamily else s.handlers[id].familyID, now)
  }

  /** One step. `Abort` covers every way a handler ends early: a failed upstream
      call, a signing or store error, a dropped connection. */
  function Step(c: Config, s: System, a: Action): System {
    match a
    case Authorize(q, client, consentID, nonce, now) => DoAuthorize(c, s, q, client, consentID, nonce, now)
    case FinishConsent(id, consentID, approved, now) => DoFinishConsent(s, id, consentID, approved, now)
    case BeginUpstream(id, state, head, tail, now) => DoBeginUpstream(c, s, id, state, head + tail, now)
    case Authenticate(id, subject, session) => DoAuthenticate(c, s, id, subject, session)
    case Callback(id, state, upstreamError, now) => DoCallback(c, s, id, state, upstreamError, now)
    case Complete(id, code, subject, session) => DoComplete(c, s, id, code, subject, session)
    case StoreSession(id) => DoStoreSession(s, id)
    case StoreCode(id, code, now) => DoStoreCode(c, s, id, code, now)
    case Redeem(id, form, client, now) => DoRedeem(c, s, id, form, client, now)
    case Rotate(id, token, clientID, now) => DoRotate(s, id, token, clientID, now)
    case RevokeReused(id) => DoRevokeReused(s, id)
    case Issue(id, token, family, now) => DoIssue(c, s, id, token, family, now)
    case Revoke(token) => s.(vault := s.vault.(refresh := RevokeOne(s.vault.refresh, token)))
    case Abort(id) => s.(handlers := s.handlers - {id})
  }

  function Run(c: Config, s: System, actions: seq<Action>): System {
    if actions == [] then s
    else Step(c, Run(c, s, actions[..|actions| - 1]), actions[|actions| - 1])
  }
}
