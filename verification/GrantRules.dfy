/** What each step of the grant machine needs and does, read off the request, the
    stored records and the suspended handler. */
module GrantRules {
  import opened Records
  import opened Grants

  // ---- what a request needs ----

  /** The resource named, or the only one configured when none is named. */
  function NamedResource(c: Config, q: Query): string {
    if q.resource == "" && |c.resources| == 1 then c.resources[0] else q.resource
  }

  predicate Acceptable(c: Config, q: Query, client: Option<Client>) {
    && client.Some?
    && q.responseType == "code" && q.codeChallenge != "" && q.codeChallengeMethod == "S256"
    && c.redirectPermitted(client.value, q.redirectURI) && c.validRedirect(q.redirectURI)
    && NamedResource(c, q) in c.resources
    && forall scope :: scope in q.scope ==> scope in c.allowedScopes
  }

  function Requested(c: Config, q: Query): AuthorizationRequest {
    AuthorizationRequest(q.clientID, q.redirectURI, q.scope, q.state, q.codeChallenge, NamedResource(c, q), "code", q.nonce)
  }

  predicate Pending(v: Vault, value: string, now: Instant) {
    HashSecret(value) in v.consent && now <= v.consent[HashSecret(value)].expiresAt
  }

  predicate Unspent(v: Vault, value: string, now: Instant) {
    var h := HashSecret(value);
    h in v.codes && !v.codes[h].used && now <= v.codes[h].expiresAt
  }

  predicate Redeemable(c: Config, v: Vault, redemption: Redemption, now: Instant) {
    Unspent(v, redemption.form.code, now) && MatchesCode(c, redemption, v.codes[HashSecret(redemption.form.code)])
  }

  predicate Current(v: Vault, token: string, now: Instant) {
    var h := HashSecret(token);
    h in v.refresh && !v.refresh[h].revoked && now <= v.refresh[h].expiresAt
  }

  predicate Live(v: Vault, token: string, now: Instant) {
    Current(v, token, now) && !v.refresh[HashSecret(token)].used
  }

  predicate Replayed(v: Vault, token: string, now: Instant) {
    Current(v, token, now) && v.refresh[HashSecret(token)].used
  }

  predicate Rotatable(v: Vault, token: string, clientID: string, now: Instant) {
    Live(v, token, now) && v.refresh[HashSecret(token)].clientID == clientID
  }

  /** The identity provider's own guards. */
  predicate Completable(c: Config, h: Handler, upstreamCode: string) {
    h.Returned? && h.pending.codeVerifier != "" && h.state != "" && upstreamCode != "" && c.callbackURL != ""
  }

  // ---- what a request leaves behind ----

  function EntryRemoved(v: Vault, value: string): Vault {
    v.(consent := v.consent - {HashSecret(value)})
  }

  function EntryAdded(v: Vault, id: string, request: AuthorizationRequest, nonce: string, expiresAt: Instant, verifier: string): Vault {
    v.(consent := v.consent[HashSecret(id) := ConsentRequest(HashSecret(id), request, nonce, expiresAt, verifier)])
  }

  function CodeAdded(v: Vault, code: string, pending: ConsentRequest, subject: string, expiresAt: Instant): Vault {
    var r, h := pending.request, HashSecret(code);
    v.(codes := v.codes[h := AuthorizationCode(h, r.clientID, r.redirectURI, r.codeChallenge, r.scope, r.resource, subject,
                                               pending.nonce, expiresAt, false)])
  }

  function CodeSpent(v: Vault, code: string): Vault
    requires HashSecret(code) in v.codes
  {
    v.(codes := v.codes[HashSecret(code) := v.codes[HashSecret(code)].(used := true)])
  }

  function TokenSpent(v: Vault, token: string): Vault
    requires HashSecret(token) in v.refresh
  {
    v.(refresh := v.refresh[HashSecret(token) := v.refresh[HashSecret(token)].(used := true)])
  }

  function TokenAdded(v: Vault, token: string, family: string, clientID: string, subject: string, scope: seq<string>,
                      resource: string, expiresAt: Instant): Vault {
    var h := HashSecret(token);
    v.(refresh := v.refresh[h := RefreshToken(h, family, clientID, subject, scope, resource, expiresAt, false, false)])
  }

  /** Exactly the chosen tokens are revoked; no record is added, dropped or changed otherwise. */
  ghost predicate RevokedExactly(v: Vault, v': Vault, chosen: set<Digest>) {
    && v'.codes == v.codes && v'.consent == v.consent && v'.sessions == v.sessions && v'.refresh.Keys == v.refresh.Keys
    && forall h :: h in v.refresh ==> v'.refresh[h] == if h in chosen then v.refresh[h].(revoked := true) else v.refresh[h]
  }

  /** The presented token, and all of its family if it has one. */
  function FamilyOf(v: Vault, token: string): set<Digest> {
    set h | h in v.refresh && (h == HashSecret(token)
      || (HashSecret(token) in v.refresh && v.refresh[h].familyID == v.refresh[HashSecret(token)].familyID != ""))
  }

  // ---- the steps ----

  lemma AuthorizeExactly(c: Config, s: System, q: Query, client: Option<Client>, consentID: string, drawnNonce: string, now: Instant)
    requires Fresh(s, consentID)
    ensures var s', g := Step(c, s, Authorize(q, client, consentID, drawnNonce, now)), HashSecret(consentID);
      if Acceptable(c, q, client) then
        && s'.vault == EntryAdded(s.vault, consentID, Requested(c, q), if q.nonce == "" then drawnNonce else q.nonce, now + c.codeTTL, "")
        && s'.handlers == s.handlers && s'.drawn == s.drawn + {consentID} && s'.owner == s.owner[g := g]
        && s'.log == s.log + [Accepted(g, client.value, Requested(c, q))]
      else s' == s
  {
  }

  lemma FinishConsentExactly(c: Config, s: System, id: nat, consentID: string, approved: bool, now: Instant)
    requires id !in s.handlers
    ensures var s', h := Step(c, s, FinishConsent(id, consentID, approved, now)), HashSecret(consentID);
      && s'.vault == (if Pending(s.vault, consentID, now) then EntryRemoved(s.vault, consentID) else s.vault)
      && s'.drawn == s.drawn && s'.owner == s.owner
      && (if Pending(s.vault, consentID, now) && approved
          then s'.handlers == s.handlers[id := Approved(OwnerOf(s, h), s.vault.consent[h])] && s'.log == s.log + [Consented(OwnerOf(s, h))]
          else s'.handlers == s.handlers && s'.log == s.log)
  {
  }

  lemma BeginUpstreamExactly(c: Config, s: System, id: nat, state: string, head: string, tail: string, now: Instant)
    requires c.oidc && id in s.handlers && s.handlers[id].Approved? && Fresh(s, state) && head + tail != ""
    ensures var s', h := Step(c, s, BeginUpstream(id, state, head, tail, now)), s.handlers[id];
      && s'.handlers == s.handlers - {id} && s'.log == s.log
      && if c.nonceRequired && h.pending.nonce == "" then s'.vault == s.vault
         else s'.vault == EntryAdded(s.vault, state, h.pending.request, h.pending.nonce, now + c.codeTTL, head + tail)
              && s'.drawn == s.drawn + {state} && s'.owner == s.owner[HashSecret(state) := h.grant]
  {
  }

  lemma AuthenticateExactly(c: Config, s: System, id: nat, subject: string, session: Option<UpstreamSession>)
    requires !c.oidc && id in s.handlers && s.handlers[id].Approved?
    ensures var s', h := Step(c, s, Authenticate(id, subject, session)), s.handlers[id];
      && s'.handlers == s.handlers[id := Identified(h.grant, h.pending, subject, session)]
      && s'.vault == s.vault && s'.drawn == s.drawn && s'.owner == s.owner && s'.log == s.log + [Authenticated(h.grant, subject)]
  {
  }

  lemma CallbackExactly(c: Config, s: System, id: nat, state: string, upstreamError: bool, now: Instant)
    requires c.oidc && id !in s.handlers
    ensures var s', h := Step(c, s, Callback(id, state, upstreamError, now)), HashSecret(state);
      && s'.vault == (if Pending(s.vault, state, now) then EntryRemoved(s.vault, state) else s.vault)
      && s'.drawn == s.drawn && s'.owner == s.owner && s'.log == s.log
      && s'.handlers == if Pending(s.vault, state, now) && !upstreamError
                        then s.handlers[id := Returned(OwnerOf(s, h), s.vault.consent[h], state)] else s.handlers
  {
  }

  lemma CompleteExactly(c: Config, s: System, id: nat, upstreamCode: string, subject: string, session: Option<UpstreamSession>)
    requires id in s.handlers && s.handlers[id].Returned?
    ensures var s', h := Step(c, s, Complete(id, upstreamCode, subject, session)), s.handlers[id];
      && s'.vault == s.vault && s'.drawn == s.drawn && s'.owner == s.owner
      && if Completable(c, h, upstreamCode)
         then s'.handlers == s.handlers[id := Identified(h.grant, h.pending, subject, session)] && s'.log == s.log + [Authenticated(h.grant, subject)]
         else s'.handlers == s.handlers - {id} && s'.log == s.log
  {
  }

  lemma StoreSessionExactly(c: Config, s: System, id: nat)
    requires id in s.handlers && s.handlers[id].Identified? && s.handlers[id].session.Some?
    ensures var s', h := Step(c, s, StoreSession(id)), s.handlers[id];
      s' == s.(vault := s.vault.(sessions := s.vault.sessions[h.subject := h.session.value]),
               handlers := s.handlers[id := Identified(h.grant, h.pending, h.subject, None)])
  {
  }

  lemma StoreCodeExactly(c: Config, s: System, id: nat, code: string, now: Instant)
    requires id in s.handlers && s.handlers[id].Identified? && s.handlers[id].session.None? && Fresh(s, code)
    ensures var s', h := Step(c, s, StoreCode(id, code, now)), s.handlers[id];
      && s'.vault == CodeAdded(s.vault, code, h.pending, h.subject, now + c.codeTTL)
      && s'.handlers == s.handlers - {id} && s'.drawn == s.drawn + {code} && s'.owner == s.owner[HashSecret(code) := h.grant]
      && s'.log == s.log + [CodeSaved(h.grant, h.subject, HashSecret(code))]
  {
  }

  /** A code is spent when it is presented unspent and unexpired, whoever presents it;
      tokens follow exactly when the presentation also matches the code. */
  lemma RedeemExactly(c: Config, s: System, id: nat, form: CodeForm, client: Client, now: Instant)
    requires id !in s.handlers
    ensures var s', h := Step(c, s, Redeem(id, form, client, now)), HashSecret(form.code);
      && s'.vault == (if Unspent(s.vault, form.code, now) then CodeSpent(s.vault, form.code) else s.vault)
      && s'.drawn == s.drawn && s'.owner == s.owner
      && if Redeemable(c, s.vault, Redemption(client, form), now) then
           var code := s.vault.codes[h];
           && s'.handlers == s.handlers[id := Issuing(OwnerOf(s, h), code.clientID, code.subject, code.scope, code.resource, "")]
           && s'.log == s.log + [Verified(OwnerOf(s, h), code.subject, Redemption(client, form))]
         else s'.handlers == s.handlers && s'.log == s.log
  {
  }

  /** A live token is spent when it is presented, whoever presents it; a successor
      follows exactly for its own client. A replay is noted for its revocation. */
  lemma RotateExactly(c: Config, s: System, id: nat, token: string, clientID: string, now: Instant)
    requires id !in s.handlers
    ensures var s', h := Step(c, s, Rotate(id, token, clientID, now)), HashSecret(token);
      && s'.vault == (if Live(s.vault, token, now) then TokenSpent(s.vault, token) else s.vault)
      && s'.drawn == s.drawn && s'.owner == s.owner && s'.log == s.log
      && s'.handlers ==
           if Replayed(s.vault, token, now) then s.handlers[id := Detected(token)]
           else if Rotatable(s.vault, token, clientID, now) then
             var k := s.vault.refresh[h];
             s.handlers[id := Issuing(OwnerOf(s, h), k.clientID, k.subject, k.scope, k.resource, k.familyID)]
           else s.handlers
  {
  }

  lemma RevokeReusedExactly(c: Config, s: System, id: nat)
    requires id in s.handlers && s.handlers[id].Detected?
    ensures var s' := Step(c, s, RevokeReused(id));
      && RevokedExactly(s.vault, s'.vault, FamilyOf(s.vault, s.handlers[id].presented))
      && s'.handlers == s.handlers - {id} && s'.drawn == s.drawn && s'.owner == s.owner && s'.log == s.log
  {
  }

  lemma IssueExactly(c: Config, s: System, id: nat, token: string, drawnFamily: string, now: Instant)
    requires id in s.handlers && s.handlers[id].Issuing? && Fresh(s, token) && Fresh(s, drawnFamily) && token != drawnFamily
    ensures var s', k := Step(c, s, Issue(id, token, drawnFamily, now)), s.handlers[id];
      var family := if k.familyID == "" then drawnFamily else k.familyID;
      && s'.vault == TokenAdded(s.vault, token, family, k.clientID, k.subject, k.scope, k.resource, now + c.refreshTTL)
      && s'.handlers == s.handlers - {id} && s'.drawn == s.drawn + {token, family} && s'.owner == s.owner[HashSecret(token) := k.grant]
      && s'.log == s.log + [Issued(k.grant, k.subject, k.clientID, k.scope, k.resource, family)]
  {
  }

  lemma RevokeExactly(c: Config, s: System, token: string)
    ensures var s' := Step(c, s, Revoke(token));
      RevokedExactly(s.vault, s'.vault, {HashSecret(token)}) && s' == s.(vault := s'.vault)
  {
  }

  /** The provider decides which way an approval goes on, and a session is stored before
      the code of its login. */
  lemma NotItsTurn(c: Config, s: System, a: Action)
    ensures !c.oidc && (a.BeginUpstream? || a.Callback?) ==> Step(c, s, a) == s
    ensures c.oidc && a.Authenticate? ==> Step(c, s, a) == s
    ensures a.StoreCode? && a.id in s.handlers && s.handlers[a.id].Identified? && s.handlers[a.id].session.Some? ==> Step(c, s, a) == s
  {
  }
}
