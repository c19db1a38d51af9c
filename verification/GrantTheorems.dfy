/** What the grant machine guarantees over every run from an empty store, under
    every interleaving of any number of requests. */
module GrantTheorems {
  import opened Records
  import opened Grants
  import opened GrantSafety
  import opened GrantHistory
  import opened GrantRules

  // ---- one baton per grant ----

  lemma HolderIsUnique(s: System, b: Baton)
    requires Shape(s) && Held(s, b)
    ensures GrantOf(s, b) in s.traces && s.traces[GrantOf(s, b)].holder == b
  {
  }

  /** At every moment of every run a grant has at most one usable continuation: a
      pending consent or upstream-state entry, or an unused code, or a live refresh
      token, or a handler that consumed one of these and has not replaced it. */
  lemma {:induction false} SingleBaton(c: Config, actions: seq<Action>, b1: Baton, b2: Baton)
    requires var s := Run(c, Start, actions); Held(s, b1) && Held(s, b2) && GrantOf(s, b1) == GrantOf(s, b2)
    ensures b1 == b2
  {
    RunKeepsInvariant(c, actions);
    HolderIsUnique(Run(c, Start, actions), b1);
    HolderIsUnique(Run(c, Start, actions), b2);
  }

  /** Over a whole run a grant yields at most one code. Codes are never deleted, so
      the final store shows every code ever saved. */
  lemma {:induction false} OneCodePerGrant(c: Config, actions: seq<Action>, h1: Digest, h2: Digest)
    requires var s := Run(c, Start, actions);
      h1 in s.vault.codes && h2 in s.vault.codes && OwnerOf(s, h1) == OwnerOf(s, h2)
    ensures h1 == h2
  {
    RunKeepsInvariant(c, actions);
    var s := Run(c, Start, actions);
    assert s.traces[OwnerOf(s, h1)].code == Some(h1) && s.traces[OwnerOf(s, h2)].code == Some(h2);
  }

  /** ... and at most one family; two tokens are in the same family exactly when
      they belong to the same grant, and then carry the same client, subject, scope
      and resource. */
  lemma {:induction false} FamilyIsGrant(c: Config, actions: seq<Action>, h1: Digest, h2: Digest)
    requires var s := Run(c, Start, actions); h1 in s.vault.refresh && h2 in s.vault.refresh
    ensures
      var s := Run(c, Start, actions);
      var k1, k2 := s.vault.refresh[h1], s.vault.refresh[h2];
      && k1.familyID != ""
      && (k1.familyID == k2.familyID <==> OwnerOf(s, h1) == OwnerOf(s, h2))
      && (k1.familyID == k2.familyID ==>
            (k1.clientID, k1.subject, k1.scope, k1.resource) == (k2.clientID, k2.subject, k2.scope, k2.resource))
  {
    RunKeepsInvariant(c, actions);
    var s := Run(c, Start, actions);
    assert TokenFits(s.traces[s.owner[h1]], h1, s.vault.refresh[h1]);
    assert TokenFits(s.traces[s.owner[h2]], h2, s.vault.refresh[h2]);
  }

  // ---- provenance ----

  /** The five moments behind a grant's tokens, in order. */
  ghost predicate Chain(c: Config, log: seq<Event>, at: (nat, nat, nat, nat, nat), g: Digest,
                        r: AuthorizationRequest, subject: string, redemption: Redemption)
  {
    && at.0 < at.1 < at.2 < at.3 < at.4 < |log|
    && log[at.0].Accepted? && log[at.0].grant == g && log[at.0].request == r && Admissible(c, log[at.0].client, r)
    && log[at.1] == Consented(g)
    && log[at.2] == Authenticated(g, subject)
    && log[at.3] == CodeSaved(g, subject, HashSecret(redemption.form.code))
    && log[at.4] == Verified(g, subject, redemption) && MatchesRequest(c, redemption, r)
  }

  lemma Earlier(c: Config, log: seq<Event>, i: nat, e: Event) returns (j: nat)
    requires LogBacked(c, log) && i < |log| && e in log[..i]
    ensures j < i && log[j] == e && Backed(c, log[..j], e)
  {
    j :| 0 <= j < i && log[..i][j] == e;
    assert log[j] == e;
  }

  lemma AcceptedOnce(c: Config, log: seq<Event>, i: nat, j: nat)
    requires LogBacked(c, log) && i < |log| && j < |log| && log[i].Accepted? && log[j].Accepted? && log[i].grant == log[j].grant
    ensures i == j && Admissible(c, log[i].client, log[i].request)
  {
    assert Backed(c, log[..i], log[i]) && Backed(c, log[..j], log[j]);
  }

  /** An approval lies before every identification, and the acceptance before that. */
  lemma ApprovedBefore(c: Config, log: seq<Event>, i: nat) returns (a: nat, b: nat)
    requires LogBacked(c, log) && i < |log| && log[i].Authenticated?
    ensures a < b < i && log[a].Accepted? && log[a].grant == log[i].grant && log[b] == Consented(log[i].grant)
  {
    assert Backed(c, log[..i], log[i]);
    b := Earlier(c, log, i, Consented(log[i].grant));
    var client, r :| Accepted(log[i].grant, client, r) in log[..b];
    a := Earlier(c, log, b, Accepted(log[i].grant, client, r));
  }

  lemma SavedAfterApproval(c: Config, log: seq<Event>, k: nat) returns (a: nat, b: nat, d: nat)
    requires LogBacked(c, log) && k < |log| && log[k].CodeSaved?
    ensures a < b < d < k && log[a].Accepted? && log[a].grant == log[k].grant && log[b] == Consented(log[k].grant)
    ensures log[d] == Authenticated(log[k].grant, log[k].subject)
  {
    assert Backed(c, log[..k], log[k]);
    d := Earlier(c, log, k, Authenticated(log[k].grant, log[k].subject));
    a, b := ApprovedBefore(c, log, d);
  }

  /** Before every redemption lie the acceptance of the request whose client, redirect
      URI, challenge and resource it repeats, an approval, an identification of the
      subject, and the saving of the very code it presents. */
  lemma VerifiedChain(c: Config, log: seq<Event>, f: nat) returns (r: AuthorizationRequest, at: (nat, nat, nat, nat, nat))
    requires LogBacked(c, log) && f < |log| && log[f].Verified?
    ensures Chain(c, log, at, log[f].grant, r, log[f].subject, log[f].redemption) && at.4 == f
  {
    var Verified(g, subject, redemption) := log[f];
    assert Backed(c, log[..f], log[f]);
    var e := Earlier(c, log, f, CodeSaved(g, subject, HashSecret(redemption.form.code)));
    var a, b, d := SavedAfterApproval(c, log, e);
    var client, accepted :| Accepted(g, client, accepted) in log[..f] && MatchesRequest(c, redemption, accepted);
    var i := Earlier(c, log, f, Accepted(g, client, accepted));
    AcceptedOnce(c, log, a, i);
    r, at := accepted, (a, b, d, e, f);
  }

  /** Over whole runs: whoever redeems a code presents the client, the redirect URI, the
      resource if any, and a verifier for the challenge, of the request that was accepted
      for it, and may use that redirect URI. */
  lemma {:induction false} RedeemedAsRequested(c: Config, actions: seq<Action>, f: nat) returns (r: AuthorizationRequest, at: (nat, nat, nat, nat, nat))
    requires var s := Run(c, Start, actions); f < |s.log| && s.log[f].Verified?
    ensures var log := Run(c, Start, actions).log;
      Chain(c, log, at, log[f].grant, r, log[f].subject, log[f].redemption) && at.4 == f
  {
    RunKeepsInvariant(c, actions);
    r, at := VerifiedChain(c, Run(c, Start, actions).log, f);
  }

  lemma CarriedChain(c: Config, s: System, g: Digest, clientID: string, subject: string, scope: seq<string>, resource: string)
    returns (r: AuthorizationRequest, redemption: Redemption, at: (nat, nat, nat, nat, nat))
    requires History(c, s) && g in s.traces && Carries(s.traces[g], clientID, subject, scope, resource)
    ensures (r.clientID, r.scope, r.resource) == (clientID, scope, resource)
    ensures Chain(c, s.log, at, g, r, subject, redemption)
  {
    var t := s.traces[g];
    redemption := t.redemption.value;
    assert TraceLogged(c, s.log, s.drawn, g, t);
    var f: nat :| f < |s.log| && s.log[f] == Verified(g, subject, redemption);
    r, at := VerifiedChain(c, s.log, f);
    var i: nat :| i < |s.log| && s.log[i] == Accepted(g, t.client, t.request);
    AcceptedOnce(c, s.log, at.0, i);
  }

  /** Every refresh token in the store, however often rotated, goes back to one
      accepted authorize request with the token's client, scope and resource, then a
      consent, then an identification with the token's subject, then its code, then
      its redemption as requested. */
  lemma TokenProvenance(c: Config, actions: seq<Action>, h: Digest)
    returns (r: AuthorizationRequest, redemption: Redemption, at: (nat, nat, nat, nat, nat))
    requires h in Run(c, Start, actions).vault.refresh
    ensures
      var s := Run(c, Start, actions);
      var k := s.vault.refresh[h];
      && (r.clientID, r.scope, r.resource) == (k.clientID, k.scope, k.resource)
      && Chain(c, s.log, at, OwnerOf(s, h), r, k.subject, redemption)
  {
    RunKeepsInvariant(c, actions);
    var s := Run(c, Start, actions);
    var k := s.vault.refresh[h];
    assert TokenFits(s.traces[s.owner[h]], h, k);
    r, redemption, at := CarriedChain(c, s, s.owner[h], k.clientID, k.subject, k.scope, k.resource);
  }

  /** The same holds for a handler about to sign an access token, before anything
      of that response is stored. */
  lemma AccessTokenProvenance(c: Config, actions: seq<Action>, id: nat)
    returns (r: AuthorizationRequest, redemption: Redemption, at: (nat, nat, nat, nat, nat))
    requires var s := Run(c, Start, actions); id in s.handlers && s.handlers[id].Issuing?
    ensures
      var s := Run(c, Start, actions);
      var k := s.handlers[id];
      && (r.clientID, r.scope, r.resource) == (k.clientID, k.scope, k.resource)
      && Chain(c, s.log, at, k.grant, r, k.subject, redemption)
  {
    RunKeepsInvariant(c, actions);
    var s := Run(c, Start, actions);
    var k := s.handlers[id];
    assert HandlerFits(s.traces[k.grant], id, k);
    r, redemption, at := CarriedChain(c, s, k.grant, k.clientID, k.subject, k.scope, k.resource);
  }

  /** A rotation only goes on for the client of the request that was accepted for the grant. */
  lemma {:induction false} RotatedAsRequested(c: Config, actions: seq<Action>, id: nat, token: string, clientID: string, now: Instant)
    returns (r: AuthorizationRequest, redemption: Redemption, at: (nat, nat, nat, nat, nat))
    requires var s := Run(c, Start, actions);
      id !in s.handlers && var s' := Step(c, s, Rotate(id, token, clientID, now)); id in s'.handlers && s'.handlers[id].Issuing?
    ensures var s := Run(c, Start, actions);
      var k := Step(c, s, Rotate(id, token, clientID, now)).handlers[id];
      && k.grant == OwnerOf(s, HashSecret(token)) && r.clientID == clientID == k.clientID
      && (r.scope, r.resource) == (k.scope, k.resource) && Chain(c, s.log, at, k.grant, r, k.subject, redemption)
  {
    RotateExactly(c, Run(c, Start, actions), id, token, clientID, now);
    r, redemption, at := TokenProvenance(c, actions, HashSecret(token));
  }

  lemma SavedChain(c: Config, log: seq<Event>, g: Digest, client: Client, r: AuthorizationRequest, subject: string, h: Digest)
    returns (at: (nat, nat, nat, nat))
    requires LogBacked(c, log) && Accepted(g, client, r) in log && CodeSaved(g, subject, h) in log
    ensures at.0 < at.1 < at.2 < at.3 < |log| && log[at.0] == Accepted(g, client, r) && log[at.1] == Consented(g)
    ensures log[at.2] == Authenticated(g, subject) && log[at.3] == CodeSaved(g, subject, h) && Admissible(c, client, r)
  {
    var k: nat :| k < |log| && log[k] == CodeSaved(g, subject, h);
    var i: nat :| i < |log| && log[i] == Accepted(g, client, r);
    var a, b, d := SavedAfterApproval(c, log, k);
    AcceptedOnce(c, log, a, i);
    at := (a, b, d, k);
  }

  /** No code without approval, although consent ids and upstream states share one
      table and either may be sent to either endpoint: the moment a stored code was
      saved, the acceptance of its request, for a client that may use its redirect URI,
      the approval of its grant and an identification of its subject lay behind it. */
  lemma NoCodeWithoutApproval(c: Config, actions: seq<Action>, h: Digest)
    returns (client: Client, r: AuthorizationRequest, at: (nat, nat, nat, nat))
    requires h in Run(c, Start, actions).vault.codes
    ensures
      var s := Run(c, Start, actions);
      var code, g := s.vault.codes[h], OwnerOf(s, h);
      && at.0 < at.1 < at.2 < at.3 < |s.log|
      && s.log[at.0] == Accepted(g, client, r) && Admissible(c, client, r) && s.log[at.1] == Consented(g)
      && s.log[at.2] == Authenticated(g, code.subject) && s.log[at.3] == CodeSaved(g, code.subject, h)
      && (r.clientID, r.redirectURI, r.scope, r.resource, r.codeChallenge)
         == (code.clientID, code.redirectURI, code.scope, code.resource, code.codeChallenge)
  {
    RunKeepsInvariant(c, actions);
    var s := Run(c, Start, actions);
    var g, subject := s.owner[h], s.vault.codes[h].subject;
    client, r := s.traces[g].client, s.traces[g].request;
    assert CodeFits(s.traces[g], h, s.vault.codes[h]);
    assert TraceLogged(c, s.log, s.drawn, g, s.traces[g]);
    at := SavedChain(c, s.log, g, client, r, subject, h);
  }
}
