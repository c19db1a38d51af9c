/** Lifetimes over whole runs: whatever is accepted was stored by an earlier step of
    the run, at most its time to live before. */
module GrantLifetimes {
  import opened Records
  import opened Grants
  import opened GrantRules

  /** The step stores this code, refresh token or entry, and its instant. */
  predicate StoresCode(a: Action, code: Digest) {
    a.StoreCode? && HashSecret(a.code) == code
  }

  predicate StoresToken(a: Action, token: Digest) {
    a.Issue? && HashSecret(a.refreshToken) == token
  }

  predicate StoresEntry(a: Action, entry: Digest) {
    (a.Authorize? && HashSecret(a.consentID) == entry) || (a.BeginUpstream? && HashSecret(a.upstreamState) == entry)
  }

  ghost predicate CodesDated(c: Config, s: System, actions: seq<Action>) {
    forall h :: h in s.vault.codes ==>
      exists k :: 0 <= k < |actions| && StoresCode(actions[k], h) && s.vault.codes[h].expiresAt == actions[k].now + c.codeTTL
  }

  ghost predicate TokensDated(c: Config, s: System, actions: seq<Action>) {
    forall h :: h in s.vault.refresh ==>
      exists k :: 0 <= k < |actions| && StoresToken(actions[k], h) && s.vault.refresh[h].expiresAt == actions[k].now + c.refreshTTL
  }

  ghost predicate EntriesDated(c: Config, s: System, actions: seq<Action>) {
    forall h :: h in s.vault.consent ==>
      exists k :: 0 <= k < |actions| && StoresEntry(actions[k], h) && s.vault.consent[h].expiresAt == actions[k].now + c.codeTTL
  }

  lemma ConsentStepsKeep(c: Config, s: System, a: Action)
    requires a.Authorize? || a.FinishConsent? || a.BeginUpstream? || a.Callback?
    ensures Step(c, s, a).vault.codes == s.vault.codes && Step(c, s, a).vault.refresh == s.vault.refresh
  {
  }

  lemma CodeStepsKeep(c: Config, s: System, a: Action)
    requires a.StoreCode? || a.Redeem?
    ensures Step(c, s, a).vault.consent == s.vault.consent && Step(c, s, a).vault.refresh == s.vault.refresh
  {
  }

  lemma TokenStepsKeep(c: Config, s: System, a: Action)
    requires a.Issue? || a.Rotate? || a.RevokeReused? || a.Revoke?
    ensures Step(c, s, a).vault.consent == s.vault.consent && Step(c, s, a).vault.codes == s.vault.codes
  {
  }

  lemma OtherStepsKeep(c: Config, s: System, a: Action)
    requires a.Authenticate? || a.Complete? || a.StoreSession? || a.Abort?
    ensures var v := Step(c, s, a).vault; v.consent == s.vault.consent && v.codes == s.vault.codes && v.refresh == s.vault.refresh
  {
  }

  /** A step keeps the expiry of what is stored and dates what it stores. */
  lemma StepDatesCodes(c: Config, s: System, a: Action)
    ensures var s' := Step(c, s, a);
      forall h :: h in s'.vault.codes ==>
        || (h in s.vault.codes && s'.vault.codes[h].expiresAt == s.vault.codes[h].expiresAt)
        || (StoresCode(a, h) && s'.vault.codes[h].expiresAt == a.now + c.codeTTL)
  {
    if a.Authorize? || a.FinishConsent? || a.BeginUpstream? || a.Callback? {
      ConsentStepsKeep(c, s, a);
    } else if a.Issue? || a.Rotate? || a.RevokeReused? || a.Revoke? {
      TokenStepsKeep(c, s, a);
    } else if a.Authenticate? || a.Complete? || a.StoreSession? || a.Abort? {
      OtherStepsKeep(c, s, a);
    }
  }

  lemma StepDatesTokens(c: Config, s: System, a: Action)
    ensures var s' := Step(c, s, a);
      forall h :: h in s'.vault.refresh ==>
        || (h in s.vault.refresh && s'.vault.refresh[h].expiresAt == s.vault.refresh[h].expiresAt)
        || (StoresToken(a, h) && s'.vault.refresh[h].expiresAt == a.now + c.refreshTTL)
  {
    if a.Authorize? || a.FinishConsent? || a.BeginUpstream? || a.Callback? {
      ConsentStepsKeep(c, s, a);
    } else if a.StoreCode? || a.Redeem? {
      CodeStepsKeep(c, s, a);
    } else if a.Authenticate? || a.Complete? || a.StoreSession? || a.Abort? {
      OtherStepsKeep(c, s, a);
    }
  }

  lemma StepDatesEntries(c: Config, s: System, a: Action)
    ensures var s' := Step(c, s, a);
      forall h :: h in s'.vault.consent ==>
        || (h in s.vault.consent && s'.vault.consent[h].expiresAt == s.vault.consent[h].expiresAt)
        || (StoresEntry(a, h) && s'.vault.consent[h].expiresAt == a.now + c.codeTTL)
  {
    if a.StoreCode? || a.Redeem? {
      CodeStepsKeep(c, s, a);
    } else if a.Issue? || a.Rotate? || a.RevokeReused? || a.Revoke? {
      TokenStepsKeep(c, s, a);
    } else if a.Authenticate? || a.Complete? || a.StoreSession? || a.Abort? {
      OtherStepsKeep(c, s, a);
    }
  }

  lemma CodesStayDated(c: Config, s: System, actions: seq<Action>, a: Action)
    requires CodesDated(c, s, actions)
    ensures CodesDated(c, Step(c, s, a), actions + [a])
  {
    var s', longer := Step(c, s, a), actions + [a];
    StepDatesCodes(c, s, a);
    forall h | h in s'.vault.codes
      ensures exists k :: 0 <= k < |longer| && StoresCode(longer[k], h) && s'.vault.codes[h].expiresAt == longer[k].now + c.codeTTL
    {
      if h in s.vault.codes && s'.vault.codes[h].expiresAt == s.vault.codes[h].expiresAt {
        var k :| 0 <= k < |actions| && StoresCode(actions[k], h) && s.vault.codes[h].expiresAt == actions[k].now + c.codeTTL;
        assert longer[k] == actions[k];
      } else {
        assert longer[|actions|] == a;
      }
    }
  }

  lemma TokensStayDated(c: Config, s: System, actions: seq<Action>, a: Action)
    requires TokensDated(c, s, actions)
    ensures TokensDated(c, Step(c, s, a), actions + [a])
  {
    var s', longer := Step(c, s, a), actions + [a];
    StepDatesTokens(c, s, a);
    forall h | h in s'.vault.refresh
      ensures exists k :: 0 <= k < |longer| && StoresToken(longer[k], h) && s'.vault.refresh[h].expiresAt == longer[k].now + c.refreshTTL
    {
      if h in s.vault.refresh && s'.vault.refresh[h].expiresAt == s.vault.refresh[h].expiresAt {
        var k :| 0 <= k < |actions| && StoresToken(actions[k], h) && s.vault.refresh[h].expiresAt == actions[k].now + c.refreshTTL;
        assert longer[k] == actions[k];
      } else {
        assert longer[|actions|] == a;
      }
    }
  }

  lemma EntriesStayDated(c: Config, s: System, actions: seq<Action>, a: Action)
    requires EntriesDated(c, s, actions)
    ensures EntriesDated(c, Step(c, s, a), actions + [a])
  {
    var s', longer := Step(c, s, a), actions + [a];
    StepDatesEntries(c, s, a);
    forall h | h in s'.vault.consent
      ensures exists k :: 0 <= k < |longer| && StoresEntry(longer[k], h) && s'.vault.consent[h].expiresAt == longer[k].now + c.codeTTL
    {
      if h in s.vault.consent && s'.vault.consent[h].expiresAt == s.vault.consent[h].expiresAt {
        var k :| 0 <= k < |actions| && StoresEntry(actions[k], h) && s.vault.consent[h].expiresAt == actions[k].now + c.codeTTL;
        assert longer[k] == actions[k];
      } else {
        assert longer[|actions|] == a;
      }
    }
  }

  lemma {:induction false} RunDated(c: Config, actions: seq<Action>)
    ensures var s := Run(c, Start, actions);
      CodesDated(c, s, actions) && TokensDated(c, s, actions) && EntriesDated(c, s, actions)
  {
    if actions != [] {
      var n := |actions| - 1;
      RunDated(c, actions[..n]);
      var s := Run(c, Start, actions[..n]);
      CodesStayDated(c, s, actions[..n], actions[n]);
      TokensStayDated(c, s, actions[..n], actions[n]);
      EntriesStayDated(c, s, actions[..n], actions[n]);
      assert actions[..n] + [actions[n]] == actions;
    }
  }

  /** A code is redeemed at most its time to live after the step that stored it. */
  lemma {:induction false} RedeemedInTime(c: Config, actions: seq<Action>, id: nat, form: CodeForm, client: Client, now: Instant)
    requires var s := Run(c, Start, actions);
      id !in s.handlers && id in Step(c, s, Redeem(id, form, client, now)).handlers
    ensures exists k :: 0 <= k < |actions| && StoresCode(actions[k], HashSecret(form.code)) && now <= actions[k].now + c.codeTTL
  {
    RunDated(c, actions);
    RedeemExactly(c, Run(c, Start, actions), id, form, client, now);
  }

  /** A refresh token is rotated, or its replay noticed, at most its time to live after
      the step that issued it. */
  lemma {:induction false} RotatedInTime(c: Config, actions: seq<Action>, id: nat, token: string, clientID: string, now: Instant)
    requires var s := Run(c, Start, actions);
      id !in s.handlers && id in Step(c, s, Rotate(id, token, clientID, now)).handlers
    ensures exists k :: 0 <= k < |actions| && StoresToken(actions[k], HashSecret(token)) && now <= actions[k].now + c.refreshTTL
  {
    RunDated(c, actions);
    RotateExactly(c, Run(c, Start, actions), id, token, clientID, now);
  }

  /** A consent id or an upstream state is answered at most its time to live after the
      step that made it, at either endpoint. */
  lemma {:induction false} AnsweredInTime(c: Config, actions: seq<Action>, id: nat, value: string, now: Instant)
    requires var s := Run(c, Start, actions);
      id !in s.handlers && (id in Step(c, s, FinishConsent(id, value, true, now)).handlers || id in Step(c, s, Callback(id, value, false, now)).handlers)
    ensures exists k :: 0 <= k < |actions| && StoresEntry(actions[k], HashSecret(value)) && now <= actions[k].now + c.codeTTL
  {
    RunDated(c, actions);
    FinishConsentExactly(c, Run(c, Start, actions), id, value, true, now);
    if c.oidc {
      CallbackExactly(c, Run(c, Start, actions), id, value, false, now);
    }
  }
}
