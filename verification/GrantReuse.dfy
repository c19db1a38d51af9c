/** Reuse detection: a family revoked because one of its tokens was replayed. */
module GrantReuse {
  import opened Records
  import opened Grants
  import opened GrantSafety
  import opened GrantHistory
  import opened GrantRules

  function FamilyTokens(s: System, family: string): set<Digest> {
    set h | h in s.vault.refresh && s.vault.refresh[h].familyID == family
  }

  predicate Revoked(s: System, family: string) {
    forall h :: h in FamilyTokens(s, family) ==> s.vault.refresh[h].revoked
  }

  /** A handler has consumed a token of the family and not yet saved its successor. */
  predicate RotationInFlight(s: System, family: string) {
    exists id :: id in s.handlers && s.handlers[id].Issuing? && s.handlers[id].familyID == family
  }

  /** Presenting a token starts a family revocation exactly when it is stored, not
      expired, not revoked and already used: expiry and revocation are tested first. */
  lemma ReplayDetectedExactly(s: System, id: nat, token: string, clientID: string, now: Instant)
    requires id !in s.handlers
    ensures
      var s', h := DoRotate(s, id, token, clientID, now), HashSecret(token);
      (id in s'.handlers && s'.handlers[id] == Detected(token)) <==>
        (h in s.vault.refresh && s.vault.refresh[h].used && !s.vault.refresh[h].revoked && now <= s.vault.refresh[h].expiresAt)
  {
  }

  /** The revocation step reaches every token of the replayed token's family. */
  lemma RevocationReachesFamily(s: System, id: nat)
    requires id in s.handlers && s.handlers[id].Detected?
    requires var h := HashSecret(s.handlers[id].presented);
      h in s.vault.refresh && s.vault.refresh[h].familyID != ""
    ensures
      var family := s.vault.refresh[HashSecret(s.handlers[id].presented)].familyID;
      var s' := DoRevokeReused(s, id);
      Revoked(s', family) && FamilyTokens(s', family) == FamilyTokens(s, family)
      && (RotationInFlight(s', family) <==> RotationInFlight(s, family))
  {
    var family := s.vault.refresh[HashSecret(s.handlers[id].presented)].familyID;
    var s' := DoRevokeReused(s, id);
    assert forall h :: h in s.vault.refresh <==> h in s'.vault.refresh;
    if RotationInFlight(s, family) {
      var id' :| id' in s.handlers && s.handlers[id'].Issuing? && s.handlers[id'].familyID == family;
      assert id' in s'.handlers;
    }
  }

  /** Every token is revoked, no successor is on its way, and the name cannot be drawn again. */
  ghost predicate Dead(s: System, family: string) {
    family != "" && family in s.drawn && Revoked(s, family) && !RotationInFlight(s, family)
  }

  lemma RevokingKeepsDead(s: System, refresh: map<Digest, RefreshToken>, family: string)
    requires Dead(s, family) && refresh.Keys == s.vault.refresh.Keys
    requires forall h :: h in refresh ==> refresh[h] == s.vault.refresh[h] || refresh[h] == s.vault.refresh[h].(revoked := true)
    ensures var s' := s.(vault := s.vault.(refresh := refresh));
      Dead(s', family) && FamilyTokens(s', family) == FamilyTokens(s, family)
  {
    var s' := s.(vault := s.vault.(refresh := refresh));
    assert forall h :: h in refresh <==> h in s.vault.refresh;
  }

  lemma TakingKeepsDead(s: System, token: string, now: Instant, family: string)
    requires Shape(s) && Dead(s, family)
    ensures var (refresh, answer) := TakeToken(s.vault.refresh, token, now);
      var s' := s.(vault := s.vault.(refresh := refresh));
      && Dead(s', family) && FamilyTokens(s', family) == FamilyTokens(s, family)
      && (answer.Ok? ==> answer.value.familyID != family)
  {
    var answer := TakeToken(s.vault.refresh, token, now).1;
    if answer.Ok? { assert HashSecret(token) !in FamilyTokens(s, family); }
  }

  lemma RotateKeepsDead(s: System, id: nat, token: string, clientID: string, now: Instant, family: string)
    requires Shape(s) && Dead(s, family)
    ensures var s' := DoRotate(s, id, token, clientID, now);
      Dead(s', family) && FamilyTokens(s', family) == FamilyTokens(s, family)
  {
    if id !in s.handlers {
      TakingKeepsDead(s, token, now, family);
      HandlerKeepsDead(s.(vault := s.vault.(refresh := TakeToken(s.vault.refresh, token, now).0)), DoRotate(s, id, token, clientID, now), id, family);
    }
  }

  /** One new handler that does not rotate the family. */
  lemma HandlerKeepsDead(s: System, s': System, id: nat, family: string)
    requires Dead(s, family) && s'.vault.refresh == s.vault.refresh && s'.drawn == s.drawn
    requires s'.handlers - {id} == s.handlers - {id}
    requires id in s'.handlers && s'.handlers[id].Issuing? ==> s'.handlers[id].familyID != family
    ensures Dead(s', family) && FamilyTokens(s', family) == FamilyTokens(s, family)
  {
    forall other | other in s'.handlers && other != id ensures other in s.handlers && s'.handlers[other] == s.handlers[other] {
      assert other in s'.handlers - {id};
    }
  }

  lemma IssueKeepsDead(c: Config, s: System, id: nat, token: string, drawnFamily: string, now: Instant, family: string)
    requires Shape(s) && Dead(s, family)
    ensures var s' := DoIssue(c, s, id, token, drawnFamily, now);
      Dead(s', family) && FamilyTokens(s', family) == FamilyTokens(s, family)
  {
    var s' := DoIssue(c, s, id, token, drawnFamily, now);
    if s' != s {
      var h := HashSecret(token);
      assert h !in s.owner;
      OtherTokenKeepsDead(s, s', id, h, family);
    }
  }

  /** A new token of another family, from a handler that is gone. */
  lemma OtherTokenKeepsDead(s: System, s': System, id: nat, h: Digest, family: string)
    requires Dead(s, family) && h !in s.vault.refresh && s.drawn <= s'.drawn && s'.handlers == s.handlers - {id}
    requires h in s'.vault.refresh && s'.vault.refresh == s.vault.refresh[h := s'.vault.refresh[h]] && s'.vault.refresh[h].familyID != family
    ensures Dead(s', family) && FamilyTokens(s', family) == FamilyTokens(s, family)
  {
  }

  lemma HandlersKeepDead(s: System, s': System, family: string)
    requires Dead(s, family) && s'.vault.refresh == s.vault.refresh && s.drawn <= s'.drawn
    requires forall id :: id in s'.handlers && s'.handlers[id].Issuing? ==>
      s'.handlers[id].familyID == "" || (id in s.handlers && s'.handlers[id] == s.handlers[id])
    ensures Dead(s', family) && FamilyTokens(s', family) == FamilyTokens(s, family)
  {
  }

  lemma RedeemKeepsDead(c: Config, s: System, id: nat, form: CodeForm, client: Client, now: Instant, family: string)
    requires Dead(s, family)
    ensures var s' := DoRedeem(c, s, id, form, client, now);
      Dead(s', family) && FamilyTokens(s', family) == FamilyTokens(s, family)
  {
    HandlersKeepDead(s, DoRedeem(c, s, id, form, client, now), family);
  }

  ghost predicate IssuesNothing(s: System, s': System) {
    && s'.vault.refresh == s.vault.refresh && s.drawn <= s'.drawn
    && forall id :: id in s'.handlers && s'.handlers[id].Issuing? ==> id in s.handlers && s'.handlers[id] == s.handlers[id]
  }

  lemma ConsentStepsIssueNothing(c: Config, s: System, a: Action)
    requires a.Authorize? || a.FinishConsent? || a.BeginUpstream? || a.Authenticate?
    ensures IssuesNothing(s, Step(c, s, a))
  {
  }

  lemma CodeStepsIssueNothing(c: Config, s: System, a: Action)
    requires a.Callback? || a.Complete? || a.StoreSession? || a.StoreCode? || a.Abort?
    ensures IssuesNothing(s, Step(c, s, a))
  {
  }

  lemma StepKeepsDead(c: Config, s: System, a: Action, family: string)
    requires Shape(s) && Dead(s, family)
    ensures var s' := Step(c, s, a);
      Dead(s', family) && FamilyTokens(s', family) == FamilyTokens(s, family)
  {
    match a
    case Rotate(id, token, clientID, now) => RotateKeepsDead(s, id, token, clientID, now, family);
    case Issue(id, token, drawnFamily, now) => IssueKeepsDead(c, s, id, token, drawnFamily, now, family);
    case Redeem(id, form, client, now) => RedeemKeepsDead(c, s, id, form, client, now, family);
    case RevokeReused(id) =>
      if id in s.handlers && s.handlers[id].Detected? {
        var refresh := RevokeReplayed(s.vault.refresh, s.handlers[id].presented);
        RevokingKeepsDead(s, refresh, family);
        HandlersKeepDead(s.(vault := s.vault.(refresh := refresh)), Step(c, s, a), family);
      }
    case Revoke(token) => RevokingKeepsDead(s, RevokeOne(s.vault.refresh, token), family);
    case _ =>
      if a.Authorize? || a.FinishConsent? || a.BeginUpstream? || a.Authenticate? {
        ConsentStepsIssueNothing(c, s, a);
      } else {
        CodeStepsIssueNothing(c, s, a);
      }
      HandlersKeepDead(s, Step(c, s, a), family);
  }

  lemma {:induction false} RunKeepsDead(c: Config, s: System, after: seq<Action>, family: string)
    requires Shape(s) && Dead(s, family)
    ensures var s' := Run(c, s, after);
      Shape(s') && Dead(s', family) && FamilyTokens(s', family) == FamilyTokens(s, family)
  {
    if after != [] {
      var before := after[..|after| - 1];
      RunKeepsDead(c, s, before, family);
      StepKeepsShape(c, Run(c, s, before), after[|after| - 1]);
      StepKeepsDead(c, Run(c, s, before), after[|after| - 1], family);
    }
  }

  /** A family revoked on reuse stays dead: if no rotation of it is in flight when
      the revocation happens, then in every continuation no token of the family is
      added and none is accepted. */
  lemma {:induction false} RevokedFamilyStaysDead(c: Config, before: seq<Action>, id: nat, after: seq<Action>, token: string, now: Instant)
    requires var s := Run(c, Start, before);
      && id in s.handlers && s.handlers[id].Detected?
      && HashSecret(s.handlers[id].presented) in s.vault.refresh
      && !RotationInFlight(s, s.vault.refresh[HashSecret(s.handlers[id].presented)].familyID)
    requires var s := Run(c, Start, before);
      var family := s.vault.refresh[HashSecret(s.handlers[id].presented)].familyID;
      HashSecret(token) in FamilyTokens(Run(c, DoRevokeReused(s, id), after), family)
    ensures
      var s := Run(c, Start, before);
      var family := s.vault.refresh[HashSecret(s.handlers[id].presented)].familyID;
      var s' := Run(c, DoRevokeReused(s, id), after);
      && FamilyTokens(s', family) == FamilyTokens(s, family)
      && TakeToken(s'.vault.refresh, token, now).1 == Err(NotFound)
  {
    RunKeepsInvariant(c, before);
    var s := Run(c, Start, before);
    var family := DeadAfterRevocation(c, s, id, after);
    DeadRefused(Run(c, DoRevokeReused(s, id), after), family, token, now);
  }

  lemma DeadRefused(s: System, family: string, token: string, now: Instant)
    requires Dead(s, family) && HashSecret(token) in FamilyTokens(s, family)
    ensures TakeToken(s.vault.refresh, token, now).1 == Err(NotFound)
  {
  }

  lemma DeadAfterRevocation(c: Config, s: System, id: nat, after: seq<Action>) returns (family: string)
    requires Shape(s) && History(c, s) && id in s.handlers && s.handlers[id].Detected?
    requires HashSecret(s.handlers[id].presented) in s.vault.refresh
    requires !RotationInFlight(s, s.vault.refresh[HashSecret(s.handlers[id].presented)].familyID)
    ensures family == s.vault.refresh[HashSecret(s.handlers[id].presented)].familyID
    ensures var s' := Run(c, DoRevokeReused(s, id), after);
      Dead(s', family) && FamilyTokens(s', family) == FamilyTokens(s, family)
  {
    family := s.vault.refresh[HashSecret(s.handlers[id].presented)].familyID;
    FamilyNamed(c, s, HashSecret(s.handlers[id].presented));
    RevocationReachesFamily(s, id);
    var s1 := RevokedShape(s, id);
    RunKeepsDead(c, s1, after, family);
  }

  lemma RevokedShape(s: System, id: nat) returns (s': System)
    requires Shape(s) && id in s.handlers && s.handlers[id].Detected?
    ensures s' == DoRevokeReused(s, id) && Shape(s') && s'.drawn == s.drawn
  {
    s' := DoRevokeReused(s, id);
    RevokeKeepsShape(s, RevokeReplayed(s.vault.refresh, s.handlers[id].presented));
  }

  lemma FamilyNamed(c: Config, s: System, h: Digest)
    requires Shape(s) && History(c, s) && h in s.vault.refresh
    ensures s.vault.refresh[h].familyID != "" && s.vault.refresh[h].familyID in s.drawn
  {
    assert TokenFits(s.traces[s.owner[h]], h, s.vault.refresh[h]);
    assert TraceLogged(c, s.log, s.drawn, s.owner[h], s.traces[s.owner[h]]);
  }

  /** Random draws never run out. */
  lemma UndrawnExists(drawn: set<string>) returns (id: string)
    ensures id != "" && id !in drawn
  {
    var longest := LongerThanAll(drawn);
    id := seq(longest + 1, _ => 'x');
  }

  lemma {:induction false} LongerThanAll(drawn: set<string>) returns (n: nat)
    ensures forall id :: id in drawn ==> |id| <= n
    decreases drawn
  {
    if drawn == {} {
      n := 0;
    } else {
      var id :| id in drawn;
      var m := LongerThanAll(drawn - {id});
      n := if |id| > m then |id| else m;
      assert forall other :: other in drawn ==> other == id || other in drawn - {id};
    }
  }

  /** The in-flight condition is exact: a rotation in flight during the revocation
      still saves its successor, and that token is live. */
  lemma DeadExactlyWithoutRotation(c: Config, s: System, family: string)
    requires Shape(s) && family != "" && family in s.drawn && Revoked(s, family)
    ensures (forall after :: Revoked(Run(c, s, after), family)) <==> !RotationInFlight(s, family)
  {
    if RotationInFlight(s, family) {
      var id :| id in s.handlers && s.handlers[id].Issuing? && s.handlers[id].familyID == family;
      var token := UndrawnExists(s.drawn);
      var finish := [Issue(id, token, "", 0)];
      assert finish[..0] == [];
      assert Run(c, s, finish) == DoIssue(c, s, id, token, "", 0);
      assert HashSecret(token) in FamilyTokens(Run(c, s, finish), family);
      assert exists after :: !Revoked(Run(c, s, after), family) by {
        assert !Revoked(Run(c, s, finish), family);
      }
    } else {
      forall after ensures Revoked(Run(c, s, after), family) {
        RunKeepsDead(c, s, after, family);
      }
    }
  }

  // ---- one revoked token ----

  lemma StepKeepsRevoked(c: Config, s: System, a: Action, h: Digest)
    requires Shape(s) && h in s.vault.refresh && s.vault.refresh[h].revoked
    ensures var s' := Step(c, s, a); h in s'.vault.refresh && s'.vault.refresh[h].revoked
  {
    if a.Issue? {
      IssueKeepsRevoked(c, s, a.id, a.refreshToken, a.family, a.now, h);
    } else if a.Rotate? || a.RevokeReused? || a.Revoke? {
      TokenStepKeepsRevoked(c, s, a, h);
    } else {
      OtherStepKeepsRefresh(c, s, a);
    }
  }

  lemma OtherStepKeepsRefresh(c: Config, s: System, a: Action)
    requires !(a.Issue? || a.Rotate? || a.RevokeReused? || a.Revoke?)
    ensures Step(c, s, a).vault.refresh == s.vault.refresh
  {
    if a.Authorize? || a.FinishConsent? || a.BeginUpstream? || a.Authenticate? {
      ConsentStepsIssueNothing(c, s, a);
    } else if !a.Redeem? {
      CodeStepsIssueNothing(c, s, a);
    }
  }

  lemma IssueKeepsRevoked(c: Config, s: System, id: nat, token: string, drawnFamily: string, now: Instant, h: Digest)
    requires Shape(s) && h in s.vault.refresh && s.vault.refresh[h].revoked
    ensures var s' := DoIssue(c, s, id, token, drawnFamily, now); h in s'.vault.refresh && s'.vault.refresh[h].revoked
  {
  }

  lemma TokenStepKeepsRevoked(c: Config, s: System, a: Action, h: Digest)
    requires a.Rotate? || a.RevokeReused? || a.Revoke?
    requires h in s.vault.refresh && s.vault.refresh[h].revoked
    ensures var s' := Step(c, s, a); h in s'.vault.refresh && s'.vault.refresh[h].revoked
  {
  }

  lemma RevokeMarks(c: Config, s: System, token: string)
    requires Shape(s) && HashSecret(token) in s.vault.refresh
    ensures var s' := Step(c, s, Revoke(token));
      Shape(s') && HashSecret(token) in s'.vault.refresh && s'.vault.refresh[HashSecret(token)].revoked
  {
    RevokeExactly(c, s, token);
    StepKeepsShape(c, s, Revoke(token));
  }

  lemma RevokedIsRefused(c: Config, s: System, token: string, id: nat, clientID: string, now: Instant)
    requires HashSecret(token) in s.vault.refresh && s.vault.refresh[HashSecret(token)].revoked && id !in s.handlers
    ensures Execute(s.vault, ConsumeToken(token, now)) == (s.vault, Failed(NotFound))
    ensures Step(c, s, Rotate(id, token, clientID, now)) == s
  {
  }

  lemma {:induction false} RunKeepsRevoked(c: Config, s: System, after: seq<Action>, h: Digest)
    requires Shape(s) && h in s.vault.refresh && s.vault.refresh[h].revoked
    ensures var s' := Run(c, s, after); Shape(s') && h in s'.vault.refresh && s'.vault.refresh[h].revoked
  {
    if after != [] {
      var before := after[..|after| - 1];
      RunKeepsRevoked(c, s, before, h);
      StepKeepsShape(c, Run(c, s, before), after[|after| - 1]);
      StepKeepsRevoked(c, Run(c, s, before), after[|after| - 1], h);
    }
  }

  /** A token revoked at the revocation endpoint is refused as unknown whenever it is
      presented again, whatever happens in between; it is not a replay, so its family
      is not revoked for it. */
  lemma {:induction false} RevokedTokenStaysRefused(c: Config, before: seq<Action>, token: string, after: seq<Action>,
                                                    id: nat, clientID: string, now: Instant)
    requires HashSecret(token) in Run(c, Start, before).vault.refresh
    requires id !in Run(c, Step(c, Run(c, Start, before), Revoke(token)), after).handlers
    ensures var s := Run(c, Step(c, Run(c, Start, before), Revoke(token)), after);
      && Execute(s.vault, ConsumeToken(token, now)) == (s.vault, Failed(NotFound))
      && Step(c, s, Rotate(id, token, clientID, now)) == s
  {
    RunKeepsInvariant(c, before);
    var s0 := Run(c, Start, before);
    RevokeMarks(c, s0, token);
    RunKeepsRevoked(c, Step(c, s0, Revoke(token)), after, HashSecret(token));
    RevokedIsRefused(c, Run(c, Step(c, s0, Revoke(token)), after), token, id, clientID, now);
  }
}
