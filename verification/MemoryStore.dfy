/** The in-memory store. Each method holds the mutex from entry to return, so each
    is one atomic step, proved equal to the step `Records.Execute` describes. */
module MemoryStores {
  import opened Records
  import Assertions

  class MemoryStore {
    var codes: map<Digest, AuthorizationCode>
    var refresh: map<Digest, RefreshToken>
    var consent: map<Digest, ConsentRequest>
    var upstreamSessions: map<string, UpstreamSession>
    var assertions: map<string, Instant>

    function State(): Vault
      reads this
    {
      Vault(codes, refresh, consent, upstreamSessions)
    }

    constructor ()
      ensures State() == EmptyVault && assertions == map[]
    {
      codes, refresh, consent, upstreamSessions, assertions := map[], map[], map[], map[], map[];
    }

    method ConsumeClientAssertionJTI(clientID: string, jti: string, expiresAt: Instant, now: Instant)
      returns (r: Result<()>)
      modifies this`assertions
      ensures
        var attempt := Assertions.Attempt(Assertions.MemoryKey(clientID, jti), expiresAt, now);
        (assertions, r.Ok?) == Assertions.Consume(Assertions.Memory, old(assertions), attempt)
      ensures r.Err? ==> r.error == AlreadyUsed
    {
      var todo := assertions.Keys;
      while todo != {}
        invariant todo <= assertions.Keys <= old(assertions).Keys
        invariant forall k :: k in assertions <==> k in old(assertions) && (k in todo || !(old(assertions)[k] < now))
        invariant forall k :: k in assertions ==> assertions[k] == old(assertions)[k]
        decreases |todo|
      {
        var key :| key in todo;
        todo := todo - {key};
        if assertions[key] < now {
          assertions := assertions - {key};
        }
      }
      assert assertions == Assertions.Purged(old(assertions), now);
      var key := Assertions.MemoryKey(clientID, jti);
      if key in assertions && assertions[key] > now {
        return Err(AlreadyUsed);
      }
      assertions := assertions[key := expiresAt];
      return Ok(());
    }

    method SaveAuthorizationCode(code: AuthorizationCode)
      modifies this`codes
      ensures (State(), Done) == Execute(old(State()), SaveCode(code))
    {
      codes := codes[code.valueHash := code];
    }

    method ConsumeAuthorizationCode(value: string, now: Instant) returns (r: Result<AuthorizationCode>)
      modifies this`codes
      ensures (State(), if r.Ok? then GotCode(r.value) else Failed(r.error))
           == Execute(old(State()), ConsumeCode(value, now))
    {
      var hash := HashSecret(value);
      if hash !in codes || codes[hash].expiresAt < now {
        return Err(NotFound);
      }
      var code := codes[hash];
      if code.used {
        return Err(AlreadyUsed);
      }
      code := code.(used := true);
      codes := codes[hash := code];
      return Ok(code);
    }

    method SaveRefreshToken(token: RefreshToken)
      modifies this`refresh
      ensures (State(), Done) == Execute(old(State()), SaveToken(token))
    {
      refresh := refresh[token.valueHash := token];
    }

    method ConsumeRefreshToken(value: string, now: Instant) returns (r: Result<RefreshToken>)
      modifies this`refresh
      ensures (State(), if r.Ok? then GotToken(r.value) else Failed(r.error))
           == Execute(old(State()), ConsumeToken(value, now))
    {
      var hash := HashSecret(value);
      if hash !in refresh || refresh[hash].expiresAt < now || refresh[hash].revoked {
        return Err(NotFound);
      }
      var token := refresh[hash];
      if token.used {
        return Err(AlreadyUsed);
      }
      token := token.(used := true);
      refresh := refresh[hash := token];
      return Ok(token);
    }

    method RevokeRefreshToken(value: string) returns (r: Result<()>)
      modifies this`refresh
      ensures (State(), if r.Ok? then Done else Failed(r.error)) == Execute(old(State()), RevokeToken(value))
    {
      var hash := HashSecret(value);
      if hash !in refresh {
        return Err(NotFound);
      }
      refresh := refresh[hash := refresh[hash].(revoked := true)];
      return Ok(());
    }

    method RevokeRefreshFamily(value: string) returns (r: Result<()>)
      modifies this`refresh
      ensures (State(), if r.Ok? then Done else Failed(r.error)) == Execute(old(State()), RevokeFamily(value))
    {
      var hash := HashSecret(value);
      if hash !in refresh {
        return Err(NotFound);
      }
      var token := refresh[hash];
      if token.familyID == "" {
        refresh := refresh[hash := token.(revoked := true)];
        return Ok(());
      }
      var todo := refresh.Keys;
      while todo != {}
        invariant todo <= refresh.Keys == old(refresh).Keys
        invariant forall k :: k in refresh ==>
          refresh[k] == (if k !in todo && old(refresh)[k].familyID == token.familyID
                         then old(refresh)[k].(revoked := true) else old(refresh)[k])
        decreases |todo|
      {
        var key :| key in todo;
        todo := todo - {key};
        var candidate := refresh[key];
        if candidate.familyID == token.familyID {
          refresh := refresh[key := candidate.(revoked := true)];
        }
      }
      assert refresh == RevokedFamily(old(refresh), token.familyID);
      return Ok(());
    }

    method SaveConsentRequest(request: ConsentRequest)
      modifies this`consent
      ensures (State(), Done) == Execute(old(State()), SaveConsent(request))
    {
      consent := consent[request.valueHash := request];
    }

    method ConsumeConsentRequest(value: string, now: Instant) returns (r: Result<ConsentRequest>)
      modifies this`consent
      ensures (State(), if r.Ok? then GotConsent(r.value) else Failed(r.error))
           == Execute(old(State()), ConsumeConsent(value, now))
    {
      var hash := HashSecret(value);
      if hash !in consent || consent[hash].expiresAt < now {
        return Err(NotFound);
      }
      var request := consent[hash];
      consent := consent - {hash};
      return Ok(request);
    }

    method SaveUpstreamSession(subject: string, session: UpstreamSession)
      modifies this`upstreamSessions
      ensures (State(), Done) == Execute(old(State()), SaveSession(subject, session))
    {
      upstreamSessions := upstreamSessions[subject := session];
    }

    method GetUpstreamSession(subject: string) returns (r: Result<UpstreamSession>)
      ensures (State(), if r.Ok? then GotSession(r.value) else Failed(r.error))
           == Execute(State(), GetSession(subject))
    {
      if subject !in upstreamSessions {
        return Err(NotFound);
      }
      return Ok(upstreamSessions[subject]);
    }

    /** The store interface: one call, whichever it is. */
    method Apply(call: Call) returns (a: Answer)
      modifies this
      ensures (State(), a) == Execute(old(State()), call)
    {
      match call
      case SaveCode(code) => SaveAuthorizationCode(code); a := Done;
      case ConsumeCode(value, now) =>
        var r := ConsumeAuthorizationCode(value, now);
        a := if r.Ok? then GotCode(r.value) else Failed(r.error);
      case SaveToken(token) => SaveRefreshToken(token); a := Done;
      case ConsumeToken(value, now) =>
        var r := ConsumeRefreshToken(value, now);
        a := if r.Ok? then GotToken(r.value) else Failed(r.error);
      case RevokeToken(value) =>
        var r := RevokeRefreshToken(value);
        a := if r.Ok? then Done else Failed(r.error);
      case RevokeFamily(value) =>
        var r := RevokeRefreshFamily(value);
        a := if r.Ok? then Done else Failed(r.error);
      case SaveConsent(request) => SaveConsentRequest(request); a := Done;
      case ConsumeConsent(value, now) =>
        var r := ConsumeConsentRequest(value, now);
        a := if r.Ok? then GotConsent(r.value) else Failed(r.error);
      case SaveSession(subject, session) => SaveUpstreamSession(subject, session); a := Done;
      case GetSession(subject) =>
        var r := GetUpstreamSession(subject);
        a := if r.Ok? then GotSession(r.value) else Failed(r.error);
    }
  }
}
