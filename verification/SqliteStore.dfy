/** The SQLite store: rows of encoded columns, one transaction per call. Every
    method works on a copy of the rows and assigns it back where the source
    commits, and is proved to do to the decoded contents exactly what
    `Records.Execute` says the memory store does. */
module SqliteStores {
  import opened Records
  import opened Tables
  import Assertions

  /** A TEXT column holding JSON, modelled by what it decodes to. */
  datatype Json = Strings(items: seq<string>) | Request(request: AuthorizationRequest) | Garbled

  datatype CodeCols = CodeCols(
    clientID: string, redirectURI: string, codeChallenge: string, scope: Json, resource: string,
    subject: string, nonce: string, expiresAt: Instant, used: int)

  datatype TokenCols = TokenCols(
    familyID: string, clientID: string, subject: string, scope: Json, resource: string,
    expiresAt: Instant, used: int, revoked: int)

  datatype ConsentCols = ConsentCols(request: Json, nonce: string, expiresAt: Instant, codeVerifier: string)

  datatype SessionCols = SessionCols(
    accessToken: string, refreshToken: string, tokenType: string, expiresAt: Instant, scope: Json)

  function BoolInt(value: bool): int {
    if value then 1 else 0
  }

  function Items(text: Json): seq<string> {
    if text.Strings? then text.items else []
  }

  function DecodedCode(hash: Digest, c: CodeCols): AuthorizationCode {
    AuthorizationCode(hash, c.clientID, c.redirectURI, c.codeChallenge, Items(c.scope), c.resource, c.subject, c.nonce,
                      c.expiresAt, c.used != 0)
  }

  function DecodedToken(hash: Digest, c: TokenCols): RefreshToken {
    RefreshToken(hash, c.familyID, c.clientID, c.subject, Items(c.scope), c.resource, c.expiresAt, c.used != 0, c.revoked != 0)
  }

  function DecodedConsent(hash: Digest, c: ConsentCols): ConsentRequest {
    ConsentRequest(hash,
      if c.request.Request? then c.request.request else AuthorizationRequest("", "", [], "", "", "", "", ""),
      c.nonce, c.expiresAt, c.codeVerifier)
  }

  function DecodedSession(c: SessionCols): UpstreamSession {
    UpstreamSession(c.accessToken, c.refreshToken, c.tokenType, c.expiresAt, Items(c.scope))
  }

  // ---- the tables, decoded ----

  function CodesIn(rows: seq<Row<Digest, CodeCols>>): map<Digest, AuthorizationCode> {
    map h | h in Contents(rows) :: DecodedCode(h, Contents(rows)[h])
  }

  function TokensIn(rows: seq<Row<Digest, TokenCols>>): map<Digest, RefreshToken> {
    map h | h in Contents(rows) :: DecodedToken(h, Contents(rows)[h])
  }

  function ConsentIn(rows: seq<Row<Digest, ConsentCols>>): map<Digest, ConsentRequest> {
    map h | h in Contents(rows) :: DecodedConsent(h, Contents(rows)[h])
  }

  function SessionsIn(rows: seq<Row<string, SessionCols>>): map<string, UpstreamSession> {
    map u | u in Contents(rows) :: DecodedSession(Contents(rows)[u])
  }

  // ---- the statements ----

  function UseCode(rows: seq<Row<Digest, CodeCols>>, hash: Digest): seq<Row<Digest, CodeCols>> {
    Update(rows, (row: Row<Digest, CodeCols>) => row.key == hash && row.cols.used == 0, (c: CodeCols) => c.(used := 1))
  }

  function UseToken(rows: seq<Row<Digest, TokenCols>>, hash: Digest): seq<Row<Digest, TokenCols>> {
    Update(rows, (row: Row<Digest, TokenCols>) => row.key == hash && row.cols.used == 0 && row.cols.revoked == 0,
           (c: TokenCols) => c.(used := 1))
  }

  function RevokeWhere(rows: seq<Row<Digest, TokenCols>>, where: Row<Digest, TokenCols> -> bool): seq<Row<Digest, TokenCols>> {
    Update(rows, where, (c: TokenCols) => c.(revoked := 1))
  }

  lemma {:induction false} UseCodeDecoded(rows: seq<Row<Digest, CodeCols>>, hash: Digest)
    requires Keyed(rows) && hash in Contents(rows) && Contents(rows)[hash].used == 0
    ensures Keyed(UseCode(rows, hash))
    ensures CodesIn(UseCode(rows, hash)) == CodesIn(rows)[hash := CodesIn(rows)[hash].(used := true)]
    ensures CodesReadable(rows) ==> CodesReadable(UseCode(rows, hash))
  {
    UpdateContents(rows, (row: Row<Digest, CodeCols>) => row.key == hash && row.cols.used == 0, (c: CodeCols) => c.(used := 1));
  }

  lemma {:induction false} UseTokenDecoded(rows: seq<Row<Digest, TokenCols>>, hash: Digest)
    requires Keyed(rows) && hash in Contents(rows) && Contents(rows)[hash].used == 0 && Contents(rows)[hash].revoked == 0
    ensures Keyed(UseToken(rows, hash))
    ensures TokensIn(UseToken(rows, hash)) == TokensIn(rows)[hash := TokensIn(rows)[hash].(used := true)]
    ensures TokensReadable(rows) ==> TokensReadable(UseToken(rows, hash))
  {
    UpdateContents(rows, (row: Row<Digest, TokenCols>) => row.key == hash && row.cols.used == 0 && row.cols.revoked == 0,
                   (c: TokenCols) => c.(used := 1));
  }

  lemma {:induction false} RevokeWhereDecoded(rows: seq<Row<Digest, TokenCols>>, where: Row<Digest, TokenCols> -> bool)
    requires Keyed(rows)
    ensures Keyed(RevokeWhere(rows, where))
    ensures TokensIn(RevokeWhere(rows, where)) == map h | h in TokensIn(rows) ::
      if where(Row(h, Contents(rows)[h])) then TokensIn(rows)[h].(revoked := true) else TokensIn(rows)[h]
    ensures TokensReadable(rows) ==> TokensReadable(RevokeWhere(rows, where))
  {
    UpdateContents(rows, where, (c: TokenCols) => c.(revoked := 1));
  }

  lemma {:induction false} RevokeFamilyDecoded(rows: seq<Row<Digest, TokenCols>>, value: string, where: Row<Digest, TokenCols> -> bool)
    requires Keyed(rows) && HashSecret(value) in Contents(rows)
    requires var family := Contents(rows)[HashSecret(value)].familyID;
      if family == "" then forall r :: where(r) <==> r.key == HashSecret(value)
      else forall r :: where(r) <==> r.cols.familyID == family
    ensures Keyed(RevokeWhere(rows, where)) && (TokensReadable(rows) ==> TokensReadable(RevokeWhere(rows, where)))
    ensures TokensIn(RevokeWhere(rows, where)) == RevokeReplayed(TokensIn(rows), value)
  {
    RevokeWhereDecoded(rows, where);
  }

  /** The TEXT columns still hold what this store wrote there. */
  ghost predicate CodesReadable(rows: seq<Row<Digest, CodeCols>>) {
    forall h :: h in Contents(rows) ==> Contents(rows)[h].scope.Strings?
  }

  ghost predicate TokensReadable(rows: seq<Row<Digest, TokenCols>>) {
    forall h :: h in Contents(rows) ==> Contents(rows)[h].scope.Strings?
  }

  ghost predicate ConsentReadable(rows: seq<Row<Digest, ConsentCols>>) {
    forall h :: h in Contents(rows) ==> Contents(rows)[h].request.Request?
  }

  ghost predicate SessionsReadable(rows: seq<Row<string, SessionCols>>) {
    forall u :: u in Contents(rows) ==> Contents(rows)[u].scope.Strings?
  }

  class SQLiteStore {
    var codes: seq<Row<Digest, CodeCols>>
    var refresh: seq<Row<Digest, TokenCols>>
    var consent: seq<Row<Digest, ConsentCols>>
    var upstreamSessions: seq<Row<string, SessionCols>>
    var assertions: seq<Row<(string, string), Instant>>

    /** The primary keys hold. */
    ghost predicate Valid()
      reads this
    {
      Keyed(codes) && Keyed(refresh) && Keyed(consent) && Keyed(upstreamSessions) && Keyed(assertions)
    }

    ghost predicate Readable()
      reads this
    {
      CodesReadable(codes) && TokensReadable(refresh) && ConsentReadable(consent) && SessionsReadable(upstreamSessions)
    }

    function State(): Vault
      reads this
    {
      Vault(CodesIn(codes), TokensIn(refresh), ConsentIn(consent), SessionsIn(upstreamSessions))
    }

    constructor ()
      ensures Valid() && Readable() && State() == EmptyVault && assertions == []
    {
      codes, refresh, consent, upstreamSessions, assertions := [], [], [], [], [];
    }

    method ConsumeClientAssertionJTI(clientID: string, jti: string, expiresAt: Instant, now: Instant)
      returns (r: Result<()>)
      requires Valid()
      modifies this`assertions
      ensures Valid()
      ensures
        var attempt := Assertions.Attempt((clientID, jti), expiresAt, now);
        (Contents(assertions), r.Ok?) == Assertions.Consume(Assertions.Sqlite, Contents(old(assertions)), attempt)
      ensures r.Err? ==> r.error == AlreadyUsed
    {
      var expired := (row: Row<(string, string), Instant>) => row.cols < now;
      var tx := Delete(assertions, expired);
      DeleteContents(assertions, expired);
      assert Contents(tx) == Assertions.Purged(Contents(assertions), now);
      SelectContents(tx, (clientID, jti));
      if Select(tx, (clientID, jti)).Some? {
        return Err(AlreadyUsed);
      }
      InsertContents(tx, (clientID, jti), expiresAt);
      assertions := tx + [Row((clientID, jti), expiresAt)];
      return Ok(());
    }

    method SaveAuthorizationCode(code: AuthorizationCode)
      requires Valid()
      modifies this`codes
      ensures Valid() && (old(Readable()) ==> Readable())
      ensures (State(), Done) == Execute(old(State()), SaveCode(code))
    {
      var cols := CodeCols(code.clientID, code.redirectURI, code.codeChallenge, Strings(code.scope), code.resource,
                           code.subject, code.nonce, code.expiresAt, BoolInt(code.used));
      ReplaceContents(codes, code.valueHash, cols);
      codes := Replace(codes, code.valueHash, cols);
      assert CodesIn(codes) == old(CodesIn(codes))[code.valueHash := code];
    }

    method ConsumeAuthorizationCode(value: string, now: Instant) returns (r: Result<AuthorizationCode>)
      requires Valid()
      modifies this`codes
      ensures Valid()
      ensures old(Readable()) ==> Readable()
      ensures old(Readable()) ==>
        (State(), if r.Ok? then GotCode(r.value) else Failed(r.error)) == Execute(old(State()), ConsumeCode(value, now))
      ensures r.Err? ==> codes == old(codes)
    {
      var hash := HashSecret(value);
      SelectContents(codes, hash);
      var row := Select(codes, hash);
      if row.None? {
        return Err(NotFound);
      }
      var cols := row.value;
      if cols.expiresAt < now {
        return Err(NotFound);
      }
      if cols.used != 0 {
        return Err(AlreadyUsed);
      }
      if !cols.scope.Strings? {
        return Err(Malformed);
      }
      UseCodeDecoded(codes, hash);
      codes := UseCode(codes, hash);
      return Ok(DecodedCode(hash, cols.(used := 1)));
    }

    method SaveRefreshToken(token: RefreshToken)
      requires Valid()
      modifies this`refresh
      ensures Valid() && (old(Readable()) ==> Readable())
      ensures (State(), Done) == Execute(old(State()), SaveToken(token))
    {
      var cols := TokenCols(token.familyID, token.clientID, token.subject, Strings(token.scope), token.resource,
                            token.expiresAt, BoolInt(token.used), BoolInt(token.revoked));
      ReplaceContents(refresh, token.valueHash, cols);
      refresh := Replace(refresh, token.valueHash, cols);
      assert TokensIn(refresh) == old(TokensIn(refresh))[token.valueHash := token];
    }

    method ConsumeRefreshToken(value: string, now: Instant) returns (r: Result<RefreshToken>)
      requires Valid()
      modifies this`refresh
      ensures Valid()
      ensures old(Readable()) ==> Readable()
      ensures old(Readable()) ==>
        (State(), if r.Ok? then GotToken(r.value) else Failed(r.error)) == Execute(old(State()), ConsumeToken(value, now))
      ensures r.Err? ==> refresh == old(refresh)
    {
      var hash := HashSecret(value);
      SelectContents(refresh, hash);
      var row := Select(refresh, hash);
      if row.None? {
        return Err(NotFound);
      }
      var cols := row.value;
      if cols.expiresAt < now || cols.revoked != 0 {
        return Err(NotFound);
      }
      if cols.used != 0 {
        return Err(AlreadyUsed);
      }
      if !cols.scope.Strings? {
        return Err(Malformed);
      }
      UseTokenDecoded(refresh, hash);
      refresh := UseToken(refresh, hash);
      return Ok(DecodedToken(hash, cols.(used := 1)));
    }

    method RevokeRefreshToken(value: string) returns (r: Result<()>)
      requires Valid()
      modifies this`refresh
      ensures Valid() && (old(Readable()) ==> Readable())
      ensures (State(), if r.Ok? then Done else Failed(r.error)) == Execute(old(State()), RevokeToken(value))
    {
      var hash := HashSecret(value);
      var where := (row: Row<Digest, TokenCols>) => row.key == hash;
      var count := Affected(refresh, where);
      AffectedByKey(refresh, where, hash);
      RevokeWhereDecoded(refresh, where);
      refresh := RevokeWhere(refresh, where);
      assert TokensIn(refresh) == RevokeOne(old(TokensIn(refresh)), value);
      if count == 0 {
        return Err(NotFound);
      }
      return Ok(());
    }

    method RevokeRefreshFamily(value: string) returns (r: Result<()>)
      requires Valid()
      modifies this`refresh
      ensures Valid() && (old(Readable()) ==> Readable())
      ensures (State(), if r.Ok? then Done else Failed(r.error)) == Execute(old(State()), RevokeFamily(value))
    {
      var hash := HashSecret(value);
      SelectContents(refresh, hash);
      var row := Select(refresh, hash);
      if row.None? {
        return Err(NotFound);
      }
      var family := row.value.familyID;
      if family == "" {
        var where := (row: Row<Digest, TokenCols>) => row.key == hash;
        RevokeFamilyDecoded(refresh, value, where);
        refresh := RevokeWhere(refresh, where);
        return Ok(());
      }
      var where := (row: Row<Digest, TokenCols>) => row.cols.familyID == family;
      RevokeFamilyDecoded(refresh, value, where);
      refresh := RevokeWhere(refresh, where);
      return Ok(());
    }

    method SaveConsentRequest(request: ConsentRequest)
      requires Valid()
      modifies this`consent
      ensures Valid() && (old(Readable()) ==> Readable())
      ensures (State(), Done) == Execute(old(State()), SaveConsent(request))
    {
      var cols := ConsentCols(Request(request.request), request.nonce, request.expiresAt, request.codeVerifier);
      ReplaceContents(consent, request.valueHash, cols);
      consent := Replace(consent, request.valueHash, cols);
      assert ConsentIn(consent) == old(ConsentIn(consent))[request.valueHash := request];
    }

    method ConsumeConsentRequest(value: string, now: Instant) returns (r: Result<ConsentRequest>)
      requires Valid()
      modifies this`consent
      ensures Valid()
      ensures old(Readable()) ==> Readable()
      ensures old(Readable()) ==>
        (State(), if r.Ok? then GotConsent(r.value) else Failed(r.error)) == Execute(old(State()), ConsumeConsent(value, now))
      ensures r.Err? ==> consent == old(consent)
    {
      var hash := HashSecret(value);
      SelectContents(consent, hash);
      var row := Select(consent, hash);
      if row.None? {
        return Err(NotFound);
      }
      var cols := row.value;
      if cols.expiresAt < now {
        return Err(NotFound);
      }
      if !cols.request.Request? {
        return Err(Malformed);
      }
      var where := (row: Row<Digest, ConsentCols>) => row.key == hash;
      DeleteContents(consent, where);
      consent := Delete(consent, where);
      assert ConsentIn(consent) == old(ConsentIn(consent)) - {hash};
      return Ok(DecodedConsent(hash, cols));
    }

    method SaveUpstreamSession(subject: string, session: UpstreamSession)
      requires Valid()
      modifies this`upstreamSessions
      ensures Valid() && (old(Readable()) ==> Readable())
      ensures (State(), Done) == Execute(old(State()), SaveSession(subject, session))
    {
      var cols := SessionCols(session.accessToken, session.refreshToken, session.tokenType, session.expiresAt,
                              Strings(session.scope));
      ReplaceContents(upstreamSessions, subject, cols);
      upstreamSessions := Replace(upstreamSessions, subject, cols);
      assert SessionsIn(upstreamSessions) == old(SessionsIn(upstreamSessions))[subject := session];
    }

    method GetUpstreamSession(subject: string) returns (r: Result<UpstreamSession>)
      requires Valid()
      ensures Readable() ==>
        (State(), if r.Ok? then GotSession(r.value) else Failed(r.error)) == Execute(State(), GetSession(subject))
    {
      SelectContents(upstreamSessions, subject);
      var row := Select(upstreamSessions, subject);
      if row.None? {
        return Err(NotFound);
      }
      if !row.value.scope.Strings? {
        return Err(Malformed);
      }
      return Ok(DecodedSession(row.value));
    }

    /** The store interface: one call, whichever it is. */
    method Apply(call: Call) returns (a: Answer)
      requires Valid() && Readable()
      modifies this
      ensures Valid() && Readable() && (State(), a) == Execute(old(State()), call)
    {
      match call
      case SaveCode(code) => SaveAuthorizationCode(code); a := Done;
      case ConsumeCode(value, now) =>
        var r := ConsumeAuthorizationCode(value, now);
        a := if r.Ok? then GotCode(r.value) else Failed(r.error);
      case SaveToken(token) => SaveRefreshToken(token); a := Done;
      case ConsumeToken(value, now) =>
        var r := ConsumeRefreshToken(value, now);
        a := if r.Ok? then GotToken(r.value) else Failed(r.error);
      case RevokeToken(value) =>
        var r := RevokeRefreshToken(value);
        a := if r.Ok? then Done else Failed(r.error);
      case RevokeFamily(value) =>
        var r := RevokeRefreshFamily(value);
        a := if r.Ok? then Done else Failed(r.error);
      case SaveConsent(request) => SaveConsentRequest(request); a := Done;
      case ConsumeConsent(value, now) =>
        var r := ConsumeConsentRequest(value, now);
        a := if r.Ok? then GotConsent(r.value) else Failed(r.error);
      case SaveSession(subject, session) => SaveUpstreamSession(subject, session); a := Done;
      case GetSession(subject) =>
        var r := GetUpstreamSession(subject);
        a := if r.Ok? then GotSession(r.value) else Failed(r.error);
    }
  }
}
