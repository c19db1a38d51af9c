/** The records the authorization server stores, and what each store call means.
    `Execute` is the reference both store implementations are proved against, and
    the store the grant machine runs on. */
module Records {

  /** Nanoseconds since the epoch. */
  type Instant = int

  /** A SHA-256 digest, modelled symbolically: two digests are equal exactly when
      their preimages are. */
  datatype Digest = Sha256(preimage: string)

  function HashSecret(value: string): Digest {
    Sha256(value)
  }

  datatype Option<+T> = None | Some(value: T)

  datatype StoreError = NotFound | AlreadyUsed | Malformed

  datatype Result<+T> = Ok(value: T) | Err(error: StoreError)

  datatype AuthorizationRequest = AuthorizationRequest(
    clientID: string, redirectURI: string, scope: seq<string>, state: string,
    codeChallenge: string, resource: string, responseType: string, nonce: string)

  datatype AuthorizationCode = AuthorizationCode(
    valueHash: Digest, clientID: string, redirectURI: string, codeChallenge: string,
    scope: seq<string>, resource: string, subject: string, nonce: string,
    expiresAt: Instant, used: bool)

  datatype RefreshToken = RefreshToken(
    valueHash: Digest, familyID: string, clientID: string, subject: string,
    scope: seq<string>, resource: string, expiresAt: Instant, used: bool, revoked: bool)

  datatype ConsentRequest = ConsentRequest(
    valueHash: Digest, request: AuthorizationRequest, nonce: string,
    expiresAt: Instant, codeVerifier: string)

  datatype UpstreamSession = UpstreamSession(
    accessToken: string, refreshToken: string, tokenType: string,
    expiresAt: Instant, scope: seq<string>)

  /** The abstract contents of a store. */
  datatype Vault = Vault(
    codes: map<Digest, AuthorizationCode>,
    refresh: map<Digest, RefreshToken>,
    consent: map<Digest, ConsentRequest>,
    sessions: map<string, UpstreamSession>)

  const EmptyVault := Vault(map[], map[], map[], map[])

  datatype Call =
    | SaveCode(code: AuthorizationCode)
    | ConsumeCode(value: string, now: Instant)
    | SaveToken(token: RefreshToken)
    | ConsumeToken(value: string, now: Instant)
    | RevokeToken(value: string)
    | RevokeFamily(value: string)
    | SaveConsent(request: ConsentRequest)
    | ConsumeConsent(value: string, now: Instant)
    | SaveSession(subject: string, session: UpstreamSession)
    | GetSession(subject: string)

  datatype Answer =
    | Done
    | GotCode(code: AuthorizationCode)
    | GotToken(token: RefreshToken)
    | GotConsent(request: ConsentRequest)
    | GotSession(session: UpstreamSession)
    | Failed(error: StoreError)

  /** Every token of the family, in every key order, is revoked; nothing else moves. */
  function RevokedFamily(refresh: map<Digest, RefreshToken>, family: string): map<Digest, RefreshToken> {
    map h | h in refresh ::
      if refresh[h].familyID == family then refresh[h].(revoked := true) else refresh[h]
  }

  /** The second half of a family revocation: the rewrite, once the presented
      token's hash and family are known. */
  function RevokeSelected(refresh: map<Digest, RefreshToken>, hash: Digest, family: string): map<Digest, RefreshToken>
  {
    if family != "" then RevokedFamily(refresh, family)
    else if hash in refresh then refresh[hash := refresh[hash].(revoked := true)]
    else refresh
  }

  function TakeCode(codes: map<Digest, AuthorizationCode>, value: string, now: Instant)
    : (map<Digest, AuthorizationCode>, Result<AuthorizationCode>)
  {
    var h := HashSecret(value);
    if h !in codes || codes[h].expiresAt < now then (codes, Err(NotFound))
    else if codes[h].used then (codes, Err(AlreadyUsed))
    else (codes[h := codes[h].(used := true)], Ok(codes[h].(used := true)))
  }

  function TakeToken(refresh: map<Digest, RefreshToken>, value: string, now: Instant)
    : (map<Digest, RefreshToken>, Result<RefreshToken>)
  {
    var h := HashSecret(value);
    if h !in refresh || refresh[h].expiresAt < now || refresh[h].revoked then (refresh, Err(NotFound))
    else if refresh[h].used then (refresh, Err(AlreadyUsed))
    else (refresh[h := refresh[h].(used := true)], Ok(refresh[h].(used := true)))
  }

  function RevokeOne(refresh: map<Digest, RefreshToken>, value: string): map<Digest, RefreshToken> {
    var h := HashSecret(value);
    if h in refresh then refresh[h := refresh[h].(revoked := true)] else refresh
  }

  function RevokeReplayed(refresh: map<Digest, RefreshToken>, value: string): map<Digest, RefreshToken> {
    var h := HashSecret(value);
    if h in refresh then RevokeSelected(refresh, h, refresh[h].familyID) else refresh
  }

  function TakeConsent(consent: map<Digest, ConsentRequest>, value: string, now: Instant)
    : (map<Digest, ConsentRequest>, Result<ConsentRequest>)
  {
    var h := HashSecret(value);
    if h !in consent || consent[h].expiresAt < now then (consent, Err(NotFound))
    else (consent - {h}, Ok(consent[h]))
  }

  /** What one atomic store call does: the next contents and the answer. */
  function Execute(v: Vault, call: Call): (Vault, Answer) {
    match call
    case SaveCode(code) => (v.(codes := v.codes[code.valueHash := code]), Done)
    case ConsumeCode(value, now) =>
      var (codes, r) := TakeCode(v.codes, value, now);
      (v.(codes := codes), if r.Ok? then GotCode(r.value) else Failed(r.error))
    case SaveToken(token) => (v.(refresh := v.refresh[token.valueHash := token]), Done)
    case ConsumeToken(value, now) =>
      var (refresh, r) := TakeToken(v.refresh, value, now);
      (v.(refresh := refresh), if r.Ok? then GotToken(r.value) else Failed(r.error))
    case RevokeToken(value) =>
      (v.(refresh := RevokeOne(v.refresh, value)), if HashSecret(value) in v.refresh then Done else Failed(NotFound))
    case RevokeFamily(value) =>
      (v.(refresh := RevokeReplayed(v.refresh, value)), if HashSecret(value) in v.refresh then Done else Failed(NotFound))
    case SaveConsent(request) => (v.(consent := v.consent[request.valueHash := request]), Done)
    case ConsumeConsent(value, now) =>
      var (consent, r) := TakeConsent(v.consent, value, now);
      (v.(consent := consent), if r.Ok? then GotConsent(r.value) else Failed(r.error))
    case SaveSession(subject, session) => (v.(sessions := v.sessions[subject := session]), Done)
    case GetSession(subject) =>
      if subject in v.sessions then (v, GotSession(v.sessions[subject])) else (v, Failed(NotFound))
  }

  /** A whole run of store calls: the final contents and every answer in order. */
  function ExecuteAll(v: Vault, calls: seq<Call>): (r: (Vault, seq<Answer>))
    ensures |r.1| == |calls|
  {
    if calls == [] then (v, [])
    else
      var (v1, answers) := ExecuteAll(v, calls[..|calls| - 1]);
      var (v2, answer) := Execute(v1, calls[|calls| - 1]);
      (v2, answers + [answer])
  }

  /** A code is handed out at most once in any run, however calls interleave:
      after one successful consume, and as long as nobody saves that hash again,
      the same value is refused for ever. */
  lemma {:induction false} CodeConsumedOnce(v: Vault, value: string, now: Instant, calls: seq<Call>, later: Instant)
    requires Execute(v, ConsumeCode(value, now)).1.GotCode?
    requires forall i :: 0 <= i < |calls| ==> !(calls[i].SaveCode? && calls[i].code.valueHash == HashSecret(value))
    ensures
      var v1 := Execute(v, ConsumeCode(value, now)).0;
      var v2 := ExecuteAll(v1, calls).0;
      && HashSecret(value) in v2.codes && v2.codes[HashSecret(value)].used
      && Execute(v2, ConsumeCode(value, later)).1.Failed?
  {
    UsedStays(Execute(v, ConsumeCode(value, now)).0, HashSecret(value), calls);
  }

  lemma UsedKept(v: Vault, h: Digest, call: Call)
    requires h in v.codes && v.codes[h].used && !(call.SaveCode? && call.code.valueHash == h)
    ensures var v' := Execute(v, call).0; h in v'.codes && v'.codes[h].used
  {
  }

  lemma {:induction false} UsedStays(v: Vault, h: Digest, calls: seq<Call>)
    requires h in v.codes && v.codes[h].used
    requires forall i :: 0 <= i < |calls| ==> !(calls[i].SaveCode? && calls[i].code.valueHash == h)
    ensures var v' := ExecuteAll(v, calls).0; h in v'.codes && v'.codes[h].used
  {
    if calls != [] {
      UsedStays(v, h, calls[..|calls| - 1]);
      UsedKept(ExecuteAll(v, calls[..|calls| - 1]).0, h, calls[|calls| - 1]);
    }
  }

  /** Revoking a stored token changes this one flag and nothing else, and the token is
      refused as unknown for ever after, as long as nobody saves its hash again. */
  lemma {:induction false} TokenRevokedForGood(v: Vault, value: string, calls: seq<Call>, later: Instant)
    requires HashSecret(value) in v.refresh
    requires forall i :: 0 <= i < |calls| ==> !(calls[i].SaveToken? && calls[i].token.valueHash == HashSecret(value))
    ensures
      var h := HashSecret(value);
      var (v1, answer) := Execute(v, RevokeToken(value));
      var v2 := ExecuteAll(v1, calls).0;
      && answer == Done && v1 == v.(refresh := v.refresh[h := v.refresh[h].(revoked := true)])
      && h in v2.refresh && v2.refresh[h].revoked
      && Execute(v2, ConsumeToken(value, later)) == (v2, Failed(NotFound))
  {
    RevokedStays(Execute(v, RevokeToken(value)).0, HashSecret(value), calls);
  }

  lemma RevokedKept(v: Vault, h: Digest, call: Call)
    requires h in v.refresh && v.refresh[h].revoked && !(call.SaveToken? && call.token.valueHash == h)
    ensures var v' := Execute(v, call).0; h in v'.refresh && v'.refresh[h].revoked
  {
  }

  lemma {:induction false} RevokedStays(v: Vault, h: Digest, calls: seq<Call>)
    requires h in v.refresh && v.refresh[h].revoked
    requires forall i :: 0 <= i < |calls| ==> !(calls[i].SaveToken? && calls[i].token.valueHash == h)
    ensures var v' := ExecuteAll(v, calls).0; h in v'.refresh && v'.refresh[h].revoked
  {
    if calls != [] {
      RevokedStays(v, h, calls[..|calls| - 1]);
      RevokedKept(ExecuteAll(v, calls[..|calls| - 1]).0, h, calls[|calls| - 1]);
    }
  }

  lemma FamilyKept(v: Vault, h: Digest, call: Call)
    requires h in v.refresh && !(call.SaveToken? && call.token.valueHash == h)
    ensures var v' := Execute(v, call).0;
      h in v'.refresh && v'.refresh[h].familyID == v.refresh[h].familyID
  {
  }

  /** The family of a stored token never changes unless its hash is saved again. */
  lemma {:induction false} FamilyFixed(v: Vault, h: Digest, calls: seq<Call>)
    requires h in v.refresh
    requires forall i :: 0 <= i < |calls| ==> !(calls[i].SaveToken? && calls[i].token.valueHash == h)
    ensures
      var v' := ExecuteAll(v, calls).0;
      h in v'.refresh && v'.refresh[h].familyID == v.refresh[h].familyID
  {
    if calls != [] {
      FamilyFixed(v, h, calls[..|calls| - 1]);
      FamilyKept(ExecuteAll(v, calls[..|calls| - 1]).0, h, calls[|calls| - 1]);
    }
  }

  /** The SQLite store reads the family in one statement and rewrites it in a
      second, outside a transaction. Whatever runs between the two, the pair has
      the effect of one atomic revocation at the second statement. */
  lemma {:induction false} SplitRevocationIsAtomic(v: Vault, value: string, between: seq<Call>)
    requires HashSecret(value) in v.refresh
    requires forall i :: 0 <= i < |between| ==>
      !(between[i].SaveToken? && between[i].token.valueHash == HashSecret(value))
    ensures
      var h := HashSecret(value);
      var v' := ExecuteAll(v, between).0;
      && Execute(v', RevokeFamily(value)).1 == Done
      && v'.(refresh := RevokeSelected(v'.refresh, h, v.refresh[h].familyID)) == Execute(v', RevokeFamily(value)).0
  {
    FamilyFixed(v, HashSecret(value), between);
  }
}
