# A verified model of mcp-auth

mcp-auth is an OAuth authorization server for MCP deployments (Go) with client
libraries in Go, Python and TypeScript. This project models its stateful core in
Dafny and proves what that core keeps over whole runs.

- `Records`, `MemoryStore`, `Tables`, `SqliteStore`, `StoreRefinement`: the stored
  records, what each store call means, and both stores proved against it. `StoreHistory`
  reads every answer off the calls made before. `Assertions` is the one-time use of client
  assertions, `Migration` the SQLite schema migration.
- `Grants`, `GrantRules`, `GrantSafety`, `GrantHistory`, `GrantTheorems`, `GrantReuse`,
  `GrantLifetimes`: the grant lifecycle as a step machine. Every handler is cut at its store calls and any number
  of requests interleave between the cuts. `Server` is the handlers as methods over the
  memory store, each proved equal to its steps and to keep the server in a state of a run.
- `KeyRefreshes`, `KeyCacheGo`, `KeyCachePython`, `KeyCacheTypeScript`: the three JWKS
  key caches as concurrent protocols (two locks; an asyncio lock; one promise slot).
  `EarlyRefresh` is when the TypeScript one can refresh twice in an interval.
- `Lru`, `ContainerList`, `TokenCache`, `OrderedCaches`, `ExchangeKey`,
  `ExchangeClient`: the three bounded token caches against one recency-ordered sequence,
  and the key that feeds them.
- `Challenge`, `Discovery`: the `WWW-Authenticate` printers and parser, and the
  addresses clients derive against the routes and resources the server answers for.
- `UpstreamSession`: refreshing the upstream token set, alone and interleaved.

How the system is idealised:

- SHA-256 is symbolic: equal digests have equal preimages. The S256 transform, the
  redirect checks and the hex digest of cache keys are parameters.
- Random ids are inputs of a step that must not have been drawn before.
- A store method that holds the mutex, and a SQLite transaction, is one step.
- Clock readings are inputs. Where order matters they do not decrease. Times are
  unbounded integers; the zero time of a verifier is an absent value.
- A network call is an input: any answer or a failure. A dropped connection or a failed
  signature is a handler that ends early.
- Fields marked as history record what happened; no step looks at them.
- Each induction is written out as a recursive call; automatic induction is switched off.

What the code does not do in general, with the exact condition proved:

- A family revoked on reuse comes back if one of its rotations is in flight at that
  moment: the successor is still saved (`GrantReuse.DeadExactlyWithoutRotation`).
- A metadata URL ending in `scope=` makes the client read back a wrong scope
  (`Challenges.ScopeRoundTrip`).
- A value with an unprintable character in a Go challenge does not come back to a reader
  of quoted strings as RFC 9110 section 5.6.4 defines them (`Challenges.GoValueRead`).
- Overlapping refreshes of one upstream session can restore a spent refresh token
  (`UpstreamSessions.NewestExactly`, reached by `UpstreamSessions.OverlapLosesRotation`).
- A TypeScript key refresh can follow another within the interval that `throttled`
  guards (`EarlyRefreshes.EarlyExactly`, reached by `EarlyRefreshes.BackToBack`).
- A key in the cache can be refused from the recent-miss list, although the comments at
  verifier.ts:138-140 and verifier.py:148-152 rule a refusal out; it takes a TTL below
  both other limits (`PythonKeyCache.CachedRefusalExactly`,
  `TypeScriptKeyCache.CachedRefusalExactly`).
- The TypeScript client misses the metadata of an issuer written with a trailing slash
  after its path (`Discovery.TypeScriptIsServed`).
- Exchange keys collide: across subjects and audiences for a NUL
  (`ExchangeKeys.NulCollidesExactly`), across scopes when the sorted scopes have the same
  words (`ExchangeKeys.SharedKeyExactly`, `ExchangeKeys.TwoWordsCollideExactly`).
- The two stores differ on a client assertion repeated exactly at its expiry
  (`Assertions.StoresAgreeExactly`).
- A SQLite file whose creation was interrupted cannot be opened again
  (`Migration.ReopenedExactly`).
- The Go verifier skips a key whose exponent ends in eight zero bytes, zero or not
  (`GoKeyCache.ExponentExactly`).

Grants are bound to the `client_id` of the token form, as in the code: the
authenticated client is only consulted for its redirect URIs.

`dafny verify dfyconfig.toml` checks the project.

## Model

| member | source | states |
|---|---|---|
| GrantTheorems.SingleBaton | auth-server/server/server.go:241-490 | in every run from an empty store, under every interleaving of any number of requests, two usable continuations (pending entry, unused code, live refresh token, handler in flight) of one authorize request are the same one |
| GrantTheorems.OneCodePerGrant | auth-server/server/server.go:352-381 | one authorize request yields at most one authorization code over the whole run |
| GrantTheorems.FamilyIsGrant | auth-server/server/server.go:455-490 | two refresh tokens share a family exactly when they come from the same authorize request, and then carry the same client, subject, scope and resource |
| GrantTheorems.TokenProvenance | auth-server/server/server.go:383-490 | every stored refresh token goes back, in this order, to an accepted request with its client, scope and resource, a consent, an identification of its subject, its code, and a redemption of that very code that repeats the request's client, redirect URI and resource with a verifier for its challenge |
| GrantTheorems.RedeemedAsRequested | auth-server/server/server.go:433-452 | over every run: whoever redeems a code presents the client, the redirect URI, the resource if any, and a verifier for the challenge, of the request accepted for it, and authenticated as a client that may use that redirect URI |
| GrantTheorems.RotatedAsRequested | auth-server/server/server.go:455-469 | over every run: a rotation only goes on when the client presented is the one of the request accepted for the grant |
| GrantTheorems.AccessTokenProvenance | auth-server/server/server.go:472-478 | the same chain stands behind every access token about to be signed, before anything of that response is stored |
| GrantTheorems.NoCodeWithoutApproval | auth-server/server/server.go:274-368 | although consent ids and upstream states share one table and may be sent to either endpoint, before the moment each stored code was saved lie, in this order, the acceptance of the request whose client, redirect URI, scope, resource and challenge it carries, for a client registered for that redirect URI, its approval, and the identification of its subject |
| GrantSafety.StepKeepsShape | auth-server/server/server.go:241-490 | every step of every handler keeps the invariant that ties each stored record and each suspended handler to the one grant that owns it |
| GrantSafety.AuthorizeKeepsShape | auth-server/server/server.go:241-261 | accepting a request keeps the invariant: the new entry is the only continuation of a new grant |
| GrantSafety.FinishConsentKeepsShape | auth-server/server/server.go:282-292 | a consent step keeps the invariant, whether the entry goes to a handler, is dropped by a denial, or the id is unknown or expired |
| GrantSafety.BeginUpstreamKeepsShape | auth-server/server/server.go:293-310 | the redirect upstream keeps the invariant while the handler is replaced by an entry that carries a verifier |
| GrantSafety.CallbackKeepsShape | auth-server/server/server.go:320-336 | the redirect back keeps the invariant, also when a consent id is presented as a state |
| GrantSafety.CompleteKeepsShape | auth-server/server/oidc.go:107-113 | completion keeps the invariant, in which an identified handler always has a recorded approval, because of the verifier guard |
| GrantSafety.StoreCodeKeepsShape | auth-server/server/server.go:360-368 | saving the code keeps the invariant, in which an unused code is its grant's only continuation and carries the approved request and the identified subject |
| GrantSafety.RedeemKeepsShape | auth-server/server/server.go:433-452 | a redemption keeps the invariant, in which an issuing handler has a verified PKCE verifier and the request's client, scope and resource |
| GrantSafety.RotateKeepsShape | auth-server/server/server.go:455-469 | a rotation, a refusal and a detected replay all keep the invariant |
| GrantSafety.IssueKeepsShape | auth-server/server/server.go:472-490 | saving the successor keeps the invariant, in which a live token is its grant's only continuation and all its tokens share one family |
| GrantSafety.RevokeKeepsShape | auth-server/server/store.go:210-243 | any revocation of stored tokens keeps the invariant |
| GrantHistory.StepKeepsHistory | auth-server/server/server.go:241-490 | every step keeps the history backed: each logged event follows the events it depends on |
| GrantHistory.IdentifyKeepsHistory | auth-server/server/oidc.go:107-113 | an identification is only ever logged after the approval of its grant |
| GrantHistory.RunKeepsInvariant | auth-server/server/server.go:241-490 | both invariants hold after every run from an empty store |
| GrantReuse.ReplayDetectedExactly | auth-server/server/store.go:199-204 | presenting a token starts a family revocation exactly when it is stored, used, unrevoked and unexpired: expiry and revocation are tested before use |
| GrantReuse.RevocationReachesFamily | auth-server/server/store.go:223-243 | the revocation step revokes every token of the family of the presented one, adds none, and does not stop a rotation in flight |
| GrantReuse.RevokedFamilyStaysDead | auth-server/server/server.go:455-483 | if no rotation of the family is in flight at its revocation, then in every continuation of the run no token of it is added and none is accepted |
| GrantReuse.DeadExactlyWithoutRotation | auth-server/server/server.go:457-483 | a revoked family stays revoked in all continuations if and only if none of its rotations is in flight; otherwise the successor is saved live |
| GrantReuse.RunKeepsDead | auth-server/server/server.go:455-483 | a dead family stays dead, token for token, over any run |
| GrantReuse.RevokedTokenStaysRefused | auth-server/server/server.go:704-711 | a stored token revoked at the revocation endpoint is refused as unknown whenever it is presented again, in every continuation of every run, and not taken for a replay |
| GrantReuse.RotateKeepsDead | auth-server/server/server.go:455-469 | presenting a token of a dead family neither revives it nor puts a rotation in flight |
| GrantReuse.IssueKeepsDead | auth-server/server/server.go:479-483 | no newly drawn family name or successor ever joins a dead family |
| GrantRules.AuthorizeExactly | auth-server/server/server.go:241-261 | an entry with the requested fields is added, for the code lifetime, if and only if the client resolves, the response type is code, the challenge is non-empty with method S256, the redirect URI is valid and permitted for the client, the resource named or the only one configured is configured, and every scope is allowed; else nothing changes |
| GrantRules.FinishConsentExactly | auth-server/server/server.go:282-292 | an entry that is there and unexpired is removed whatever the decision; a handler goes on exactly after an approval |
| GrantRules.BeginUpstreamExactly | auth-server/server/server.go:293-310 | the handler is replaced by an entry under the state with the same request and nonce and the verifier, for the code lifetime, or dropped when a required nonce is missing |
| GrantRules.AuthenticateExactly | auth-server/server/server.go:312-317 | the handler goes on with the subject identified |
| GrantRules.CallbackExactly | auth-server/server/server.go:320-336 | an entry that is there and unexpired is removed; a handler goes on exactly without an upstream error |
| GrantRules.CompleteExactly | auth-server/server/oidc.go:107-113 | the handler goes on if and only if verifier, state, upstream code and callback URL are all non-empty |
| GrantRules.StoreSessionExactly | auth-server/server/server.go:352-359 | the session becomes the subject's stored session |
| GrantRules.StoreCodeExactly | auth-server/server/server.go:360-368 | a code is added, unused, with the request's client, redirect URI, challenge, scope and resource, the subject, the nonce, and the code lifetime |
| GrantRules.RedeemExactly | auth-server/server/server.go:433-452 | a handler about to issue is left if and only if the code is stored, unused and unexpired, client and redirect URI equal the form's, the redirect URI is permitted for the authenticated client, the verifier fits, and the resource is empty or the code's; an unused unexpired code is spent in any case |
| GrantRules.RotateExactly | auth-server/server/server.go:455-469 | a handler about to issue is left if and only if the token is stored, unused, unrevoked, unexpired and bound to the client presented; a live token is spent in any case, and a replay is noted |
| GrantRules.RevokeReusedExactly | auth-server/server/store.go:223-243 | exactly the presented token and its family are revoked, and nothing else changes |
| GrantRules.IssueExactly | auth-server/server/server.go:472-490 | a live token is added in the grant's family, or a newly drawn one, with the handler's client, subject, scope and resource and the refresh lifetime |
| GrantRules.RevokeExactly | auth-server/server/server.go:704-711 | exactly the presented token is revoked, its family is not, and nothing else changes |
| GrantRules.NotItsTurn | auth-server/server/server.go:293-325 | the redirect and its callback only happen with an interactive provider and direct identification only without one, and a session is stored before the code of its login |
| GrantLifetimes.RedeemedInTime | auth-server/server/server.go:360-368 | over every run: a code is redeemed at most the code lifetime after the step that stored it |
| GrantLifetimes.RotatedInTime | auth-server/server/server.go:479-483 | over every run: a token is rotated, or its replay noticed, at most the refresh lifetime after the step that issued it |
| GrantLifetimes.AnsweredInTime | auth-server/server/server.go:253-253 | over every run: a consent id or upstream state is answered at most the code lifetime after the step that made it, at either endpoint |
| AuthorizationServers.Contains | auth-server/server/server.go:858-865 | true exactly for the listed values |
| AuthorizationServers.ParseAuthorizationRequest | auth-server/server/server.go:383-409 | accepts if and only if client, response type, challenge and method, redirect URI, resource and every scope are as required, and answers the query's fields with the resource filled in |
| AuthorizationServers.Server.constructor | auth-server/server/server.go:44-73 | a new server stands at the start of the grant machine |
| AuthorizationServers.Server.Authorize | auth-server/server/server.go:241-272 | a consent page is shown if and only if the request is acceptable; then exactly one entry with its fields is stored, else nothing |
| AuthorizationServers.Server.TakeEntry | auth-server/server/server.go:282-292 | an unexpired entry is handed out and leaves the table whatever the decision, else nothing changes |
| AuthorizationServers.Server.FinishConsentInteractive | auth-server/server/server.go:282-311 | reply and store are determined by the entry, the decision and the nonce: expired, denied, refused, or sent upstream with the entry replaced by one under the state |
| AuthorizationServers.Server.FinishConsentDirect | auth-server/server/server.go:282-318 | reply and store are determined: a code is handed out and stored exactly when the entry was there and unexpired, the user approved and was identified; the entry is gone in any case |
| AuthorizationServers.Server.TakeState | auth-server/server/server.go:326-336 | an unexpired entry is handed out under the state presented and leaves the table, error or not, else nothing changes |
| AuthorizationServers.Server.IdentityCallback | auth-server/server/server.go:320-350 | reply and store are determined: a code is handed out and stored exactly when the entry under the state was there, unexpired and held a verifier, the provider sent a code and no error, a callback URL is configured and the user was identified |
| AuthorizationServers.Server.CompleteAuthorization | auth-server/server/server.go:352-381 | stores the session if there is one, and one unused code with the request's fields and the subject |
| AuthorizationServers.Server.TakeCode | auth-server/server/server.go:433-451 | the code is handed on if and only if it is stored, unused, unexpired and matched by client, redirect URI, verifier and resource; an unused unexpired one is spent in any case |
| AuthorizationServers.Server.AuthorizationCodeToken | auth-server/server/server.go:433-453 | tokens are answered if and only if the code is stored, unused, unexpired and matched by client, redirect URI, verifier and resource, and the key provider signs; the store then has the code spent and the new token, field by field |
| AuthorizationServers.Server.TakeRefreshToken | auth-server/server/server.go:455-468 | a live token is spent and handed on only to its own client; a replayed one has its family revoked; else nothing changes |
| AuthorizationServers.Server.RefreshTokenToken | auth-server/server/server.go:455-470 | tokens are answered if and only if the token is stored, unused, unrevoked, unexpired and bound to the client, and the key provider signs; the store then has it spent and its successor, field by field; a replay revokes exactly the family |
| AuthorizationServers.Server.IssueTokens | auth-server/server/server.go:472-490 | saves the successor, field by field, in the given family or a newly drawn one, exactly when the access token was signed |
| AuthorizationServers.Server.Revoke | auth-server/server/server.go:704-711 | revokes exactly the presented token, leaving its family and every other record alone, and refuses an empty one |
| AuthorizationServers.Server.OneBaton | auth-server/server/server.go:241-490 | between requests, whatever requests came before, a grant has at most one usable continuation in the server's store |
| AuthorizationServers.Server.StoredTokenProvenance | auth-server/server/server.go:241-490 | every refresh token in the server's store goes back to an accepted request, an approval, an identification, a code and a verifier, in this order |
| AuthorizationServers.AuthorizeReachable | auth-server/server/server.go:241-272 | whatever the authorize handler does is a run of the machine; every handler keeps the server in a state of such a run |
| AuthorizationServers.InteractiveReachable | auth-server/server/server.go:282-311 | the same for consent and redirect upstream in a row |
| AuthorizationServers.CallbackReachable | auth-server/server/server.go:320-381 | the same for the uninterrupted callback |
| AuthorizationServers.DirectReachable | auth-server/server/server.go:282-381 | the same for the uninterrupted consent of a provider without redirect |
| AuthorizationServers.CodeTokenReachable | auth-server/server/server.go:433-490 | the same for the code grant |
| AuthorizationServers.RefreshTokenReachable | auth-server/server/server.go:455-490 | the same for the refresh grant |
| AuthorizationServers.RevokeReachable | auth-server/server/server.go:704-711 | the same for the revocation endpoint |
| Records.CodeConsumedOnce | auth-server/server/store.go:171-185 | after one successful consume, no sequence of store calls makes the same code value accepted again unless its hash is saved anew |
| Records.TokenRevokedForGood | auth-server/server/store.go:210-221 | revoking a stored token sets that one flag and changes nothing else, and the token is refused as unknown after any sequence of store calls that does not save its hash anew |
| Records.FamilyFixed | auth-server/server/store.go:187-243 | no sequence of store calls changes the family of a stored token unless its hash is saved anew |
| StoreHistories.CodeAnswered | auth-server/server/store.go:164-185 | after every sequence of calls from an empty store, a code is handed out if and only if its last save is unexpired, was not marked used, and no call since got it; the record is the one saved, and the two refusals are told apart |
| StoreHistories.TokenAnswered | auth-server/server/store.go:187-243 | likewise for a refresh token, which no call since may have revoked, by its own value or by that of any token of its family; only an unexpired unrevoked one counts as used |
| StoreHistories.ConsentAnswered | auth-server/server/store.go:245-262 | likewise for a consent entry, handed out once after its last save |
| StoreHistories.SessionAnswered | auth-server/server/store.go:264-279 | a session reads as its last save |
| StoreHistories.OthersAnswered | auth-server/server/store.go:210-230 | a save succeeds, and a revocation reports an unknown token exactly when it was never saved |
| Records.SplitRevocationIsAtomic | auth-server/server/sqlite_store.go:321-335 | reading the family and rewriting it in two statements outside a transaction equals one atomic revocation at the second statement, whatever runs in between |
| MemoryStores.MemoryStore.constructor | auth-server/server/store.go:121-123 | a new store is empty |
| MemoryStores.MemoryStore.ConsumeClientAssertionJTI | auth-server/server/store.go:137-152 | the purge loop and the check equal one step of the one-time-use protocol on the merged key |
| MemoryStores.MemoryStore.SaveAuthorizationCode | auth-server/server/store.go:164-169 | one atomic store step; other tables unchanged |
| MemoryStores.MemoryStore.ConsumeAuthorizationCode | auth-server/server/store.go:171-185 | one atomic store step with the same answer, expiry tested before use |
| MemoryStores.MemoryStore.SaveRefreshToken | auth-server/server/store.go:187-192 | one atomic store step; other tables unchanged |
| MemoryStores.MemoryStore.ConsumeRefreshToken | auth-server/server/store.go:194-208 | one atomic store step with the same answer, expiry and revocation tested before use |
| MemoryStores.MemoryStore.RevokeRefreshToken | auth-server/server/store.go:210-221 | one atomic store step; unknown values are reported |
| MemoryStores.MemoryStore.RevokeRefreshFamily | auth-server/server/store.go:223-243 | the loop over the table, in any order, revokes exactly the presented token's family, or only that token when it has none |
| MemoryStores.MemoryStore.SaveConsentRequest | auth-server/server/store.go:245-250 | one atomic store step; other tables unchanged |
| MemoryStores.MemoryStore.ConsumeConsentRequest | auth-server/server/store.go:252-262 | one atomic store step: handed out once and deleted, and an expired entry stays |
| MemoryStores.MemoryStore.SaveUpstreamSession | auth-server/server/store.go:264-269 | one atomic store step; other tables unchanged |
| MemoryStores.MemoryStore.GetUpstreamSession | auth-server/server/store.go:271-279 | reads the stored session and changes nothing |
| MemoryStores.MemoryStore.Apply | auth-server/server/store.go:87-109 | every call of the store interface is the one step it stands for |
| StoreRefinement.ReplayBoth | auth-server/server/sqlite_store.go:207-409 | for every sequence of calls with the same clock readings both stores give the same answers and end with the same contents, those of the reference run |
| Tables.SelectContents | auth-server/server/sqlite_store.go:229-234 | a lookup by primary key finds the row exactly when the keyed contents have it |
| Tables.AffectedByKey | auth-server/server/sqlite_store.go:311-317 | a conditional update of one key affects one row exactly when the row meets the condition |
| Tables.UpdateContents | auth-server/server/sqlite_store.go:248-250 | an update keeps keys unique and changes exactly the selected contents |
| Tables.DeleteContents | auth-server/server/sqlite_store.go:371-373 | a delete keeps keys unique and removes exactly the selected contents |
| Tables.ReplaceContents | auth-server/server/sqlite_store.go:212-216 | an upsert keeps keys unique and sets exactly one key |
| Tables.InsertContents | auth-server/server/sqlite_store.go:201-203 | an insert of a new key keeps keys unique and adds exactly that key |
| SqliteStores.UseCodeDecoded | auth-server/server/sqlite_store.go:248-250 | marking a code row used is marking the decoded record used |
| SqliteStores.UseTokenDecoded | auth-server/server/sqlite_store.go:300-302 | marking a token row used is marking the decoded record used |
| SqliteStores.RevokeFamilyDecoded | auth-server/server/sqlite_store.go:321-335 | the two update forms revoke exactly what the in-memory revocation revokes |
| SqliteStores.SQLiteStore.constructor | auth-server/server/sqlite_store.go:21-39 | a new store is empty |
| SqliteStores.SQLiteStore.ConsumeClientAssertionJTI | auth-server/server/sqlite_store.go:192-205 | equals one step of the one-time-use protocol on the exact pair, and a refusal leaves the table as it was, purge included |
| SqliteStores.SQLiteStore.SaveAuthorizationCode | auth-server/server/sqlite_store.go:207-217 | the same step on the decoded contents as the memory store |
| SqliteStores.SQLiteStore.ConsumeAuthorizationCode | auth-server/server/sqlite_store.go:219-256 | the same step and answer on readable rows; an undecodable row is refused and the database unchanged |
| SqliteStores.SQLiteStore.SaveRefreshToken | auth-server/server/sqlite_store.go:258-268 | the same step on the decoded contents as the memory store |
| SqliteStores.SQLiteStore.ConsumeRefreshToken | auth-server/server/sqlite_store.go:270-308 | the same step and answer on readable rows; an undecodable row is refused and the database unchanged |
| SqliteStores.SQLiteStore.RevokeRefreshToken | auth-server/server/sqlite_store.go:310-319 | the same step and answer as the memory store |
| SqliteStores.SQLiteStore.RevokeRefreshFamily | auth-server/server/sqlite_store.go:321-335 | the same step and answer as the memory store |
| SqliteStores.SQLiteStore.SaveConsentRequest | auth-server/server/sqlite_store.go:337-345 | the same step on the decoded contents as the memory store |
| SqliteStores.SQLiteStore.ConsumeConsentRequest | auth-server/server/sqlite_store.go:347-378 | the same step and answer on readable rows; an undecodable row is refused and the database unchanged |
| SqliteStores.SQLiteStore.SaveUpstreamSession | auth-server/server/sqlite_store.go:380-390 | the same step on the decoded contents as the memory store |
| SqliteStores.SQLiteStore.GetUpstreamSession | auth-server/server/sqlite_store.go:392-409 | the same answer on readable rows, and nothing changes |
| SqliteStores.SQLiteStore.Apply | auth-server/server/sqlite_store.go:207-409 | every call of the store interface is the one step it stands for |
| Assertions.OneTimeUse | auth-server/server/store.go:137-152 | over any run with a non-decreasing clock, once a key is accepted at t with expiry e, every later attempt with it while the record blocks is refused, whatever attempts, refusals and purges lie between |
| Assertions.RefusedExactly | auth-server/server/store.go:137-152 | for attempts that reach the table in clock order, an attempt is refused if and only if an earlier accepted attempt with the same key still blocks |
| Assertions.RefusedInAnyOrder | auth-server/server/sqlite_store.go:192-205 | for any clock readings, an attempt is refused if and only if an earlier accepted attempt with its key blocks it and has since been neither replaced nor purged by an effective purge |
| Assertions.RecordStays | auth-server/server/store.go:137-152 | no purge or refusal shortens the window of an accepted record |
| Assertions.RecordOrigin | auth-server/server/store.go:137-152 | every stored record comes from an accepted attempt with that key and expiry |
| Assertions.StoresAgreeExactly | auth-server/server/sqlite_store.go:192-205 | over any clock-ordered attempts the memory store and SQLite give the same answers if and only if no attempt repeats an accepted key exactly at its expiry |
| Assertions.StoresDifferAtExpiry | auth-server/server/sqlite_store.go:192-205 | the smallest such repeat: the memory store accepts it and SQLite refuses it |
| Migration.MigrationPreservesData | auth-server/server/sqlite_store.go:53-150 | from every earlier version and any rows migration succeeds, every table has the current columns, every row keeps its values and gets defaults for the rest, and tables that are not the store's are untouched |
| Migration.CompletedCells | auth-server/server/sqlite_store.go:54-75 | cell by cell: old values win, only missing columns get defaults, and every pre-existing client is marked dynamically registered |
| Migration.FreshMatchesMigrated | auth-server/server/sqlite_store.go:78-105 | a fresh database and a migrated one have the same tables and column sets |
| Migration.OneMigration | auth-server/server/sqlite_store.go:53-76 | each version's script succeeds on that version and yields the next one with every row intact |
| Migration.LoopKeeps | auth-server/server/sqlite_store.go:137-145 | whatever each registered script keeps, the whole loop keeps, and it does not fail |
| Migration.SQLiteDatabase.Migrate | auth-server/server/sqlite_store.go:124-150 | commits the whole migration or leaves the database as it was; at the current version, and so on a second run, it changes nothing |
| Migration.SQLiteDatabase.Initialize | auth-server/server/sqlite_store.go:107-122 | migrates a database that has a clients table; otherwise creates the fresh schema statement by statement and then writes the version, and succeeds exactly when it got through both writes |
| Migration.OpeningPreservesData | auth-server/server/sqlite_store.go:107-150 | opening a database of any earlier version succeeds and keeps its data, and opening it once more changes nothing |
| Migration.ReopenedExactly | auth-server/server/sqlite_store.go:107-122 | after a creation that stopped between its statements or before the version was written, the next opening succeeds if and only if no table had been created or the file claimed a current version already |
| Lru.RunKeepsBounded | auth-client/go/mcpauth/cache.go:50-65 | under any operations keys stay distinct and at most max entries are resident |
| Lru.GetReturnsLastPut | auth-client/go/mcpauth/cache.go:34-49 | a lookup returns the last value put under its key exactly when that entry is resident and not past expiry minus margin |
| Lru.ResidentIsLastPut | auth-client/go/mcpauth/cache.go:50-58 | every resident entry is the last one put under its key |
| Lru.OrderedByLastUse | auth-client/go/mcpauth/cache.go:59-64 | the order is that of last use, so the entry an eviction drops is the least recently used |
| Lru.StillAHit | auth-client/go/mcpauth/cache.go:34-65 | an unexpired key is still a hit while fewer than max distinct other keys were put or hit since its last use |
| Lru.StaysResident | auth-client/go/mcpauth/cache.go:34-65 | until then it stays resident and unchanged, with only those keys ahead of it |
| Lru.RunKeepsNested | auth-client/go/mcpauth/cache.go:34-65 | under one sequence of operations the smaller cache's contents stay a subsequence of the larger one's |
| Lru.LargerCacheHoldsMore | auth-client/go/mcpauth/cache.go:34-65 | everything resident at one capacity is resident with the same value at any larger capacity |
| ContainerList.List.PushFront | auth-client/go/mcpauth/cache.go:57-57 | links one new element before all others; the ring stays a ring |
| ContainerList.List.Remove | auth-client/go/mcpauth/cache.go:63-63 | unlinks exactly the given element; the others keep their order |
| ContainerList.List.MoveToFront | auth-client/go/mcpauth/cache.go:47-47 | moves exactly the given element to the front |
| ContainerList.List.Back | auth-client/go/mcpauth/cache.go:60-60 | the last element |
| TokenCaches.TokenCache.constructor | auth-client/go/mcpauth/cache.go:28-33 | empty, with room for at least one entry |
| TokenCaches.TokenCache.Get | auth-client/go/mcpauth/cache.go:34-49 | map and linked list keep agreeing, and together take the same step of the recency sequence, boundary instant served |
| TokenCaches.TokenCache.Put | auth-client/go/mcpauth/cache.go:50-65 | map and linked list keep agreeing, and together take the same step of the recency sequence |
| TokenCaches.TokenCache.Evict | auth-client/go/mcpauth/cache.go:59-64 | the loop keeps exactly the max most recent entries |
| TokenCaches.TokenCache.Len | auth-client/go/mcpauth/cache.go:66-66 | the size of the map is the length of the list |
| OrderedCaches.EvictOldest | auth-client/python/src/mcp_auth_client/cache.py:38-39 | the loop keeps exactly the newest entries that fit |
| OrderedCaches.BoundedTokenCache.Create | auth-client/python/src/mcp_auth_client/cache.py:15-22 | refused exactly for a size below one or a negative margin |
| OrderedCaches.BoundedTokenCache.Get | auth-client/python/src/mcp_auth_client/cache.py:24-33 | read newest first, the same step of the recency sequence, boundary instant not served |
| OrderedCaches.BoundedTokenCache.Put | auth-client/python/src/mcp_auth_client/cache.py:35-39 | read newest first, the same step of the recency sequence, though assignment keeps an old key in place first |
| OrderedCaches.TokenExchangeCache.Create | auth-client/typescript/src/token-exchange.ts:45-51 | refused exactly for a size below one or a negative margin |
| OrderedCaches.TokenExchangeCache.Get | auth-client/typescript/src/token-exchange.ts:55-65 | read newest first, the same step of the recency sequence, boundary instant not served |
| OrderedCaches.TokenExchangeCache.Set | auth-client/typescript/src/token-exchange.ts:67-74 | read newest first, the same step of the recency sequence |
| ExchangeKeys.MaterialIsCanonical | auth-client/go/mcpauth/token_exchange.go:56-61 | for NUL-free subject and audience and non-empty space-free scopes, two requests hash the same text if and only if subject, audience and scopes up to order are equal |
| ExchangeKeys.SetMaterialIsCanonical | auth-client/python/src/mcp_auth_client/token_exchange.py:74-80 | the same for scope sets, in whatever order each set is enumerated |
| ExchangeKeys.JoinInjective | auth-client/go/mcpauth/token_exchange.go:59-59 | joining non-empty names without spaces loses nothing |
| ExchangeKeys.SortCanonical | auth-client/go/mcpauth/token_exchange.go:57-58 | two lists sort to the same list exactly when one is a reordering of the other |
| ExchangeKeys.SharedKeyExactly | auth-client/go/mcpauth/token_exchange.go:56-61 | for any scopes at all, and NUL-free subject and audience, two requests hash the same text if and only if subject and audience are equal and the sorted scope lists have the same words in the same order |
| ExchangeKeys.TwoWordsCollideExactly | auth-client/go/mcpauth/token_exchange.go:59-59 | one scope of two words shares its key with other scopes of the same subject and audience if and only if its words are in sorted order |
| ExchangeKeys.SpacedScopeCollides | auth-client/go/mcpauth/token_exchange.go:59-59 | one scope that is two texts in sorted order with a space between shares its key with the two texts as scopes |
| ExchangeKeys.EmptyScopeCollides | auth-client/go/mcpauth/token_exchange.go:59-59 | asking for the one empty scope shares the key of asking for none |
| ExchangeKeys.NulCollides | auth-client/go/mcpauth/token_exchange.go:59-59 | a NUL inside the subject shares the key with the request whose audience starts after it |
| ExchangeKeys.NulCollidesExactly | auth-client/go/mcpauth/token_exchange.go:59-59 | a request can share its key with one for another subject or audience if and only if it has a NUL in its subject, audience or scopes |
| ExchangeClients.TokenExchangeClient.Exchange | auth-client/go/mcpauth/token_exchange.go:63-127 | answer and cache contents are determined in every case: a hit is answered under the same key; a miss is answered exactly with an access token from the endpoint, field by field with its lifetime in seconds, and put on top; a failure grants nothing and leaves the cache as the lookup left it |
| ExchangeClients.TokenExchangeClient.Obtain | auth-client/go/mcpauth/token_exchange.go:101-125 | without a hit: the token is the endpoint's, for the audience asked for, and is stored exactly when there is one |
| ExchangeClients.TokenExchangeClient.Lookup | auth-client/go/mcpauth/token_exchange.go:72-76 | takes the lookup step of the cache, and a hit was granted under the key asked for |
| ExchangeClients.TokenExchangeClient.Remember | auth-client/go/mcpauth/token_exchange.go:122-125 | takes the store step of the cache under the request's key, and the cache still only holds granted tokens |
| ExchangeClients.HitIsSameRequest | auth-client/typescript/src/token-exchange.ts:112-115 | however exchanges interleave at the cache, a hit is a token granted earlier for the same subject, audience and scopes |
| Challenges.ChallengeRoundTrip | auth-client/go/mcpauth/challenge.go:38-44 | printed by any client and read by either parser, with scopes and URL of printable unescaped text, scheme and metadata URL always come back, and the scopes exactly unless there are scopes and the URL ends in scope= |
| Challenges.MetadataRoundTrip | auth-client/python/src/mcp_auth_client/challenge.py:27-39 | with any other parameters and any text, the URL comes back exactly when printing escaped nothing in it; Go also escapes what it holds unprintable |
| Challenges.ScopeRoundTrip | auth-client/go/mcpauth/challenge.go:46-55 | with error parameters too, for text that the printer does not escape: what the search captures, and that it is the printed scope exactly when no earlier value opens the capture |
| Challenges.UrlEndingInScope | auth-client/go/mcpauth/challenge.go:33-35 | the smallest failing header: the parsed scope is the text between two parameters |
| Challenges.SearchIsLeftmost | auth-client/go/mcpauth/challenge.go:16-17 | the search finds a match exactly when there is one, at the least position, with its capture |
| Challenges.SearchReadsSegments | auth-client/python/src/mcp_auth_client/challenge.py:18-19 | on any text, the search is a scan of the quote-separated segments |
| Challenges.BearerParsed | auth-client/python/src/mcp_auth_client/challenge.py:17-19 | the scheme ends at the first space, and Python searches only what follows |
| Challenges.ParseWWWAuthenticate | auth-client/go/mcpauth/challenge.go:19-37 | the loop finds the text before the first space, and each field is its search, empty when absent |
| Challenges.EscapedIsItself | auth-client/typescript/src/challenge.ts:12-14 | escaping changes a quote-free value exactly when some character of it is escaped |
| Challenges.TypeScriptValueRead | auth-client/typescript/src/challenge.ts:12-14 | a reader of quoted strings gets every value back, with its line breaks as spaces, and goes on after its closing quote |
| Challenges.GoValueRead | auth-client/go/mcpauth/challenge.go:41-43 | a reader of quoted strings gets a value back, and goes on after its closing quote, if and only if Go holds every character of it printable |
| Challenges.GoQuotesBack | auth-client/go/mcpauth/challenge.go:41-43 | quoting loses nothing: read as a Go literal, every printed value gives its characters back |
| Challenges.ScopesPrinted | auth-client/python/src/mcp_auth_client/challenge.py:35-38 | Go shows the scopes in the caller's order, Python the same ones sorted, TypeScript none, and no scopes give no parameter |
| Discovery.CandidatesOnce | auth-client/go/mcpauth/discovery.go:93-106 | no address is tried twice, all four forms are tried, the issuer-path form first, and an issuer without a path has just two |
| Discovery.DiscoveryCandidates | auth-client/go/mcpauth/discovery.go:93-118 | the Go loop yields exactly that list |
| Discovery.PythonCandidates | auth-client/python/src/mcp_auth_client/discovery.py:9-39 | the Python loop yields the same list as Go for the same issuer |
| Discovery.FirstCandidateIsServed | auth-server/server/server.go:77-89 | the first address tried is a registered route exactly when the client's issuer has the configured path up to surrounding slashes, or none |
| Discovery.RegisteredExactly | auth-server/server/config.go:178-184 | the derived path is registered exactly under that condition |
| Discovery.TypeScriptIsServed | auth-client/typescript/src/discovery.ts:32-36 | the TypeScript client, which keeps slashes, finds the document only for the configured path without extra slashes, or no path |
| Discovery.MatchResource | auth-server/server/server.go:205-223 | the loop returns the first configured resource at the path; the bare path only resolves for a single resource |
| Discovery.ResolvesBack | auth-client/typescript/src/discovery.ts:23-26 | the derived metadata address resolves back to its resource exactly when that resource is the first at its path, or the only one when at the root |
| Discovery.DistinctPathsResolve | auth-server/server/server.go:205-223 | configured resources with distinct non-empty paths all resolve back |
| UpstreamSessions.Exchange | auth-server/server/upstream_session.go:48-70 | answers exactly when the session is alive or refreshable; the answer is stored, and is the stored session or, field by field, the provider's: its access token, refresh token, type, lifetime and scope, or the stored refresh token and scope, Bearer and five minutes where it names none |
| UpstreamSessions.ExchangeAlone | auth-server/server/upstream_session.go:48-70 | the interleaved model's steps of an exchange that meets no other answer and store what the exchange on its own does |
| UpstreamSessions.RefreshedIsUsable | auth-server/server/upstream_session.go:72-128 | for any accepted answer the new session is that one, field by field, lives on, and never loses a refresh token |
| UpstreamSessions.RepliesAreLive | auth-server/server/upstream_session.go:48-70 | under any interleaving every successful answer carries a session alive when checked or refreshed that is, field by field, what the provider issued to the subject who asked, at a login or for a session issued so before |
| UpstreamSessions.RefreshTokenRetained | auth-server/server/upstream_session.go:117-128 | once the stored session has a refresh token, every later one has until the subject logs in anew, whatever exchanges are in flight |
| UpstreamSessions.NewestExactly | auth-server/server/upstream_session.go:62-69 | from any state with a stored session: every way of finishing the subject's exchanges leaves the newest refresh token stored if and only if everything in flight carries the newest token and no two exchanges are in flight while one still waits for the provider, nor one waits while an older token is stored |
| UpstreamSessions.FinishingRunKeepsSettled | auth-server/server/upstream_session.go:62-69 | such a settled state stays settled over any run in which the subject starts nothing new and no answer is lost before its save |
| UpstreamSessions.NewestTokenStored | auth-server/server/upstream_session.go:62-69 | so while a subject's exchanges do not overlap and none is lost before its save, the stored refresh token is the newest one issued, over whole runs |
| UpstreamSessions.OverlapLosesRotation | auth-server/server/upstream_session.go:62-69 | an unsettled state is reached: in some run a spent refresh token overwrites its successor and is what stays stored |
| KeyRefreshes.WindowBound | auth-client/go/mcpauth/verifier.go:222-224 | refreshes spaced a minimum interval apart, k steps at a time, number at most k times floor(W / interval) + 1 in any window of length W |
| KeyRefreshes.SpacedApart | auth-client/go/mcpauth/verifier.go:222-224 | spacing of neighbours adds up over any distance |
| GoKeyCache.Configured | auth-client/go/mcpauth/verifier.go:185-196 | a non-positive setting is replaced, so every limit is positive |
| GoKeyCache.OneFetchAtOnce | auth-client/go/mcpauth/verifier.go:212-240 | never two fetches at once, for any number of goroutines and kids |
| GoKeyCache.RefreshesApart | auth-client/go/mcpauth/verifier.go:222-275 | successful refreshes are pairwise at least the minimum interval apart |
| GoKeyCache.RefreshesPerWindow | auth-client/go/mcpauth/verifier.go:222-275 | any window of length W has at most floor(W / minFetch) + 1 of them |
| GoKeyCache.AnswersAreCurrent | auth-client/go/mcpauth/verifier.go:197-224 | a key answered without a fetch is from the document installed last and younger than the TTL at the decision; a refusal without a fetch is within the minimum interval of a refresh; a fetch answers from its own document |
| GoKeyCache.ReadExactly | auth-client/go/mcpauth/verifier.go:197-211 | in every reachable state the first read answers if and only if the document installed last has the key and is younger than the TTL, with that document's key |
| GoKeyCache.RereadExactly | auth-client/go/mcpauth/verifier.go:212-221 | the second read, under the lock, likewise |
| GoKeyCache.CallAlone | auth-client/go/mcpauth/verifier.go:184-290 | in every reachable state with no other call about, the whole call is answered as the sequential reading of the cache says, makes that refresh and no other, and leaves no lock held |
| GoKeyCache.RunKeepsInvariant | auth-client/go/mcpauth/verifier.go:184-290 | the double-checked locking invariant, with the lock held by exactly the goroutine past it, holds after every interleaving of lock, clock and network steps |
| GoKeyCache.InstallKeeps | auth-client/go/mcpauth/verifier.go:273-285 | installing keeps every other goroutine's knowledge valid |
| GoKeyCache.LastUsableWins | auth-client/go/mcpauth/verifier.go:254-272 | the document maps a kid to a key exactly when the last usable entry with that kid spells that key |
| GoKeyCache.ReadDocument | auth-client/go/mcpauth/verifier.go:254-272 | the loop with its skips builds exactly that document; it has a kid if and only if some RSA signing entry with it, for the algorithm if it names one, decodes to a modulus and an exponent that does not end in eight zero bytes |
| GoKeyCache.Exponent | auth-client/go/mcpauth/verifier.go:264-267 | the loop reads the bytes as a big-endian number modulo 64 bits |
| GoKeyCache.ExponentExactly | auth-client/go/mcpauth/verifier.go:264-270 | the exponent is the number spelt exactly below 2^63, and an entry is skipped for a zero exponent exactly when its last eight exponent bytes are zero |
| PythonKeyCache.OneFetchAtOnce | auth-client/python/src/mcp_auth_client/verifier.py:141-155 | never two fetches at once, for any number of tasks |
| PythonKeyCache.RefreshesApart | auth-client/python/src/mcp_auth_client/verifier.py:141-160 | successful refreshes are pairwise at least the minimum interval apart |
| PythonKeyCache.RefreshesPerWindow | auth-client/python/src/mcp_auth_client/verifier.py:141-160 | any window of length W has at most floor(W / min_fetch) + 1 of them |
| PythonKeyCache.AnswersAreCurrent | auth-client/python/src/mcp_auth_client/verifier.py:129-168 | a key answered without a fetch is from the document installed last and younger than max(TTL, min_fetch); a refusal without a fetch means that document lacks the kid, or the kid is on the recent-miss list and, if the document has it, the document is past its TTL |
| PythonKeyCache.ServedWhileThrottled | auth-client/python/src/mcp_auth_client/verifier.py:147-153 | while throttled, a task that reaches the lock with its kid cached is served the latest document's key, however stale |
| PythonKeyCache.EnterExactly | auth-client/python/src/mcp_auth_client/verifier.py:141-155 | in every reachable state, a task at the free lock is served the document in force while that is younger than max(TTL, min_fetch), is refused while throttled without its kid, and starts the one fetch otherwise |
| PythonKeyCache.CallServedOrWaits | auth-client/python/src/mcp_auth_client/verifier.py:129-141 | a call whose kid is off the recent-miss list is served at once from a fresh document or goes to the lock |
| PythonKeyCache.CachedRefusalExactly | auth-client/python/src/mcp_auth_client/verifier.py:129-153 | a kid the document in force holds is refused in some run if and only if the TTL is below both the fetch interval and the unknown-kid TTL |
| PythonKeyCache.CallAlone | auth-client/python/src/mcp_auth_client/verifier.py:129-160 | in every reachable state with no other task about, the whole call is answered as the sequential reading of the cache says, makes that refresh and no other, and leaves the lock free |
| PythonKeyCache.CancelExactly | auth-client/python/src/mcp_auth_client/verifier.py:141-160 | a cancelled task is gone with nothing answered, and the lock is free if it held it |
| PythonKeyCache.RunKeepsInvariant | auth-client/python/src/mcp_auth_client/verifier.py:129-160 | the lock invariant holds after every interleaving, including cancellation |
| TypeScriptKeyCache.OneFetchAtOnce | auth-client/typescript/src/verifier.ts:171-187 | at most one fetch is between its start and its settlement |
| TypeScriptKeyCache.ForcedLoadIsNewer | auth-client/typescript/src/verifier.ts:163-187 | a forced load that returns normally observed a fetch started after the call, and the document consulted is at least that new |
| TypeScriptKeyCache.RefreshesApart | auth-client/typescript/src/verifier.ts:171-214 | any three consecutive successful refreshes span at least jwksMinFetchMs |
| TypeScriptKeyCache.RefreshesPerWindow | auth-client/typescript/src/verifier.ts:171-214 | any window of length W has at most twice floor(W / jwksMinFetchMs) + 1 of them |
| EarlyRefreshes.EarlyExactly | auth-client/typescript/src/verifier.ts:171-187 | in every reachable state less than jwksMinFetchMs after a refresh, some continuation refreshes again within that interval if and only if a fetch is running or a forced load waits on a promise that resolves |
| EarlyRefreshes.RefreshNow | auth-client/typescript/src/verifier.ts:171-187 | whenever a fetch is running or such a load waits, the next refresh can come at that very instant |
| EarlyRefreshes.BackToBack | auth-client/typescript/src/verifier.ts:171-187 | the case is reached: a run with two consecutive refreshes at the same instant, so the bound on three is the best there is |
| TypeScriptKeyCache.AnswersAreCurrent | auth-client/typescript/src/verifier.ts:134-169 | a key answered without a fetch is from the document installed last and younger than max(TTL, min fetch); a refusal without a fetch means that document lacks the kid, or the kid is on the recent-miss list and, if the document has it, the document is past its TTL |
| TypeScriptKeyCache.ServedWhileThrottled | auth-client/typescript/src/verifier.ts:152-159 | while throttled, a call whose kid is cached and off the recent-miss list is served the latest document's key, however stale |
| TypeScriptKeyCache.CachedRefusalExactly | auth-client/typescript/src/verifier.ts:138-159 | a kid the document in force holds is refused in some run if and only if the TTL is below both the fetch interval and the unknown-kid TTL |
| TypeScriptKeyCache.CallAlone | auth-client/typescript/src/verifier.ts:152-214 | in every reachable state with nothing under way, the whole call is answered as the sequential reading of the cache says, makes that refresh and no other, and leaves the slot empty |
| TypeScriptKeyCache.JoinExactly | auth-client/typescript/src/verifier.ts:159-177 | while a load is under way, a call that cannot be answered at once joins it and starts no fetch, and insists on a newer one exactly when the document in force has keys but not its own |
| TypeScriptKeyCache.ResumeExactly | auth-client/typescript/src/verifier.ts:171-187 | a waiting call whose promise settled fails with it, or goes on if the load was its own or it did not insist, or else waits for the load under way, or starts one if there is none |
| TypeScriptKeyCache.FinishExactly | auth-client/typescript/src/verifier.ts:163-168 | in every reachable state a call whose load returned looks its kid up in the document in force, whichever fetch brought it, and notes or clears the miss |
| TypeScriptKeyCache.RunKeepsInvariant | auth-client/typescript/src/verifier.ts:152-214 | the promise-slot invariant holds after every interleaving of calls, settlements and continuations |

## Left out

- HTTP transport, routing internals, path cleaning by the router, CORS, TLS checks, logging, audit output and page rendering.
- SHA-256, RSA, base64, JWT signing and claim checks, URL parsing, JSON decoding, regular expressions in general and the SQLite engine: uninterpreted, parameters, or only the statements used.
- Client ID metadata documents, dynamic registration, client authentication, connector and environment validation, and OIDC discovery: branch lists or network code. The clients table appears only in the migration.
- The token-exchange grant's own tokens and the clock-skew window after an assertion's expiry.
- The OIDC provider's own key cache and ID token checks: past its guards its answer is any identity or a failure.
- Store errors: the memory store has none; an undecodable SQLite column is modelled, an I/O error is a handler that ends early.
- The endpoint addresses the server advertises, all one suffix on the trimmed issuer.
- Locks and transactions are atomic steps; a database shared by several processes is not modelled.
- A migration whose transaction fails to begin or to commit; the database is then as before.
- A nil and an empty scope list are the same list; their JSON texts differ.
- 64-bit wrap-around of durations and nanosecond times. The key exponent wraps as on a 64-bit platform.
- Floating-point clocks of the Python and TypeScript clients are integers.
- A wildcard or a literal brace in a configured path is not given its router meaning.
- MemoryStores.MemoryStore.ConsumeClientAssertionJTI: the key text joins client and id with a bar, so two pairs may share a key; that only adds refusals, and the one-time-use theorem is about the joined key.
- Assertions.RefusedExactly: the memory store reads its clock under the mutex, so its attempts are in clock order; for SQLite, which reads it before its transaction holds a lock, the order is an assumption, also in OneTimeUse and StoresAgreeExactly. RefusedInAnyOrder does without it.
- Assertions.OneTimeUse: in the memory store the window ends before the expiry instant, in SQLite with it.
- Challenges.MetadataRoundTrip: which characters Go holds printable is a parameter, and text is characters; bytes that are not UTF-8 are not modelled.
- Challenges.ParseWWWAuthenticate: the Python parser's refusal of an empty header is not modelled; no printed header is empty.
- Discovery.PythonCandidates: the parser is a parameter required to agree with the trimmed issuer, and the scheme is taken to be lower case.
- Discovery.ResolvesBack: escapes, dot segments and default ports that a browser URL parser rewrites are not modelled.
- GoKeyCache.AnswersAreCurrent: a refusal may be for a cached but stale kid, because Go does not serve stale keys while throttled.
- TypeScriptKeyCache.RefreshesApart: assumes that continuations queued on one promise run before a later fetch can finish.
- ExchangeClients.TokenExchangeClient.Exchange: one exchange at a time; interleaved ones are the subject of HitIsSameRequest.
- AuthorizationServers.Server.Authorize: the local-development shortcut that approves at once is this method followed by FinishConsentDirect.
