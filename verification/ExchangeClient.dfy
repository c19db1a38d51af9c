/** The cached token exchange of the Go client: a cached answer is one the endpoint
    gave for the same request. */
module ExchangeClients {
  import opened Records
  import Lru
  import opened TokenCaches
  import opened ExchangeKeys

  datatype CachedToken = CachedToken(accessToken: string, tokenType: string, audience: string, expiresAt: Instant, scopes: seq<string>)

  /** A decoded answer of the token endpoint; its scope text is already split. */
  datatype Response = Response(accessToken: string, tokenType: string, expiresIn: int, scopes: seq<string>)

  /** History: what the endpoint granted, and for which request. */
  datatype Grant = Grant(request: Request, token: CachedToken)

  type Contents = seq<Lru.Entry<CachedToken>>

  ghost predicate GrantedFor(granted: seq<Grant>, digest: string -> string, key: string, token: CachedToken) {
    exists g :: g in granted && g.token == token && digest(Material(g.request)) == key
  }

  ghost predicate AllGranted(granted: seq<Grant>, digest: string -> string, s: Contents) {
    forall e :: e in s ==> GrantedFor(granted, digest, e.key, e.value)
  }

  lemma LookupGranted(granted: seq<Grant>, digest: string -> string, p: Lru.Policy, s: Contents, key: string, now: Instant)
    requires AllGranted(granted, digest, s)
    ensures AllGranted(granted, digest, Lru.GetStep(p, s, key, now).0)
    ensures Lru.GetStep(p, s, key, now).1.Some? ==> GrantedFor(granted, digest, key, Lru.GetStep(p, s, key, now).1.value)
  {
    LookupHeld(p, s, key, now);
  }

  /** A lookup adds nothing, and answers from an entry under its key. */
  lemma LookupHeld(p: Lru.Policy, s: Contents, key: string, now: Instant)
    ensures var (after, r) := Lru.GetStep(p, s, key, now);
      && (forall e :: e in after ==> e in s)
      && (r.Some? ==> exists e :: e in s && e.key == key && e.value == r.value)
  {
    Lru.WithoutKeys(s, key);
    Lru.FindIndex(s, key);
  }

  lemma GrowGranted(granted: seq<Grant>, digest: string -> string, key: string, token: CachedToken, g: Grant)
    requires GrantedFor(granted, digest, key, token)
    ensures GrantedFor(granted + [g], digest, key, token)
  {
    var witnessed :| witnessed in granted && witnessed.token == token && digest(Material(witnessed.request)) == key;
    assert witnessed in granted + [g];
  }

  lemma StoreGranted(granted: seq<Grant>, digest: string -> string, p: Lru.Policy, s: Contents, g: Grant)
    requires AllGranted(granted, digest, s)
    ensures AllGranted(granted + [g], digest, s)
    ensures AllGranted(granted + [g], digest,
      Lru.PutStep(p, s, digest(Material(g.request)), g.token, g.token.expiresAt))
  {
    var key := digest(Material(g.request));
    assert g in granted + [g];
    Lru.WithoutKeys(s, key);
    forall e | e in s ensures GrantedFor(granted + [g], digest, e.key, e.value) {
      GrowGranted(granted, digest, e.key, e.value, g);
    }
  }

  const SECOND := 1_000_000_000

  /** What the endpoint's answer gives: nothing without an access token. */
  function TokenFrom(request: Request, response: Option<Response>, receivedAt: Instant): Option<CachedToken> {
    if response.None? || response.value.accessToken == "" then None
    else
      var answer := response.value;
      Some(CachedToken(answer.accessToken, answer.tokenType, request.audience, receivedAt + answer.expiresIn * SECOND, answer.scopes))
  }

  /** The token is the endpoint's, for the audience asked for, and lives as long as the
      endpoint said, from the moment its answer was there. */
  predicate AsAnswered(token: CachedToken, request: Request, answer: Response, receivedAt: Instant) {
    && token.accessToken == answer.accessToken != "" && token.tokenType == answer.tokenType && token.scopes == answer.scopes
    && token.audience == request.audience && token.expiresAt - receivedAt == answer.expiresIn * 1_000_000_000
  }

  /** A hit; or else the lookup's effect alone after a failure, and the new token on top
      after an answer. */
  function Outcome(p: Lru.Policy, s: Contents, key: string, now: Instant, answer: Option<CachedToken>): (Contents, Option<CachedToken>) {
    var (looked, hit) := Lru.GetStep(p, s, key, now);
    if hit.Some? then (looked, hit)
    else if answer.None? then (looked, None)
    else (Lru.PutStep(p, looked, key, answer.value, answer.value.expiresAt), answer)
  }

  method Decode(request: Request, response: Option<Response>, receivedAt: Instant) returns (r: Option<CachedToken>)
    ensures r == TokenFrom(request, response, receivedAt)
    ensures r.None? <==> response.None? || response.value.accessToken == ""
    ensures r.Some? ==> AsAnswered(r.value, request, response.value, receivedAt)
  {
    if response.None? || response.value.accessToken == "" {
      return None;
    }
    var answer := response.value;
    return Some(CachedToken(answer.accessToken, answer.tokenType, request.audience, receivedAt + answer.expiresIn * SECOND, answer.scopes));
  }

  class TokenExchangeClient {
    const endpointUsable: bool            // an absolute URL that is https or explicitly allowed
    const digest: string -> string        // hex SHA-256
    const cache: TokenCache?<CachedToken>
    ghost var granted: seq<Grant>

    ghost predicate Valid()
      reads this, cache, if cache == null then {} else {cache.order}, if cache == null then {} else cache.order.Nodes()
    {
      cache != null ==> cache.Valid() && AllGranted(granted, digest, cache.contents)
    }

    constructor (endpointUsable: bool, digest: string -> string, cache: TokenCache?<CachedToken>)
      requires cache != null ==> cache.Valid() && cache.contents == []
      ensures Valid() && granted == [] && this.cache == cache && this.digest == digest && this.endpointUsable == endpointUsable
    {
      this.endpointUsable, this.digest, this.cache, granted := endpointUsable, digest, cache, [];
    }

    method Lookup(key: string, now: Instant) returns (r: Option<CachedToken>)
      requires Valid()
      modifies cache, if cache == null then {} else {cache.order}, if cache == null then {} else cache.order.Nodes()
      ensures Valid() && granted == old(granted)
      ensures cache != null ==> cache.order.Nodes() <= old(cache.order.Nodes())
      ensures r.Some? ==> GrantedFor(granted, digest, key, r.value)
      ensures if cache == null then r.None? else (cache.contents, r) == Lru.GetStep(cache.Limits(), old(cache.contents), key, now)
    {
      if cache == null {
        return None;
      }
      LookupGranted(granted, digest, cache.Limits(), cache.contents, key, now);
      r := cache.Get(key, now);
    }

    method Remember(request: Request, token: CachedToken)
      requires Valid()
      modifies this`granted, cache, if cache == null then {} else {cache.order}, if cache == null then {} else cache.order.Nodes()
      ensures Valid() && granted == old(granted) + [Grant(request, token)]
      ensures cache != null ==>
        cache.contents == Lru.PutStep(cache.Limits(), old(cache.contents), digest(Material(request)), token, token.expiresAt)
    {
      ghost var grant := Grant(request, token);
      if cache != null {
        StoreGranted(granted, digest, cache.Limits(), cache.contents, grant);
        cache.Put(digest(Material(request)), token, token.expiresAt);
      }
      granted := granted + [grant];
    }

    /** `response` is what the endpoint would answer; None stands for a transport
        error, a non-2xx status or an undecodable body. */
    method Obtain(request: Request, response: Option<Response>, receivedAt: Instant) returns (r: Option<CachedToken>)
      requires Valid()
      modifies this`granted, cache, if cache == null then {} else {cache.order}, if cache == null then {} else cache.order.Nodes()
      ensures Valid() && r == TokenFrom(request, response, receivedAt)
      ensures r.None? <==> response.None? || response.value.accessToken == ""
      ensures r.Some? ==> AsAnswered(r.value, request, response.value, receivedAt)
      ensures granted == if r.None? then old(granted) else old(granted) + [Grant(request, r.value)]
      ensures cache != null ==>
        cache.contents == if r.None? then old(cache.contents)
                          else Lru.PutStep(cache.Limits(), old(cache.contents), digest(Material(request)), r.value, r.value.expiresAt)
    {
      r := Decode(request, response, receivedAt);
      if r.Some? {
        Remember(request, r.value);
      }
    }

    method Exchange(request: Request, now: Instant, response: Option<Response>, receivedAt: Instant)
      returns (r: Option<CachedToken>)
      requires Valid()
      modifies this`granted, cache, if cache == null then {} else {cache.order}, if cache == null then {} else cache.order.Nodes()
      ensures Valid()
      ensures r.Some? ==> GrantedFor(granted, digest, digest(Material(request)), r.value)
      ensures !endpointUsable ==> r.None? && granted == old(granted) && (cache != null ==> cache.contents == old(cache.contents))
      ensures endpointUsable && cache != null ==>
        (cache.contents, r) == Outcome(cache.Limits(), old(cache.contents), digest(Material(request)), now, TokenFrom(request, response, receivedAt))
      ensures endpointUsable && granted != old(granted) ==>
        response.Some? && r.Some? && AsAnswered(r.value, request, response.value, receivedAt) && granted == old(granted) + [Grant(request, r.value)]
      ensures endpointUsable && r.None? ==> response.None? || response.value.accessToken == ""
    {
      if !endpointUsable {
        return None;
      }
      r := Lookup(digest(Material(request)), now);
      if r.Some? {
        return;
      }
      r := Obtain(request, response, receivedAt);
      if r.Some? {
        assert granted[|granted| - 1] == Grant(request, r.value);
      }
    }
  }

  /** What interleaved exchanges do to the shared cache: look a request up, or store
      the grant an earlier miss of theirs obtained. */
  datatype CacheUse = Look(request: Request, now: Instant) | Store(grant: Grant)

  function Operation(digest: string -> string, use: CacheUse): Lru.Op<CachedToken> {
    match use
    case Look(request, now) => Lru.Get(digest(Material(request)), now)
    case Store(grant) => Lru.Put(digest(Material(grant.request)), grant.token, grant.token.expiresAt)
  }

  function Operations(digest: string -> string, uses: seq<CacheUse>): (ops: seq<Lru.Op<CachedToken>>)
    ensures |ops| == |uses| && forall i :: 0 <= i < |uses| ==> ops[i] == Operation(digest, uses[i])
  {
    seq(|uses|, i requires 0 <= i < |uses| => Operation(digest, uses[i]))
  }

  /** However the exchanges of any number of callers interleave at the cache, a hit
      for `request` is a token granted earlier in the run for the same subject,
      audience and scopes. */
  lemma {:induction false} HitIsSameRequest(digest: string -> string, p: Lru.Policy, uses: seq<CacheUse>, request: Request, now: Instant)
    requires forall a, b :: digest(a) == digest(b) ==> a == b
    requires Canonical(request) && forall i :: 0 <= i < |uses| && uses[i].Store? ==> Canonical(uses[i].grant.request)
    ensures var hit := Lru.GetStep(p, Lru.Run(p, [], Operations(digest, uses)), digest(Material(request)), now).1;
      hit.Some? ==> exists i :: 0 <= i < |uses| && uses[i].Store? && uses[i].grant.token == hit.value && SameRequest(uses[i].grant.request, request)
  {
    var key := digest(Material(request));
    var s := Lru.Run(p, [], Operations(digest, uses));
    RunStored(digest, p, uses);
    if Lru.GetStep(p, s, key, now).1.Some? {
      Lru.FindIndex(s, key);
      var e := Lru.Find(s, key).value;
      var i :| 0 <= i < |uses| && Holds(digest, uses[i], e);
      MaterialIsCanonical(uses[i].grant.request, request);
    }
  }

  ghost predicate Holds(digest: string -> string, use: CacheUse, e: Lru.Entry<CachedToken>) {
    use.Store? && use.grant.token == e.value && digest(Material(use.grant.request)) == e.key
  }

  lemma StepOrigin(p: Lru.Policy, s: Contents, op: Lru.Op<CachedToken>, e: Lru.Entry<CachedToken>)
    requires e in Lru.Step(p, s, op)
    ensures e in s || (op.Put? && e == Lru.Entry(op.key, op.value, op.expiresAt))
  {
    Lru.WithoutKeys(s, op.key);
    Lru.FindIndex(s, op.key);
  }

  lemma {:induction false} RunStored(digest: string -> string, p: Lru.Policy, uses: seq<CacheUse>)
    ensures forall e :: e in Lru.Run(p, [], Operations(digest, uses)) ==> exists i :: 0 <= i < |uses| && Holds(digest, uses[i], e)
  {
    if uses != [] {
      var init, last := uses[..|uses| - 1], uses[|uses| - 1];
      RunStored(digest, p, init);
      var ops := Operations(digest, uses);
      assert Operations(digest, init) == ops[..|ops| - 1];
      var before := Lru.Run(p, [], Operations(digest, init));
      forall e | e in Lru.Run(p, [], ops) ensures exists i :: 0 <= i < |uses| && Holds(digest, uses[i], e) {
        StepOrigin(p, before, Operation(digest, last), e);
        if e in before {
          var i :| 0 <= i < |init| && Holds(digest, init[i], e);
          assert uses[i] == init[i];
        } else {
          assert Holds(digest, last, e) && uses[|uses| - 1] == last;
        }
      }
    }
  }
}
