/** What the three JWKS key caches share: the cached document, the history of
    successful refreshes, and what spacing them out bounds. */
module KeyRefreshes {
  import opened Records

  type Keys = map<string, string>

  /** One successful refresh: which fetch it was, when it was installed, what it held. */
  datatype Refresh = Refresh(fetch: nat, at: Instant, keys: Keys)

  /** The fields of a verifier; None is the zero time. */
  datatype Cache = Cache(keys: Keys, loadedAt: Option<Instant>, lastRefresh: Option<Instant>, unknown: map<string, Instant>)

  const Empty := Cache(map[], None, None, map[])

  predicate Recent(last: Option<Instant>, now: Instant, limit: int) {
    last.Some? && now - last.value < limit
  }

  function MissedAt(c: Cache, kid: string): Option<Instant> {
    if kid in c.unknown then Some(c.unknown[kid]) else None
  }

  predicate IsFresh(c: Cache, now: Instant, ttl: int) {
    c.keys != map[] && Recent(c.loadedAt, now, ttl)
  }

  function Installed(c: Cache, r: Refresh): Cache {
    c.(keys := r.keys, loadedAt := Some(r.at), lastRefresh := Some(r.at))
  }

  /** After a fetch of its own, a call notes whether the document had its key. */
  function Noted(c: Cache, kid: string, now: Instant): Cache {
    if kid in c.keys then c.(unknown := c.unknown - {kid}) else c.(unknown := c.unknown[kid := now])
  }

  /** The cache holds the latest refresh. */
  ghost predicate Tied(c: Cache, rs: seq<Refresh>) {
    if rs == [] then c.keys == map[] && c.loadedAt == None && c.lastRefresh == None
    else
      var r := rs[|rs| - 1];
      c.keys == r.keys && c.loadedAt == Some(r.at) && c.lastRefresh == Some(r.at)
  }

  ghost predicate InOrder(rs: seq<Refresh>) {
    forall i, j :: 0 <= i < j < |rs| ==> rs[i].at <= rs[j].at
  }

  predicate Apart(last: Option<Instant>, at: Instant, gap: int) {
    last.Some? ==> at - last.value >= gap
  }

  /** Any `stride` + 1 consecutive refreshes span at least `gap`. */
  ghost predicate Spaced(rs: seq<Refresh>, stride: nat, gap: int) {
    forall i, j :: 0 <= i && j == i + stride && j < |rs| ==> rs[j].at - rs[i].at >= gap
  }

  lemma {:induction false} SpacedApart(rs: seq<Refresh>, stride: nat, gap: int, i: nat, n: nat)
    requires Spaced(rs, stride, gap) && i + n * stride < |rs|
    ensures rs[i + n * stride].at - rs[i].at >= n * gap
    decreases n
  {
    if n > 0 {
      var j := i + (n - 1) * stride;
      assert j + stride == i + n * stride;
      assert (n - 1) * stride >= 0 && n * gap == (n - 1) * gap + gap;
      SpacedApart(rs, stride, gap, i, n - 1);
    }
  }

  predicate Within(r: Refresh, from: Instant, width: nat) {
    from <= r.at <= from + width
  }

  function Count(rs: seq<Refresh>, from: Instant, width: nat): nat {
    if rs == [] then 0
    else Count(rs[..|rs| - 1], from, width) + (if Within(rs[|rs| - 1], from, width) then 1 else 0)
  }

  /** The refreshes of a window lie between its first and its last one. */
  lemma {:induction false} CountSpan(rs: seq<Refresh>, from: Instant, width: nat) returns (i: nat, j: nat)
    requires Count(rs, from, width) > 0
    ensures i <= j < |rs| && Within(rs[i], from, width) && Within(rs[j], from, width)
    ensures Count(rs, from, width) <= j - i + 1
  {
    var init := rs[..|rs| - 1];
    if Count(init, from, width) > 0 {
      i, j := CountSpan(init, from, width);
      if Within(rs[|rs| - 1], from, width) { j := |rs| - 1; }
    } else {
      i, j := |rs| - 1, |rs| - 1;
    }
  }

  lemma {:induction false} SpanBound(rs: seq<Refresh>, stride: nat, gap: nat, from: Instant, width: nat, n: nat)
    requires InOrder(rs) && Spaced(rs, stride, gap) && n * gap > width && n * stride >= 0
    ensures Count(rs, from, width) <= n * stride
  {
    if Count(rs, from, width) > 0 {
      var i, j := CountSpan(rs, from, width);
      var reach := n * stride;
      if i + reach <= j {
        SpacedApart(rs, stride, gap, i, n);
      }
    }
  }

  /** Any closed window of width W sees at most stride * (W / gap + 1) of them. */
  lemma {:induction false} WindowBound(rs: seq<Refresh>, stride: nat, gap: nat, from: Instant, width: nat)
    requires InOrder(rs) && Spaced(rs, stride, gap) && gap > 0
    ensures Count(rs, from, width) <= (width / gap + 1) * stride
  {
    Overshoot(width, gap);
    NaturalProduct(width / gap + 1, stride);
    SpanBound(rs, stride, gap, from, width, width / gap + 1);
  }

  lemma ApartInSteps(rs: seq<Refresh>, gap: int, i: nat, j: nat)
    requires Spaced(rs, 1, gap) && i <= j < |rs|
    ensures rs[j].at - rs[i].at >= (j - i) * gap
  {
    SpacedApart(rs, 1, gap, i, j - i);
  }

  lemma NaturalProduct(a: nat, b: nat)
    ensures a * b >= 0
  {
  }

  lemma Overshoot(width: nat, gap: nat)
    requires gap > 0
    ensures (width / gap + 1) * gap > width
  {
  }

  // ---- the document in force, as the history tells it ----

  /** The document installed last has the key and is younger than `age`. */
  predicate Serves(rs: seq<Refresh>, kid: string, now: Instant, age: int) {
    rs != [] && kid in rs[|rs| - 1].keys && now - rs[|rs| - 1].at < age
  }

  predicate Throttled(rs: seq<Refresh>, now: Instant, gap: int) {
    rs != [] && now - rs[|rs| - 1].at < gap
  }

  predicate NotedMiss(unknown: map<string, Instant>, kid: string, now: Instant, memory: int) {
    kid in unknown && now - unknown[kid] < memory
  }

  /** The noted misses after a call has looked its key up in its own fetch's document. */
  function MissesAfter(unknown: map<string, Instant>, keys: Keys, kid: string, now: Instant): map<string, Instant> {
    if kid in keys then unknown - {kid} else unknown[kid := now]
  }

  // ---- what calls were answered ----

  /** `document` counts the refreshes at the decision. Hit, Denied and Remembered are
      decided without a fetch of the call's own, Found and Absent after one. */
  datatype Verdict =
    | Hit(kid: string, key: string, at: Instant, document: nat)
    | Denied(kid: string, at: Instant, document: nat)
    | Remembered(kid: string, at: Instant, missedAt: Instant, document: nat)
    | Found(kid: string, key: string, fetch: nat, document: nat)
    | Absent(kid: string, fetch: nat, document: nat)

  /** The document installed last when the decision was taken, and how old it was. */
  ghost predicate Current(rs: seq<Refresh>, document: nat, at: Instant, age: int) {
    0 < document <= |rs| && 0 <= at - rs[document - 1].at < age
  }

  predicate Holds(r: Refresh, kid: string, key: string) {
    kid in r.keys && r.keys[kid] == key
  }

  ghost predicate HitFits(rs: seq<Refresh>, v: Verdict, age: int)
    requires v.Hit?
  {
    Current(rs, v.document, v.at, age) && Holds(rs[v.document - 1], v.kid, v.key)
  }

  /** What a fetch of the call's own found. */
  function Outcome(keys: Keys, kid: string, fetch: nat, document: nat): Verdict {
    if kid in keys then Found(kid, keys[kid], fetch, document) else Absent(kid, fetch, document)
  }

  ghost predicate OutcomeFits(rs: seq<Refresh>, v: Verdict)
    requires v.Found? || v.Absent?
  {
    && 0 < v.document <= |rs| && rs[v.document - 1].fetch == v.fetch
    && (if v.Found? then Holds(rs[v.document - 1], v.kid, v.key) else v.kid !in rs[v.document - 1].keys)
  }

  /** A refusal right after a refresh whose document lacks the key. */
  ghost predicate DeniedFits(rs: seq<Refresh>, v: Verdict, gap: int)
    requires v.Denied?
  {
    Current(rs, v.document, v.at, gap) && v.kid !in rs[v.document - 1].keys
  }

  /** Some document installed by then lacked the key. */
  ghost predicate WasMissing(rs: seq<Refresh>, kid: string, at: Instant) {
    exists i :: 0 <= i < |rs| && kid !in rs[i].keys && rs[i].at <= at
  }

  /** A refusal from the recent-miss list. A key the document does hold is refused only
      when the document is stale and came after the miss. */
  ghost predicate RememberedFits(rs: seq<Refresh>, v: Verdict, gap: int, memory: int, ttl: int)
    requires v.Remembered?
  {
    && Current(rs, v.document, v.at, gap) && 0 <= v.at - v.missedAt < memory && WasMissing(rs, v.kid, v.missedAt)
    && (v.kid in rs[v.document - 1].keys ==> v.at - rs[v.document - 1].at >= ttl && v.missedAt <= rs[v.document - 1].at)
  }

  /** The list only holds keys some document lacked, and not the latest one unless it is newer. */
  ghost predicate MissesFit(rs: seq<Refresh>, unknown: map<string, Instant>, clock: Instant) {
    && (forall kid :: kid in unknown ==> unknown[kid] <= clock && WasMissing(rs, kid, unknown[kid]))
    && (forall kid :: kid in unknown && rs != [] && kid in rs[|rs| - 1].keys ==> unknown[kid] <= rs[|rs| - 1].at)
  }

  lemma LaterMissing(rs: seq<Refresh>, r: Refresh, kid: string, at: Instant)
    requires WasMissing(rs, kid, at)
    ensures WasMissing(rs + [r], kid, at)
  {
    var i :| 0 <= i < |rs| && kid !in rs[i].keys && rs[i].at <= at;
    assert (rs + [r])[i] == rs[i];
  }

  lemma SpacedExtends(rs: seq<Refresh>, r: Refresh, stride: nat, gap: int)
    requires Spaced(rs, stride, gap) && stride > 0
    requires |rs| >= stride ==> r.at - rs[|rs| - stride].at >= gap
    ensures Spaced(rs + [r], stride, gap)
  {
  }

  // ---- Python and TypeScript: a stale key is served while refetching is throttled ----

  datatype Limits = Limits(ttl: int, minFetch: int, unknownTTL: int)

  predicate RecentMiss(c: Limits, cache: Cache, kid: string, now: Instant) {
    Recent(MissedAt(cache, kid), now, c.unknownTTL) && Recent(cache.lastRefresh, now, c.minFetch)
  }

  function Max(a: int, b: int): int {
    if a < b then b else a
  }

  ghost predicate VerdictFits(c: Limits, rs: seq<Refresh>, v: Verdict) {
    match v
    case Hit(_, _, _, _) => HitFits(rs, v, Max(c.ttl, c.minFetch))
    case Denied(_, _, _) => DeniedFits(rs, v, c.minFetch)
    case Remembered(_, _, _, _) => RememberedFits(rs, v, c.minFetch, c.unknownTTL, c.ttl)
    case _ => OutcomeFits(rs, v)
  }

  ghost predicate VerdictsFit(c: Limits, rs: seq<Refresh>, verdicts: seq<Verdict>) {
    forall i :: 0 <= i < |verdicts| ==> VerdictFits(c, rs, verdicts[i])
  }

  lemma LaterVerdict(c: Limits, rs: seq<Refresh>, r: Refresh, v: Verdict)
    requires VerdictFits(c, rs, v)
    ensures VerdictFits(c, rs + [r], v)
  {
    if v.Remembered? { LaterMissing(rs, r, v.kid, v.missedAt); }
  }

  /** A refusal of a key that the document in force holds. */
  ghost predicate CachedRefusal(rs: seq<Refresh>, verdicts: seq<Verdict>, i: nat) {
    && i < |verdicts| && verdicts[i].Remembered?
    && 0 < verdicts[i].document <= |rs| && verdicts[i].kid in rs[verdicts[i].document - 1].keys
  }

  /** Limits under which such a refusal can happen at all. */
  predicate CanRefuseCached(c: Limits) {
    Max(c.ttl, 0) < c.minFetch && Max(c.ttl, 0) < c.unknownTTL
  }

  lemma CachedRefusalBound(c: Limits, rs: seq<Refresh>, verdicts: seq<Verdict>, i: nat)
    requires VerdictsFit(c, rs, verdicts) && CachedRefusal(rs, verdicts, i)
    ensures CanRefuseCached(c)
  {
    assert VerdictFits(c, rs, verdicts[i]);
  }
}
