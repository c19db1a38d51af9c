/** The recency-ordered sequence all three token caches refine, most recent first,
    and what a bounded least-recently-used cache guarantees. */
module Lru {
  import opened Records

  datatype Entry<+V> = Entry(key: string, value: V, expiresAt: Instant)

  /** `serveAtLimit`: whether a value is still served at the instant its expiry
      equals now plus the margin (Go serves it; Python and TypeScript do not). */
  datatype Policy = Policy(max: nat, margin: int, serveAtLimit: bool)

  datatype Op<+V> = Get(key: string, now: Instant) | Put(key: string, value: V, expiresAt: Instant)

  predicate Expired(p: Policy, expiresAt: Instant, now: Instant) {
    if p.serveAtLimit then now + p.margin > expiresAt else expiresAt <= now + p.margin
  }

  ghost predicate Distinct<V>(s: seq<Entry<V>>) {
    forall i, j :: 0 <= i < j < |s| ==> s[i].key != s[j].key
  }

  function Find<V>(s: seq<Entry<V>>, key: string): Option<Entry<V>> {
    if s == [] then None else if s[0].key == key then Some(s[0]) else Find(s[1..], key)
  }

  function Without<V>(s: seq<Entry<V>>, key: string): seq<Entry<V>> {
    if s == [] then [] else (if s[0].key == key then [] else [s[0]]) + Without(s[1..], key)
  }

  function Front<V>(s: seq<Entry<V>>, n: nat): seq<Entry<V>> {
    if |s| <= n then s else s[..n]
  }

  lemma FrontDropsLast<V>(s: seq<Entry<V>>, n: nat)
    requires |s| > n
    ensures Front(s[..|s| - 1], n) == Front(s, n)
  {
  }

  function GetStep<V>(p: Policy, s: seq<Entry<V>>, key: string, now: Instant): (seq<Entry<V>>, Option<V>) {
    var found := Find(s, key);
    if found.None? then (s, None)
    else if Expired(p, found.value.expiresAt, now) then (Without(s, key), None)
    else ([found.value] + Without(s, key), Some(found.value.value))
  }

  function PutStep<V>(p: Policy, s: seq<Entry<V>>, key: string, value: V, expiresAt: Instant): seq<Entry<V>> {
    Front([Entry(key, value, expiresAt)] + Without(s, key), p.max)
  }

  function Step<V>(p: Policy, s: seq<Entry<V>>, op: Op<V>): seq<Entry<V>> {
    match op
    case Get(key, now) => GetStep(p, s, key, now).0
    case Put(key, value, expiresAt) => PutStep(p, s, key, value, expiresAt)
  }

  function Run<V>(p: Policy, s: seq<Entry<V>>, ops: seq<Op<V>>): seq<Entry<V>> {
    if ops == [] then s else Step(p, Run(p, s, ops[..|ops| - 1]), ops[|ops| - 1])
  }

  ghost predicate Bounded<V>(p: Policy, s: seq<Entry<V>>) {
    Distinct(s) && |s| <= p.max
  }

  // ---- sequences with distinct keys ----

  lemma {:induction false} FindIndex<V>(s: seq<Entry<V>>, key: string)
    ensures Find(s, key).Some? ==> Find(s, key).value in s && Find(s, key).value.key == key
    ensures Find(s, key).None? ==> forall i :: 0 <= i < |s| ==> s[i].key != key
  {
    if s != [] {
      FindIndex(s[1..], key);
      if Find(s, key).None? {
        forall i | 0 <= i < |s| ensures s[i].key != key {
          if i > 0 { assert s[i] == s[1..][i - 1]; }
        }
      }
    }
  }

  lemma {:induction false} WithoutKeys<V>(s: seq<Entry<V>>, key: string)
    ensures forall e :: e in Without(s, key) <==> e in s && e.key != key
    ensures forall i :: 0 <= i < |Without(s, key)| ==> Without(s, key)[i].key != key
  {
    if s != [] {
      WithoutKeys(s[1..], key);
      assert s == [s[0]] + s[1..];
    }
  }

  lemma {:induction false} WithoutAbsent<V>(s: seq<Entry<V>>, key: string)
    requires forall i :: 0 <= i < |s| ==> s[i].key != key
    ensures Without(s, key) == s
  {
    if s != [] {
      WithoutAbsent(s[1..], key);
      assert s == [s[0]] + s[1..];
    }
  }

  /** Removing the key at index `i` of a sequence with distinct keys. */
  lemma {:induction false} WithoutAt<V>(s: seq<Entry<V>>, i: nat)
    requires Distinct(s) && i < |s|
    ensures Without(s, s[i].key) == s[..i] + s[i + 1..] && Find(s, s[i].key) == Some(s[i])
  {
    if i == 0 {
      WithoutAbsent(s[1..], s[0].key);
    } else {
      WithoutAt(s[1..], i - 1);
      assert s[1..][i - 1] == s[i];
      assert s[..i] + s[i + 1..] == [s[0]] + (s[1..][..i - 1] + s[1..][i..]);
    }
  }

  lemma {:induction false} WithoutDistinct<V>(s: seq<Entry<V>>, key: string)
    requires Distinct(s)
    ensures Distinct(Without(s, key))
    ensures |Without(s, key)| == if Find(s, key).Some? then |s| - 1 else |s|
  {
    FindIndex(s, key);
    if Find(s, key).Some? {
      var i :| 0 <= i < |s| && s[i] == Find(s, key).value;
      WithoutAt(s, i);
    } else {
      WithoutAbsent(s, key);
    }
  }

  lemma {:induction false} ConsDistinct<V>(e: Entry<V>, s: seq<Entry<V>>)
    requires Distinct(s)
    ensures Distinct([e] + Without(s, e.key))
  {
    WithoutDistinct(s, e.key);
    WithoutKeys(s, e.key);
    var r := [e] + Without(s, e.key);
    var rest := Without(s, e.key);
    forall i, j | 0 <= i < j < |r| ensures r[i].key != r[j].key {
      assert r[j] == rest[j - 1] && rest[j - 1] in rest;
      if i > 0 {
        assert r[i] == rest[i - 1] && rest[i - 1].key != rest[j - 1].key;
      } else {
        assert r[0] == e;
      }
    }
  }

  /** Every operation keeps keys distinct and the size within the limit. */
  lemma StepKeepsBounded<V>(p: Policy, s: seq<Entry<V>>, op: Op<V>)
    requires Bounded(p, s)
    ensures Bounded(p, Step(p, s, op))
  {
    WithoutDistinct(s, op.key);
    FindIndex(s, op.key);
    if op.Get? {
      if Find(s, op.key).Some? { ConsDistinct(Find(s, op.key).value, s); }
    } else {
      ConsDistinct(Entry(op.key, op.value, op.expiresAt), s);
    }
  }

  lemma {:induction false} RunKeepsBounded<V>(p: Policy, s: seq<Entry<V>>, ops: seq<Op<V>>)
    requires Bounded(p, s)
    ensures Bounded(p, Run(p, s, ops))
  {
    if ops != [] {
      RunKeepsBounded(p, s, ops[..|ops| - 1]);
      StepKeepsBounded(p, Run(p, s, ops[..|ops| - 1]), ops[|ops| - 1]);
    }
  }

  // ---- the value returned is the last one put ----

  function LastPut<V>(ops: seq<Op<V>>, key: string): Option<Entry<V>> {
    if ops == [] then None
    else
      var op := ops[|ops| - 1];
      if op.Put? && op.key == key then Some(Entry(key, op.value, op.expiresAt)) else LastPut(ops[..|ops| - 1], key)
  }

  lemma {:induction false} ResidentIsLastPut<V>(p: Policy, ops: seq<Op<V>>, e: Entry<V>)
    requires e in Run(p, [], ops)
    ensures LastPut(ops, e.key) == Some(e)
  {
    var before, op := ops[..|ops| - 1], ops[|ops| - 1];
    var s := Run(p, [], before);
    WithoutKeys(s, op.key);
    FindIndex(s, op.key);
    if e in s && !(op.Put? && op.key == e.key) {
      ResidentIsLastPut(p, before, e);
    }
  }

  /** A Get returns the last value put under its key exactly when that entry is
      resident and `now` is up to the margin before its expiry, that instant included or
      not by the policy; otherwise it returns nothing. */
  lemma {:induction false} GetReturnsLastPut<V>(p: Policy, ops: seq<Op<V>>, key: string, now: Instant)
    ensures
      var s := Run(p, [], ops);
      var r := GetStep(p, s, key, now).1;
      && (r.Some? <==> Find(s, key).Some? && now <= Find(s, key).value.expiresAt - p.margin - (if p.serveAtLimit then 0 else 1))
      && (r.Some? ==> LastPut(ops, key).Some? && r.value == LastPut(ops, key).value.value)
  {
    var s := Run(p, [], ops);
    FindIndex(s, key);
    if Find(s, key).Some? {
      ResidentIsLastPut(p, ops, Find(s, key).value);
    }
  }

  // ---- the order is the order of last use ----

  /** One more than the index of the last operation that put or hit the key; 0 for none. */
  function LastUse<V>(p: Policy, ops: seq<Op<V>>, key: string): nat {
    if ops == [] then 0
    else
      var before, op := ops[..|ops| - 1], ops[|ops| - 1];
      if op.key == key && (op.Put? || GetStep(p, Run(p, [], before), key, op.now).1.Some?) then |ops|
      else LastUse(p, before, key)
  }

  lemma {:induction false} LastUseBound<V>(p: Policy, ops: seq<Op<V>>, key: string)
    ensures LastUse(p, ops, key) <= |ops|
  {
    if ops != [] { LastUseBound(p, ops[..|ops| - 1], key); }
  }

  /** Earlier in the sequence means used later. */
  ghost predicate ByLastUse<V>(p: Policy, ops: seq<Op<V>>, s: seq<Entry<V>>) {
    forall i, j :: 0 <= i < j < |s| ==> LastUse(p, ops, s[i].key) > LastUse(p, ops, s[j].key)
  }

  lemma {:induction false} OtherUse<V>(p: Policy, before: seq<Op<V>>, op: Op<V>, key: string)
    requires key != op.key
    ensures LastUse(p, before + [op], key) == LastUse(p, before, key) <= |before|
  {
    assert (before + [op])[..|before|] == before;
    LastUseBound(p, before, key);
  }

  lemma {:induction false} WithoutByLastUse<V>(p: Policy, ops: seq<Op<V>>, s: seq<Entry<V>>, key: string)
    requires Distinct(s) && ByLastUse(p, ops, s)
    ensures ByLastUse(p, ops, Without(s, key))
  {
    FindIndex(s, key);
    if Find(s, key).Some? {
      var i :| 0 <= i < |s| && s[i] == Find(s, key).value;
      WithoutAt(s, i);
    } else {
      WithoutAbsent(s, key);
    }
  }

  /** Removing the operation's key leaves the others in order. */
  lemma {:induction false} RestByLastUse<V>(p: Policy, before: seq<Op<V>>, op: Op<V>, s: seq<Entry<V>>)
    requires Distinct(s) && ByLastUse(p, before, s)
    ensures ByLastUse(p, before + [op], Without(s, op.key))
    ensures forall i :: 0 <= i < |Without(s, op.key)| ==> LastUse(p, before + [op], Without(s, op.key)[i].key) <= |before|
  {
    var r := Without(s, op.key);
    WithoutKeys(s, op.key);
    WithoutByLastUse(p, before, s, op.key);
    forall i | 0 <= i < |r| ensures LastUse(p, before + [op], r[i].key) == LastUse(p, before, r[i].key) <= |before| {
      OtherUse(p, before, op, r[i].key);
    }
  }

  lemma {:induction false} FrontByLastUse<V>(p: Policy, ops: seq<Op<V>>, e: Entry<V>, rest: seq<Entry<V>>, n: nat)
    requires ByLastUse(p, ops, rest)
    requires forall i :: 0 <= i < |rest| ==> LastUse(p, ops, rest[i].key) < LastUse(p, ops, e.key)
    ensures ByLastUse(p, ops, Front([e] + rest, n))
  {
  }

  lemma {:induction false} StepByLastUse<V>(p: Policy, before: seq<Op<V>>, op: Op<V>)
    requires var s := Run(p, [], before); Bounded(p, s) && ByLastUse(p, before, s)
    ensures ByLastUse(p, before + [op], Step(p, Run(p, [], before), op))
  {
    var s, ops := Run(p, [], before), before + [op];
    assert ops[..|before|] == before;
    RestByLastUse(p, before, op, s);
    FindIndex(s, op.key);
    if op.Put? {
      FrontByLastUse(p, ops, Entry(op.key, op.value, op.expiresAt), Without(s, op.key), p.max);
    } else if Find(s, op.key).None? {
      WithoutAbsent(s, op.key);
    } else if GetStep(p, s, op.key, op.now).1.Some? {
      var e := Find(s, op.key).value;
      FrontByLastUse(p, ops, e, Without(s, op.key), |[e] + Without(s, op.key)|);
    }
  }

  /** The sequence is ordered by last use, so the entry an eviction drops, the last
      one, is the least recently used. */
  lemma {:induction false} OrderedByLastUse<V>(p: Policy, ops: seq<Op<V>>)
    ensures ByLastUse(p, ops, Run(p, [], ops))
  {
    if ops != [] {
      var before, op := ops[..|ops| - 1], ops[|ops| - 1];
      assert before + [op] == ops;
      OrderedByLastUse(p, before);
      RunKeepsBounded(p, [], before);
      StepByLastUse(p, before, op);
    }
  }

  // ---- residency ----

  /** The keys used more recently than `key`. */
  function Ahead<V>(s: seq<Entry<V>>, key: string): set<string> {
    if s == [] || s[0].key == key then {} else {s[0].key} + Ahead(s[1..], key)
  }

  /** The keys put or hit during a run. */
  function Used<V>(p: Policy, s: seq<Entry<V>>, ops: seq<Op<V>>): set<string> {
    if ops == [] then {}
    else
      var before, op := ops[..|ops| - 1], ops[|ops| - 1];
      Used(p, s, before)
      + (if op.Put? || GetStep(p, Run(p, s, before), op.key, op.now).1.Some? then {op.key} else {})
  }

  lemma {:induction false} AheadKeys<V>(s: seq<Entry<V>>, key: string)
    ensures forall k :: k in Ahead(s, key) ==> Find(s, k).Some?
  {
    if s != [] {
      AheadKeys(s[1..], key);
    }
  }

  lemma {:induction false} AheadSize<V>(s: seq<Entry<V>>, key: string)
    requires Distinct(s) && s != [] && s[0].key != key
    ensures |Ahead(s, key)| == 1 + |Ahead(s[1..], key)|
  {
    AheadKeys(s[1..], key);
    FindIndex(s[1..], s[0].key);
    assert Find(s[1..], s[0].key).None? by {
      assert forall e :: e in s[1..] ==> e.key != s[0].key;
    }
  }

  /** A key stays in the first `n` entries when fewer than `n` keys are ahead of it. */
  lemma {:induction false} FrontKeeps<V>(s: seq<Entry<V>>, key: string, n: nat)
    requires Distinct(s) && Find(s, key).Some? && |Ahead(s, key)| < n
    ensures Find(Front(s, n), key) == Find(s, key) && Ahead(Front(s, n), key) == Ahead(s, key)
  {
    if s[0].key != key {
      AheadSize(s, key);
      FrontKeeps(s[1..], key, n - 1);
      assert Front(s, n)[1..] == Front(s[1..], n - 1);
    }
  }

  lemma {:induction false} WithoutAhead<V>(s: seq<Entry<V>>, other: string, key: string)
    requires other != key
    ensures Find(Without(s, other), key) == Find(s, key)
    ensures Ahead(Without(s, other), key) == Ahead(s, key) - {other}
  {
    if s != [] {
      WithoutAhead(s[1..], other, key);
      if s[0].key != other {
        assert Without(s, other)[1..] == Without(s[1..], other);
      } else {
        assert Without(s, other) == Without(s[1..], other);
      }
    }
  }

  lemma {:induction false} ConsAhead<V>(e: Entry<V>, s: seq<Entry<V>>, key: string)
    requires e.key != key
    ensures Find([e] + s, key) == Find(s, key) && Ahead([e] + s, key) == {e.key} + Ahead(s, key)
  {
    assert ([e] + s)[1..] == s;
  }

  lemma SmallerSet(a: set<string>, b: set<string>)
    requires a <= b
    ensures |a| <= |b|
  {
    assert b == a + (b - a);
  }

  /** An entry just used stays resident, unchanged, through any operations on other
      keys that use fewer than `max` distinct keys. */
  lemma {:induction false} StaysResident<V>(p: Policy, s: seq<Entry<V>>, ops: seq<Op<V>>)
    requires Bounded(p, s) && s != []
    requires forall i :: 0 <= i < |ops| ==> ops[i].key != s[0].key
    requires |Used(p, s, ops)| < p.max
    ensures Find(Run(p, s, ops), s[0].key) == Some(s[0])
    ensures Ahead(Run(p, s, ops), s[0].key) <= Used(p, s, ops)
  {
    if ops != [] {
      var before, op, key := ops[..|ops| - 1], ops[|ops| - 1], s[0].key;
      SmallerSet(Used(p, s, before), Used(p, s, ops));
      StaysResident(p, s, before);
      var t := Run(p, s, before);
      RunKeepsBounded(p, s, before);
      WithoutAhead(t, op.key, key);
      FindIndex(t, op.key);
      if op.Get? {
        if Find(t, op.key).Some? { ConsAhead(Find(t, op.key).value, Without(t, op.key), key); }
      } else {
        var e := Entry(op.key, op.value, op.expiresAt);
        ConsAhead(e, Without(t, op.key), key);
        ConsDistinct(e, t);
        SmallerSet(Ahead([e] + Without(t, op.key), key), Used(p, s, ops));
        FrontKeeps([e] + Without(t, op.key), key, p.max);
      }
    }
  }

  /** An unexpired key is still a hit while fewer than `max` distinct other keys were
      put or hit since its last use. */
  lemma {:induction false} StillAHit<V>(p: Policy, s: seq<Entry<V>>, use: Op<V>, ops: seq<Op<V>>, now: Instant)
    requires Bounded(p, s) && p.max >= 1
    requires use.Put? || GetStep(p, s, use.key, use.now).1.Some?
    requires forall i :: 0 <= i < |ops| ==> ops[i].key != use.key
    requires |Used(p, Step(p, s, use), ops)| < p.max
    requires !Expired(p, Step(p, s, use)[0].expiresAt, now)
    ensures GetStep(p, Run(p, Step(p, s, use), ops), use.key, now).1 == Some(Step(p, s, use)[0].value)
    ensures Step(p, s, use)[0].value == if use.Put? then use.value else GetStep(p, s, use.key, use.now).1.value
  {
    FindIndex(s, use.key);
    StepKeepsBounded(p, s, use);
    StaysResident(p, Step(p, s, use), ops);
  }

  // ---- inclusion ----

  /** `s` is `t` with some entries left out, in the same order. */
  predicate Sub<V(==)>(s: seq<Entry<V>>, t: seq<Entry<V>>) {
    s == [] || (t != [] && if s[0] == t[0] then Sub(s[1..], t[1..]) else Sub(s, t[1..]))
  }

  lemma {:induction false} SubMembers<V>(s: seq<Entry<V>>, t: seq<Entry<V>>)
    requires Sub(s, t)
    ensures forall e :: e in s ==> e in t
    ensures |s| <= |t|
  {
    if s != [] {
      assert s == [s[0]] + s[1..] && t == [t[0]] + t[1..];
      if s[0] == t[0] { SubMembers(s[1..], t[1..]); } else { SubMembers(s, t[1..]); }
    }
  }

  lemma {:induction false} SubTail<V>(s: seq<Entry<V>>, t: seq<Entry<V>>)
    requires Sub(s, t) && s != []
    ensures Sub(s[1..], t[1..])
  {
    if s[0] != t[0] {
      SubTail(s, t[1..]);
      SubSkip(s[1..], t[1..]);
    }
  }

  /** Dropping the head of the larger sequence only loses a match with the head of
      the smaller one. */
  lemma {:induction false} SubSkip<V>(s: seq<Entry<V>>, t: seq<Entry<V>>)
    requires t != [] && Sub(s, t[1..])
    ensures Sub(s, t)
  {
    if s != [] && s[0] == t[0] {
      SubTail(s, t[1..]);
      SubSkip(s[1..], t[1..]);
    }
  }

  lemma {:induction false} SubWithout<V>(s: seq<Entry<V>>, t: seq<Entry<V>>, key: string)
    requires Sub(s, t)
    ensures Sub(Without(s, key), Without(t, key))
  {
    if s != [] {
      var rest := Without(t[1..], key);
      assert Without(t, key) == if t[0].key == key then rest else [t[0]] + rest;
      if s[0] == t[0] {
        SubWithout(s[1..], t[1..], key);
        assert Without(s, key) == if t[0].key == key then Without(s[1..], key) else [t[0]] + Without(s[1..], key);
        SubCons(t[0], Without(s[1..], key), rest);
      } else {
        SubWithout(s, t[1..], key);
        SubConsRight(t[0], Without(s, key), rest);
      }
    }
  }

  lemma {:induction false} SubCons<V>(e: Entry<V>, s: seq<Entry<V>>, t: seq<Entry<V>>)
    requires Sub(s, t)
    ensures Sub([e] + s, [e] + t)
  {
    assert ([e] + s)[1..] == s && ([e] + t)[1..] == t;
  }

  lemma {:induction false} SubConsRight<V>(e: Entry<V>, s: seq<Entry<V>>, t: seq<Entry<V>>)
    requires Sub(s, t)
    ensures Sub(s, [e] + t)
  {
    assert ([e] + t)[1..] == t;
    SubSkip(s, [e] + t);
  }

  /** Dropping the last entry of the smaller sequence, or of both. */
  lemma {:induction false} SubDropLast<V>(s: seq<Entry<V>>, t: seq<Entry<V>>)
    requires Sub(s, t) && s != []
    ensures t != [] && Sub(s[..|s| - 1], t[..|t| - 1]) && Sub(s[..|s| - 1], t)
  {
    SubMembers(s, t);
    var s', t' := s[..|s| - 1], t[..|t| - 1];
    if |t| == 1 || |s| == 1 {
      assert s' == [];
    } else if s[0] == t[0] {
      SubDropLast(s[1..], t[1..]);
      assert s'[1..] == s[1..][..|s| - 2] && t'[1..] == t[1..][..|t| - 2];
    } else {
      SubDropLast(s, t[1..]);
      assert t'[1..] == t[1..][..|t| - 2];
    }
  }

  lemma {:induction false} SubFind<V>(s: seq<Entry<V>>, t: seq<Entry<V>>, key: string)
    requires Sub(s, t) && Distinct(t) && Find(s, key).Some?
    ensures Find(t, key) == Find(s, key)
  {
    SubMembers(s, t);
    FindIndex(s, key);
    var i :| 0 <= i < |t| && t[i] == Find(s, key).value;
    WithoutAt(t, i);
  }

  /** A smaller and a larger cache under one operation sequence: the smaller holds
      some of the larger's entries in the same order, and has no more room. */
  ghost predicate Nested<V>(small: Policy, large: Policy, s: seq<Entry<V>>, t: seq<Entry<V>>) {
    Bounded(small, s) && Bounded(large, t) && Sub(s, t) && small.max - |s| <= large.max - |t|
  }

  lemma GetKeepsNested<V>(small: Policy, large: Policy, s: seq<Entry<V>>, t: seq<Entry<V>>, key: string, now: Instant)
    requires Nested(small, large, s, t) && small == large.(max := small.max)
    ensures Nested(small, large, GetStep(small, s, key, now).0, GetStep(large, t, key, now).0)
  {
    var op: Op<V> := Get(key, now);
    StepKeepsBounded(small, s, op);
    StepKeepsBounded(large, t, op);
    WithoutDistinct(s, key);
    WithoutDistinct(t, key);
    SubWithout(s, t, key);
    if Find(s, key).Some? {
      SubFind(s, t, key);
      SubCons(Find(s, key).value, Without(s, key), Without(t, key));
    } else {
      FindIndex(s, key);
      WithoutAbsent(s, key);
      if Find(t, key).Some? {
        SubConsRight(Find(t, key).value, s, Without(t, key));
      }
    }
  }

  lemma PutKeepsNested<V>(small: Policy, large: Policy, s: seq<Entry<V>>, t: seq<Entry<V>>, e: Entry<V>)
    requires Nested(small, large, s, t) && small == large.(max := small.max) && small.max >= 1
    ensures Nested(small, large, PutStep(small, s, e.key, e.value, e.expiresAt), PutStep(large, t, e.key, e.value, e.expiresAt))
  {
    StepKeepsBounded(small, s, Put(e.key, e.value, e.expiresAt));
    StepKeepsBounded(large, t, Put(e.key, e.value, e.expiresAt));
    WithoutDistinct(s, e.key);
    WithoutDistinct(t, e.key);
    SubWithout(s, t, e.key);
    var s', t' := [e] + Without(s, e.key), [e] + Without(t, e.key);
    SubCons(e, Without(s, e.key), Without(t, e.key));
    SubDropLast(s', t');
    if Find(s, e.key).Some? { SubFind(s, t, e.key); }
  }

  lemma {:induction false} RunKeepsNested<V>(small: Policy, large: Policy, ops: seq<Op<V>>)
    requires small == large.(max := small.max) && 1 <= small.max <= large.max
    ensures Nested(small, large, Run(small, [], ops), Run(large, [], ops))
  {
    if ops != [] {
      var before, op := ops[..|ops| - 1], ops[|ops| - 1];
      RunKeepsNested(small, large, before);
      var s, t := Run(small, [], before), Run(large, [], before);
      match op
      case Get(key, now) => GetKeepsNested(small, large, s, t, key, now);
      case Put(key, value, expiresAt) => PutKeepsNested(small, large, s, t, Entry(key, value, expiresAt));
    }
  }

  /** Whatever one capacity holds, any larger capacity holds too, with the same
      value and expiry, also when expired entries were deleted on the way. */
  lemma {:induction false} LargerCacheHoldsMore<V>(small: Policy, large: Policy, ops: seq<Op<V>>, key: string)
    requires small == large.(max := small.max) && 1 <= small.max <= large.max
    requires Find(Run(small, [], ops), key).Some?
    ensures Find(Run(large, [], ops), key) == Find(Run(small, [], ops), key)
  {
    RunKeepsNested(small, large, ops);
    SubFind(Run(small, [], ops), Run(large, [], ops), key);
  }
}
