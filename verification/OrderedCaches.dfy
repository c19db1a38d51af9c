/** The Python and TypeScript token caches: an insertion-ordered dictionary, oldest
    entry first. Read backwards it is the recency-ordered sequence of module Lru. */
module OrderedCaches {
  import opened Records
  import opened Lru

  function Reversed<V>(d: seq<Entry<V>>): seq<Entry<V>> {
    if d == [] then [] else Reversed(d[1..]) + [d[0]]
  }

  /** d[key] = value: an existing key keeps its place, a new one goes to the end. */
  function Assign<V>(d: seq<Entry<V>>, e: Entry<V>): seq<Entry<V>> {
    if d == [] then [e] else if d[0].key == e.key then [e] + d[1..] else [d[0]] + Assign(d[1..], e)
  }

  function MoveToEnd<V>(d: seq<Entry<V>>, key: string): seq<Entry<V>> {
    var found := Find(d, key);
    if found.None? then d else Without(d, key) + [found.value]
  }

  lemma {:induction false} ReversedAppend<V>(d: seq<Entry<V>>, e: Entry<V>)
    ensures Reversed(d + [e]) == [e] + Reversed(d)
  {
    if d == [] {
      assert [] + [e] == [e] && [e][1..] == [];
    } else {
      assert (d + [e])[1..] == d[1..] + [e];
      ReversedAppend(d[1..], e);
    }
  }

  lemma {:induction false} WithoutAppend<V>(d: seq<Entry<V>>, e: Entry<V>, key: string)
    ensures Without(d + [e], key) == Without(d, key) + (if e.key == key then [] else [e])
  {
    if d == [] {
      assert [] + [e] == [e] && [e][1..] == [];
    } else {
      assert (d + [e])[1..] == d[1..] + [e];
      WithoutAppend(d[1..], e, key);
    }
  }

  lemma {:induction false} ReversedWithout<V>(d: seq<Entry<V>>, key: string)
    ensures Reversed(Without(d, key)) == Without(Reversed(d), key)
  {
    if d != [] {
      ReversedWithout(d[1..], key);
      WithoutAppend(Reversed(d[1..]), d[0], key);
      if d[0].key != key {
        assert ([d[0]] + Without(d[1..], key))[1..] == Without(d[1..], key);
      } else {
        assert Without(d, key) == Without(d[1..], key);
      }
    }
  }

  lemma {:induction false} ReversedAt<V>(d: seq<Entry<V>>)
    ensures |Reversed(d)| == |d|
    ensures forall i :: 0 <= i < |d| ==> Reversed(d)[i] == d[|d| - 1 - i]
  {
    if d != [] { ReversedAt(d[1..]); }
  }

  lemma {:induction false} ReversedDistinct<V>(d: seq<Entry<V>>)
    requires Distinct(d)
    ensures Distinct(Reversed(d)) && |Reversed(d)| == |d|
  {
    ReversedAt(d);
  }

  lemma {:induction false} ReversedFind<V>(d: seq<Entry<V>>, key: string)
    requires Distinct(d)
    ensures Find(Reversed(d), key) == Find(d, key)
  {
    ReversedAt(d);
    ReversedDistinct(d);
    FindIndex(d, key);
    FindIndex(Reversed(d), key);
    if Find(d, key).Some? {
      var i :| 0 <= i < |d| && d[i] == Find(d, key).value;
      WithoutAt(Reversed(d), |d| - 1 - i);
    }
  }

  lemma {:induction false} AssignWithout<V>(d: seq<Entry<V>>, e: Entry<V>)
    ensures Without(Assign(d, e), e.key) == Without(d, e.key) && Find(Assign(d, e), e.key) == Some(e)
  {
    if d != [] {
      if d[0].key == e.key {
        assert ([e] + d[1..])[1..] == d[1..];
      } else {
        AssignWithout(d[1..], e);
        assert ([d[0]] + Assign(d[1..], e))[1..] == Assign(d[1..], e);
      }
    } else {
      assert [e][1..] == [];
    }
  }

  /** Dropping the oldest entry, read backwards. */
  lemma {:induction false} ReversedTail<V>(d: seq<Entry<V>>, n: nat)
    requires n <= |d|
    ensures |Reversed(d)| == |d| && Reversed(d[|d| - n..]) == Reversed(d)[..n]
  {
    ReversedAt(d);
    ReversedAt(d[|d| - n..]);
  }

  lemma {:induction false} AppendDistinct<V>(d: seq<Entry<V>>, e: Entry<V>)
    requires Distinct(d)
    ensures Distinct(Without(d, e.key) + [e])
  {
    WithoutDistinct(d, e.key);
    WithoutKeys(d, e.key);
    var rest := Without(d, e.key);
    var r := rest + [e];
    forall i, j | 0 <= i < j < |r| ensures r[i].key != r[j].key {
      assert r[i] == rest[i];
      if j < |rest| { assert rest[i].key != rest[j].key; } else { assert r[j] == e; }
    }
  }

  /** The eviction loop: the oldest entries go until the limit holds. */
  method EvictOldest<V>(d: seq<Entry<V>>, max: nat) returns (kept: seq<Entry<V>>)
    requires Distinct(d)
    ensures Distinct(kept) && |kept| <= max && Reversed(kept) == Front(Reversed(d), max)
  {
    kept := d;
    while |kept| > max
      invariant |kept| <= |d| && kept == d[|d| - |kept|..]
      invariant |kept| == |d| || |kept| >= max
    {
      kept := kept[1..];
    }
    ReversedTail(d, |kept|);
  }

  /** A hit: the entry moves to the end, the front when read backwards. */
  lemma {:induction false} Touched<V>(d: seq<Entry<V>>, key: string)
    requires Distinct(d) && Find(d, key).Some?
    ensures var e := Find(d, key).value;
      && Distinct(Without(d, key) + [e]) && |Without(d, key) + [e]| == |d|
      && Reversed(Without(d, key) + [e]) == [e] + Without(Reversed(d), key)
  {
    var e := Find(d, key).value;
    FindIndex(d, key);
    WithoutDistinct(d, key);
    AppendDistinct(d, e);
    ReversedAppend(Without(d, key), e);
    ReversedWithout(d, key);
  }

  /** A store: the entry goes to the end in place of any earlier one. */
  lemma {:induction false} Stored<V>(d: seq<Entry<V>>, e: Entry<V>)
    requires Distinct(d)
    ensures Distinct(Without(d, e.key) + [e])
    ensures Reversed(Without(d, e.key) + [e]) == [e] + Without(Reversed(d), e.key)
  {
    AppendDistinct(d, e);
    ReversedAppend(Without(d, e.key), e);
    ReversedWithout(d, e.key);
  }

  class BoundedTokenCache<V> {
    const maxEntries: int
    const expiryMargin: int
    var values: seq<Entry<V>>

    ghost predicate Valid()
      reads this
    {
      1 <= maxEntries && 0 <= expiryMargin && Distinct(values) && |values| <= maxEntries
    }

    function Limits(): Policy
      requires 0 <= maxEntries
    {
      Policy(maxEntries, expiryMargin, false)
    }

    ghost function Contents(): seq<Entry<V>>
      reads this
    {
      Reversed(values)
    }

    constructor (maxEntries: int, expiryMargin: int)
      requires 1 <= maxEntries && 0 <= expiryMargin
      ensures Valid() && Contents() == [] && this.maxEntries == maxEntries && this.expiryMargin == expiryMargin
    {
      this.maxEntries, this.expiryMargin, values := maxEntries, expiryMargin, [];
    }

    /** Construction refuses an unusable size or margin. */
    static method Create(maxEntries: int, expiryMargin: int) returns (cache: BoundedTokenCache?<V>)
      ensures cache == null <==> maxEntries < 1 || expiryMargin < 0
      ensures cache != null ==> fresh(cache) && cache.Valid() && cache.Contents() == []
    {
      if maxEntries < 1 || expiryMargin < 0 {
        return null;
      }
      cache := new BoundedTokenCache(maxEntries, expiryMargin);
    }

    method Get(key: string, now: Instant) returns (r: Option<V>)
      requires Valid()
      modifies this
      ensures Valid() && (Contents(), r) == GetStep(Limits(), old(Contents()), key, now)
      ensures r.Some? <==> Find(old(Contents()), key).Some? && now + expiryMargin < Find(old(Contents()), key).value.expiresAt
    {
      ReversedFind(values, key);
      ReversedWithout(values, key);
      WithoutDistinct(values, key);
      var found := Find(values, key);
      if found.None? {
        return None;
      }
      if found.value.expiresAt <= now + expiryMargin {
        values := Without(values, key);
        return None;
      }
      Touched(values, key);
      values := MoveToEnd(values, key);
      return Some(found.value.value);
    }

    method Put(key: string, value: V, expiresAt: Instant)
      requires Valid()
      modifies this
      ensures Valid() && Contents() == PutStep(Limits(), old(Contents()), key, value, expiresAt)
    {
      var entry := Entry(key, value, expiresAt);
      AssignWithout(values, entry);
      Stored(values, entry);
      values := Assign(values, entry);
      values := MoveToEnd(values, key);
      values := EvictOldest(values, maxEntries);
    }
  }

  class TokenExchangeCache<V> {
    const maxEntries: int
    const expiryMarginMs: int
    var values: seq<Entry<V>>

    ghost predicate Valid()
      reads this
    {
      1 <= maxEntries && 0 <= expiryMarginMs && Distinct(values) && |values| <= maxEntries
    }

    function Limits(): Policy
      requires 0 <= maxEntries
    {
      Policy(maxEntries, expiryMarginMs, false)
    }

    ghost function Contents(): seq<Entry<V>>
      reads this
    {
      Reversed(values)
    }

    constructor (maxEntries: int, expiryMarginMs: int)
      requires 1 <= maxEntries && 0 <= expiryMarginMs
      ensures Valid() && Contents() == [] && this.maxEntries == maxEntries && this.expiryMarginMs == expiryMarginMs
    {
      this.maxEntries, this.expiryMarginMs, values := maxEntries, expiryMarginMs, [];
    }

    static method Create(maxEntries: int, expiryMarginMs: int) returns (cache: TokenExchangeCache?<V>)
      ensures cache == null <==> maxEntries < 1 || expiryMarginMs < 0
      ensures cache != null ==> fresh(cache) && cache.Valid() && cache.Contents() == []
    {
      if maxEntries < 1 || expiryMarginMs < 0 {
        return null;
      }
      cache := new TokenExchangeCache(maxEntries, expiryMarginMs);
    }

    method Get(key: string, now: Instant) returns (r: Option<V>)
      requires Valid()
      modifies this
      ensures Valid() && (Contents(), r) == GetStep(Limits(), old(Contents()), key, now)
      ensures r.Some? <==> Find(old(Contents()), key).Some? && now + expiryMarginMs < Find(old(Contents()), key).value.expiresAt
    {
      ReversedFind(values, key);
      ReversedWithout(values, key);
      WithoutDistinct(values, key);
      var value := Find(values, key);
      if value.None? {
        return None;
      }
      if value.value.expiresAt <= now + expiryMarginMs {
        values := Without(values, key);
        return None;
      }
      Touched(values, key);
      values := Without(values, key);
      values := values + [value.value];
      return Some(value.value.value);
    }

    method Set(key: string, value: V, expiresAt: Instant)
      requires Valid()
      modifies this
      ensures Valid() && Contents() == PutStep(Limits(), old(Contents()), key, value, expiresAt)
    {
      var entry := Entry(key, value, expiresAt);
      Stored(values, entry);
      if Find(values, key).Some? {
        values := Without(values, key);
      } else {
        FindIndex(values, key);
        WithoutAbsent(values, key);
      }
      values := values + [entry];
      values := EvictOldest(values, maxEntries);
    }
  }
}
