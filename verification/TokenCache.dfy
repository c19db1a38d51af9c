/** The Go token cache: a map into a doubly linked list. Both always agree and
    together are the recency-ordered sequence of module Lru. */
module TokenCaches {
  import opened Records
  import opened Lru
  import opened ContainerList

  /** The map holds exactly the elements, each once and under its key. */
  ghost predicate Indexed<V>(values: map<string, Element<V>>, elements: seq<Element<V>>) {
    && (forall i :: 0 <= i < |elements| ==> elements[i].key in values && values[elements[i].key] == elements[i])
    && (forall k :: k in values ==> values[k] in elements && values[k].key == k)
  }

  ghost predicate Separate<V>(elements: seq<Element<V>>) {
    forall i, j :: 0 <= i < j < |elements| ==> elements[i] != elements[j]
  }

  /** The elements, read in order, are the sequence. */
  ghost predicate Mirrors<V>(contents: seq<Entry<V>>, elements: seq<Element<V>>)
    reads elements`value, elements`expiresAt
  {
    |contents| == |elements|
    && forall i :: 0 <= i < |contents| ==> contents[i] == Entry(elements[i].key, elements[i].value, elements[i].expiresAt)
  }

  lemma CutMembers<V>(elements: seq<Element<V>>, k: nat)
    requires Separate(elements) && k < |elements|
    ensures forall e :: e in Cut(elements, k) <==> e in elements && e != elements[k]
  {
    var rest := Cut(elements, k);
    forall e | e in elements && e != elements[k] ensures e in rest {
      var i :| 0 <= i < |elements| && elements[i] == e;
      assert rest[if i < k then i else i - 1] == e;
    }
    forall i | 0 <= i < |rest| ensures rest[i] in elements && rest[i] != elements[k] {
      assert rest[i] == elements[if i < k then i else i + 1];
    }
  }

  /** Only the members matter. */
  lemma SameIndexed<V>(values: map<string, Element<V>>, elements: seq<Element<V>>, others: seq<Element<V>>)
    requires Indexed(values, elements) && forall e :: e in others <==> e in elements
    ensures Indexed(values, others)
  {
    assert forall i :: 0 <= i < |others| ==> others[i] in elements;
  }

  lemma CutIndexed<V>(values: map<string, Element<V>>, elements: seq<Element<V>>, k: nat)
    requires Indexed(values, elements) && Separate(elements) && k < |elements|
    ensures Indexed(values - {elements[k].key}, Cut(elements, k))
  {
    CutMembers(elements, k);
    assert forall i :: 0 <= i < |Cut(elements, k)| ==> Cut(elements, k)[i] in elements;
  }

  lemma FrontIndexed<V>(values: map<string, Element<V>>, elements: seq<Element<V>>, k: nat)
    requires Indexed(values, elements) && Separate(elements) && k < |elements|
    ensures Indexed(values, [elements[k]] + Cut(elements, k))
  {
    CutMembers(elements, k);
    SameIndexed(values, elements, [elements[k]] + Cut(elements, k));
  }

  lemma CutMirrors<V>(contents: seq<Entry<V>>, elements: seq<Element<V>>, k: nat)
    requires Mirrors(contents, elements) && k < |elements|
    ensures Mirrors(Cut(contents, k), Cut(elements, k))
  {
  }

  lemma PushMirrors<V>(contents: seq<Entry<V>>, elements: seq<Element<V>>, e: Element<V>)
    requires Mirrors(contents, elements)
    ensures Mirrors([Entry(e.key, e.value, e.expiresAt)] + contents, [e] + elements)
  {
  }

  lemma FrontMirrors<V>(contents: seq<Entry<V>>, elements: seq<Element<V>>, k: nat)
    requires Mirrors(contents, elements) && k < |elements|
    ensures Mirrors([contents[k]] + Cut(contents, k), [elements[k]] + Cut(elements, k))
  {
    CutMirrors(contents, elements, k);
    PushMirrors(Cut(contents, k), Cut(elements, k), elements[k]);
  }

  lemma PushIndexed<V>(values: map<string, Element<V>>, elements: seq<Element<V>>, e: Element<V>)
    requires Indexed(values, elements) && e.key !in values
    ensures Indexed(values[e.key := e], [e] + elements)
  {
    assert forall i :: 0 < i <= |elements| ==> ([e] + elements)[i] == elements[i - 1];
  }

  lemma {:induction false} IndexedSize<V>(values: map<string, Element<V>>, elements: seq<Element<V>>)
    requires Indexed(values, elements) && Separate(elements)
    ensures |values| == |elements|
  {
    if elements == [] {
      assert values == map[];
    } else {
      CutIndexed(values, elements, 0);
      var rest := values - {elements[0].key};
      assert Cut(elements, 0) == elements[1..];
      IndexedSize(rest, elements[1..]);
      assert rest.Keys == values.Keys - {elements[0].key};
    }
  }

  lemma IndexedDistinct<V>(values: map<string, Element<V>>, elements: seq<Element<V>>, contents: seq<Entry<V>>)
    requires Indexed(values, elements) && Separate(elements) && Mirrors(contents, elements)
    ensures Distinct(contents)
  {
    forall i, j | 0 <= i < j < |contents| ensures contents[i].key != contents[j].key {
      assert elements[i] != elements[j];
    }
  }

  class TokenCache<V> {
    const max: nat
    const margin: int
    const order: List<V>
    var values: map<string, Element<V>>
    ghost var contents: seq<Entry<V>>   // the cache as a sequence, most recent first

    function Limits(): Policy {
      Policy(max, margin, true)
    }

    /** Map and list agree, and the list read front to back is the sequence. */
    ghost predicate Agree()
      reads this, order, order.Nodes()
    {
      order.Valid() && Indexed(values, order.elements) && Mirrors(contents, order.elements)
    }

    lemma AgreeFrom(elements: seq<Element<V>>)
      requires order.Valid() && order.elements == elements && Indexed(values, elements) && Mirrors(contents, elements)
      ensures Agree()
    {
    }

    ghost predicate Valid()
      reads this, order, order.Nodes()
    {
      Agree() && 1 <= max && |contents| <= max
    }

    constructor (maxEntries: int, expiryMargin: int, unusedKey: string, unusedValue: V)
      ensures Valid() && contents == [] && values == map[]
      ensures max == (if maxEntries < 1 then 1 else maxEntries) && margin == expiryMargin
    {
      max := if maxEntries < 1 then 1 else maxEntries;
      margin := expiryMargin;
      order := new List(unusedKey, unusedValue);
      values := map[];
      contents := [];
    }

    /** Where the map's element sits in the list. */
    lemma Located(key: string) returns (k: nat)
      requires Agree() && key in values
      ensures k < |order.elements| && order.elements[k] == values[key] && contents[k].key == key
      ensures Find(contents, key) == Some(contents[k])
      ensures Without(contents, key) == Cut(contents, k)
    {
      k :| 0 <= k < |order.elements| && order.elements[k] == values[key];
      IndexedDistinct(values, order.elements, contents);
      WithoutAt(contents, k);
    }

    lemma {:induction false} Missing(key: string)
      requires Agree() && key !in values
      ensures Find(contents, key).None? && Without(contents, key) == contents
    {
      FindIndex(contents, key);
      WithoutAbsent(contents, key);
    }

    /** delete(values, key) and order.Remove(element) */
    method Drop(element: Element<V>, ghost k: nat)
      requires Agree() && k < |contents| && order.elements[k] == element
      modifies this, order, order.Nodes()`next, order.Nodes()`prev
      ensures Agree() && contents == Cut(old(contents), k)
      ensures order.Nodes() <= old(order.Nodes())
    {
      ghost var elements := order.elements;
      CutIndexed(values, elements, k);
      CutMirrors(contents, elements, k);
      values := values - {element.key};
      order.Remove(element, k);
      contents := Cut(contents, k);
    }

    method Promote(element: Element<V>, ghost k: nat)
      requires Agree() && k < |contents| && order.elements[k] == element
      modifies this, order, order.Nodes()`next, order.Nodes()`prev
      ensures Agree() && contents == [old(contents)[k]] + Cut(old(contents), k)
      ensures order.Nodes() <= old(order.Nodes())
    {
      ghost var elements := order.elements;
      ghost var front, moved := [element] + Cut(elements, k), [contents[k]] + Cut(contents, k);
      FrontIndexed(values, elements, k);
      FrontMirrors(contents, elements, k);
      order.MoveToFront(element, k);
      assert Mirrors(moved, front);
      contents := moved;
      AgreeFrom(front);
    }

    method Get(key: string, now: Instant) returns (r: Option<V>)
      requires Valid()
      modifies this, order, order.Nodes()`next, order.Nodes()`prev
      ensures Valid() && (contents, r) == GetStep(Limits(), old(contents), key, now)
      ensures r.Some? <==> Find(old(contents), key).Some? && now + margin <= Find(old(contents), key).value.expiresAt
      ensures order.Nodes() <= old(order.Nodes())
    {
      if key !in values {
        Missing(key);
        return None;
      }
      var element := values[key];
      ghost var k := Located(key);
      if now + margin > element.expiresAt {
        Drop(element, k);
        return None;
      }
      Promote(element, k);
      return Some(element.value);
    }

    method DropOldest()
      requires Agree() && contents != []
      modifies this, order, order.Nodes()`next, order.Nodes()`prev
      ensures Agree() && contents == old(contents)[..|old(contents)| - 1]
      ensures order.Nodes() <= old(order.Nodes())
    {
      var oldest := order.Back();
      Drop(oldest, |contents| - 1);
    }

    /** The loop an insertion ends with. */
    method Evict()
      requires Agree() && 1 <= max
      modifies this, order, order.Nodes()`next, order.Nodes()`prev
      ensures Valid() && contents == Front(old(contents), max)
      ensures order.Nodes() <= old(order.Nodes())
    {
      IndexedSize(values, order.elements);
      while |values| > max
        invariant Agree() && |values| == |contents| && Front(contents, max) == Front(old(contents), max)
        invariant order.Nodes() <= old(order.Nodes())
        decreases |contents|
      {
        FrontDropsLast(contents, max);
        DropOldest();
        IndexedSize(values, order.elements);
      }
    }

    method Replace(existing: Element<V>, value: V, expiresAt: Instant, ghost k: nat)
      requires Agree() && k < |contents| && order.elements[k] == existing
      modifies this, existing`value, existing`expiresAt
      ensures Agree() && contents == old(contents)[k := Entry(existing.key, value, expiresAt)]
      ensures values == old(values)
    {
      existing.value, existing.expiresAt := value, expiresAt;
      contents := contents[k := Entry(existing.key, value, expiresAt)];
    }

    method Insert(key: string, value: V, expiresAt: Instant)
      requires Agree() && key !in values
      modifies this, order, order.Nodes()`next, order.Nodes()`prev
      ensures Agree() && contents == [Entry(key, value, expiresAt)] + old(contents)
      ensures fresh(order.Nodes() - old(order.Nodes()))
    {
      var element := new Element(key, value, expiresAt);
      ghost var elements := order.elements;
      PushIndexed(values, elements, element);
      PushMirrors(contents, elements, element);
      order.PushFront(element);
      values := values[key := element];
      contents := [Entry(key, value, expiresAt)] + contents;
    }

    method Put(key: string, value: V, expiresAt: Instant)
      requires Valid()
      modifies this, order, order.Nodes()
      ensures Valid() && contents == PutStep(Limits(), old(contents), key, value, expiresAt)
      ensures fresh(order.Nodes() - old(order.Nodes()))
    {
      if key in values {
        var existing := values[key];
        ghost var k := Located(key);
        Replace(existing, value, expiresAt, k);
        Promote(existing, k);
      } else {
        Missing(key);
        Insert(key, value, expiresAt);
      }
      Evict();
    }

    method Len() returns (n: nat)
      requires Valid()
      ensures n == |contents|
    {
      IndexedSize(values, order.elements);
      n := |values|;
    }
  }
}
