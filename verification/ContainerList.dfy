/** The doubly linked list under the Go token cache: a ring of elements through a
    sentinel root, as Go's container/list keeps it. */
module ContainerList {
  import opened Records

  /** The sequence without its k-th item. */
  function Cut<T>(s: seq<T>, k: nat): seq<T>
    requires k < |s|
  {
    s[..k] + s[k + 1..]
  }

  class Element<V> {
    const key: string
    var value: V
    var expiresAt: Instant
    var next: Element?<V>
    var prev: Element?<V>

    constructor (key: string, value: V, expiresAt: Instant)
      ensures this.key == key && this.value == value && this.expiresAt == expiresAt
    {
      this.key, this.value, this.expiresAt := key, value, expiresAt;
      next, prev := null, null;
    }
  }

  class List<V> {
    const root: Element<V>
    ghost var elements: seq<Element<V>>   // front to back

    ghost function At(i: int): Element<V>
      reads this
      requires -1 <= i <= |elements|
    {
      if 0 <= i < |elements| then elements[i] else root
    }

    ghost function Nodes(): set<Element<V>>
      reads this
    {
      {root} + set e | e in elements
    }

    ghost predicate Valid()
      reads this, Nodes()
    {
      && root !in elements
      && (forall i, j :: 0 <= i < j < |elements| ==> elements[i] != elements[j])
      && (forall i :: -1 <= i < |elements| ==> At(i).next == At(i + 1))
      && (forall i :: -1 <= i < |elements| ==> At(i + 1).prev == At(i))
    }

    constructor (key: string, value: V)
      ensures Valid() && elements == [] && fresh(root)
    {
      var sentinel := new Element(key, value, 0);
      root := sentinel;
      elements := [];
      new;
      sentinel.next, sentinel.prev := sentinel, sentinel;
    }

    /** Links `e` in right after the root. */
    method PushFront(e: Element<V>)
      requires Valid() && e !in Nodes()
      modifies this, e`next, e`prev, Nodes()`next, Nodes()`prev
      ensures Valid() && elements == [e] + old(elements)
    {
      var first := root.next;
      assert At(-1) == root && first == At(0);
      e.prev := root;
      e.next := first;
      root.next := e;
      first.prev := e;
      elements := [e] + elements;
      assert forall i :: 0 < i <= |elements| ==> At(i) == old(At(i - 1));
    }

    /** Unlinks `e`. */
    method Remove(e: Element<V>, ghost k: nat)
      requires Valid() && k < |elements| && elements[k] == e
      modifies this, Nodes()`next, Nodes()`prev
      ensures Valid() && elements == Cut(old(elements), k) && Nodes() <= old(Nodes())
    {
      assert At(k) == e && e.prev == At(k - 1) && e.next == At(k + 1);
      var before, after := e.prev, e.next;
      before.next := after;
      after.prev := before;
      e.next, e.prev := null, null;
      elements := Cut(elements, k);
      assert forall i :: -1 <= i <= |elements| ==> At(i) == if i < k then old(At(i)) else old(At(i + 1));
    }

    method MoveToFront(e: Element<V>, ghost k: nat)
      requires Valid() && k < |elements| && elements[k] == e
      modifies this, Nodes()`next, Nodes()`prev
      ensures Valid() && elements == [e] + Cut(old(elements), k) && Nodes() <= old(Nodes())
    {
      if root.next == e {
        assert At(-1) == root && At(0) == e;
        assert elements == [e] + Cut(elements, k);
        return;
      }
      Remove(e, k);
      PushFront(e);
    }

    method Back() returns (e: Element<V>)
      requires Valid() && elements != []
      ensures e == elements[|elements| - 1]
    {
      assert At(|elements|).prev == At(|elements| - 1);
      e := root.prev;
    }
  }
}
