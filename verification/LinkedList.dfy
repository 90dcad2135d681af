/**
 * The part of Go's container/list that the cache uses: a doubly linked list whose
 * elements are objects that callers keep pointers to. `spine` is the sequence of nodes
 * from front to back; every operation is stated by what it does to `spine`.
 */
module LinkedList {
  import opened Common

  class Element {
    const value: Id
    var prev: Element?
    var next: Element?

    constructor (value: Id)
      ensures this.value == value && prev == null && next == null
    {
      this.value := value;
      prev, next := null, null;
    }
  }

  class List {
    var front: Element?
    var back: Element?
    var len: nat
    ghost var spine: seq<Element>

    /** The node at position `i` points at its two neighbours. */
    ghost predicate LinkedAt(i: int)
      reads this, spine
    {
      0 <= i < |spine| ==>
        && spine[i].prev == (if i == 0 then null else spine[i - 1])
        && spine[i].next == (if i == |spine| - 1 then null else spine[i + 1])
    }

    /** Pointers and spine agree: the list can be walked both ways and visits each node once. */
    ghost predicate Valid()
      reads this, spine
    {
      && len == |spine|
      && Distinct(spine)
      && front == (if len == 0 then null else spine[0])
      && back == (if len == 0 then null else spine[len - 1])
      && (forall i :: LinkedAt(i))
    }

    constructor ()
      ensures Valid() && spine == []
    {
      front, back, len, spine := null, null, 0, [];
    }

    method Back() returns (e: Element?)
      requires Valid()
      ensures e == (if spine == [] then null else spine[|spine| - 1])
    {
      e := back;
    }

    /** Links an already allocated, unlinked node in at the front. */
    method LinkFront(e: Element)
      requires Valid() && e !in spine
      modifies this, spine, e
      ensures Valid() && spine == [e] + old(spine)
    {
      e.prev := null;
      e.next := front;
      if front == null {
        back := e;
      } else {
        front.prev := e;
      }
      front := e;
      len := len + 1;
      spine := [e] + spine;
      forall j ensures LinkedAt(j) {
        assert old(LinkedAt(j - 1));
      }
    }

    /** Unlinks the node at position `i` of the spine. Only the pointer is used to find it. */
    method Remove(e: Element, ghost i: nat)
      requires Valid() && i < |spine| && spine[i] == e
      modifies this, spine
      ensures Valid() && spine == RemoveAt(old(spine), i)
    {
      assert LinkedAt(i - 1) && LinkedAt(i) && LinkedAt(i + 1);
      if e.prev == null {
        front := e.next;
      } else {
        e.prev.next := e.next;
      }
      if e.next == null {
        back := e.prev;
      } else {
        e.next.prev := e.prev;
      }
      len := len - 1;
      spine := RemoveAt(spine, i);
      forall j ensures LinkedAt(j) {
        assert old(LinkedAt(if j < i then j else j + 1));
      }
    }

    method MoveToFront(e: Element, ghost i: nat)
      requires Valid() && i < |spine| && spine[i] == e
      modifies this, spine
      ensures Valid() && spine == [e] + RemoveAt(old(spine), i)
    {
      Remove(e, i);
      LinkFront(e);
    }
  }
}
