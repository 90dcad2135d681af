/**
 * The cache as the program builds it: a map from keys to entry objects, kept in step
 * with a doubly linked list of keys through the node pointer stored in every entry.
 */
module LruCache {
  import opened Common
  import opened LinkedList
  import opened S = LruSpec

  class CacheEntry {
    const key: Id
    var value: Bytes
    var expiresAt: Time
    const element: Element

    constructor (key: Id, value: Bytes, expiresAt: Time, element: Element)
      ensures this.key == key && this.value == value && this.expiresAt == expiresAt && this.element == element
    {
      this.key, this.value, this.expiresAt, this.element := key, value, expiresAt, element;
    }
  }

  /** The entry stored under `k` carries that key and points at the node of the list that carries it. */
  ghost predicate EntryInStep(data: map<Id, CacheEntry>, spine: seq<Element>, k: Id) {
    k in data ==> data[k].key == k && data[k].element.value == k && data[k].element in spine
  }

  /** The entry stored under the key of node `n` points back at the node. */
  ghost predicate NodeInStep(data: map<Id, CacheEntry>, n: Element) {
    n.value in data && data[n.value].element == n
  }

  /** Map and list have the same keys, none listed twice, and their objects point at each other. */
  ghost predicate InStep(data: map<Id, CacheEntry>, spine: seq<Element>) {
    && Distinct(spine)
    && (forall k :: EntryInStep(data, spine, k))
    && (forall i :: 0 <= i < |spine| ==> NodeInStep(data, spine[i]))
  }

  ghost predicate RowAligned(contents: Recency, spine: seq<Element>, view: map<Id, Entry>, i: int) {
    0 <= i < |contents| && 0 <= i < |spine| ==>
      contents[i].key == spine[i].value && contents[i].key in view && contents[i] == view[contents[i].key]
  }

  /** The abstract entries stand in the order of the nodes and are the ones on record. */
  ghost predicate Aligned(contents: Recency, spine: seq<Element>, view: map<Id, Entry>) {
    |contents| == |spine| && forall i :: RowAligned(contents, spine, view, i)
  }

  /** The objects of the list and the map belong to the cache. */
  ghost predicate Owned(data: map<Id, CacheEntry>, spine: seq<Element>, repr: set<object>) {
    (forall e :: e in spine ==> e in repr) && (forall k :: k in data ==> data[k] in repr)
  }

  lemma InStepRemove(data: map<Id, CacheEntry>, spine: seq<Element>, i: nat)
    requires InStep(data, spine) && i < |spine|
    ensures InStep(data - {spine[i].value}, RemoveAt(spine, i))
    ensures forall n :: n in RemoveAt(spine, i) ==> n in spine
  {
    RemoveAtElements(spine, i);
    var data' := data - {spine[i].value};
    assert NodeInStep(data, spine[i]);
    forall k ensures EntryInStep(data', RemoveAt(spine, i), k) {
      assert EntryInStep(data, spine, k);
    }
    forall j | 0 <= j < |spine| - 1 ensures NodeInStep(data', RemoveAt(spine, i)[j]) {
      assert NodeInStep(data, spine[if j < i then j else j + 1]);
    }
  }

  lemma InStepFront(data: map<Id, CacheEntry>, spine: seq<Element>, i: nat)
    requires InStep(data, spine) && i < |spine|
    ensures InStep(data, [spine[i]] + RemoveAt(spine, i))
    ensures forall n :: n in [spine[i]] + RemoveAt(spine, i) ==> n in spine
  {
    RemoveAtElements(spine, i);
    var front := [spine[i]] + RemoveAt(spine, i);
    forall k ensures EntryInStep(data, front, k) {
      assert EntryInStep(data, spine, k);
    }
    forall j | 0 <= j < |front| ensures NodeInStep(data, front[j]) {
      assert NodeInStep(data, spine[if j == 0 then i else if j <= i then j - 1 else j]);
    }
  }

  lemma InStepPush(data: map<Id, CacheEntry>, spine: seq<Element>, ent: CacheEntry)
    requires InStep(data, spine)
    requires ent.key !in data && ent.element.value == ent.key
    ensures InStep(data[ent.key := ent], [ent.element] + spine)
  {
    var data', spine' := data[ent.key := ent], [ent.element] + spine;
    forall k ensures EntryInStep(data', spine', k) {
      assert EntryInStep(data, spine, k);
    }
    forall j | 0 <= j < |spine| ensures NodeInStep(data', spine'[j + 1]) && spine[j] != ent.element {
      assert NodeInStep(data, spine[j]);
    }
  }

  /** A key is in the map exactly when the contents have it, at the position of its node. */
  lemma Position(data: map<Id, CacheEntry>, spine: seq<Element>, contents: Recency, view: map<Id, Entry>, key: Id)
    requires InStep(data, spine) && Aligned(contents, spine, view)
    ensures DistinctKeys(contents)
    ensures var i := Find(contents, key);
      && (key in data <==> i < |spine|)
      && (key in data ==> spine[i] == data[key].element && data[key].key == key == spine[i].value)
      && (key in data ==> key in view && contents[i] == view[key])
  {
    forall i, j | 0 <= i < j < |spine| ensures contents[i].key != contents[j].key {
      assert RowAligned(contents, spine, view, i) && RowAligned(contents, spine, view, j);
      assert NodeInStep(data, spine[i]) && NodeInStep(data, spine[j]);
    }
    assert EntryInStep(data, spine, key);
    var f := Find(contents, key);
    assert RowAligned(contents, spine, view, f);
    if f < |spine| {
      assert NodeInStep(data, spine[f]);
    }
    if key in data {
      var j :| 0 <= j < |spine| && spine[j] == data[key].element;
      assert RowAligned(contents, spine, view, j);
      assert contents[j].key == key;
    }
  }

  lemma AlignedRemove(contents: Recency, spine: seq<Element>, view: map<Id, Entry>, i: nat)
    requires Aligned(contents, spine, view) && DistinctKeys(contents) && i < |spine|
    ensures contents[i].key == spine[i].value
    ensures Aligned(RemoveAt(contents, i), RemoveAt(spine, i), view - {contents[i].key})
  {
    assert RowAligned(contents, spine, view, i);
    var contents', spine', view' := RemoveAt(contents, i), RemoveAt(spine, i), view - {contents[i].key};
    forall j ensures RowAligned(contents', spine', view', j) {
      assert RowAligned(contents, spine, view, if j < i then j else j + 1);
    }
  }

  lemma AlignedFront(contents: Recency, spine: seq<Element>, view: map<Id, Entry>, i: nat, e: Entry)
    requires Aligned(contents, spine, view) && DistinctKeys(contents) && i < |spine|
    requires e.key == spine[i].value
    ensures Aligned([e] + RemoveAt(contents, i), [spine[i]] + RemoveAt(spine, i), view[e.key := e])
  {
    AlignedRemove(contents, spine, view, i);
    var contents', spine', view' := [e] + RemoveAt(contents, i), [spine[i]] + RemoveAt(spine, i), view[e.key := e];
    forall j ensures RowAligned(contents', spine', view', j) {
      assert RowAligned(RemoveAt(contents, i), RemoveAt(spine, i), view - {e.key}, j - 1);
    }
  }

  lemma AlignedPush(contents: Recency, spine: seq<Element>, view: map<Id, Entry>, n: Element, e: Entry)
    requires Aligned(contents, spine, view) && n.value == e.key && !Has(contents, e.key)
    ensures Aligned([e] + contents, [n] + spine, view[e.key := e])
  {
    var contents', spine', view' := [e] + contents, [n] + spine, view[e.key := e];
    forall j ensures RowAligned(contents', spine', view', j) {
      assert RowAligned(contents, spine, view, j - 1);
    }
  }

  /** All that the map, the list and the record have to do with each other, apart from the values in the entries. */
  ghost predicate Sound(
    data: map<Id, CacheEntry>, spine: seq<Element>, contents: Recency, view: map<Id, Entry>, repr: set<object>)
  {
    Owned(data, spine, repr) && InStep(data, spine) && Aligned(contents, spine, view)
  }

  lemma SoundPush(
    data: map<Id, CacheEntry>, spine: seq<Element>, contents: Recency, view: map<Id, Entry>, repr: set<object>,
    ent: CacheEntry, e: Entry)
    requires Sound(data, spine, contents, view, repr)
    requires ent.key !in data && ent.element.value == ent.key == e.key && !Has(contents, e.key)
    ensures Sound(
      data[ent.key := ent], [ent.element] + spine, [e] + contents, view[e.key := e], repr + {ent, ent.element})
  {
    InStepPush(data, spine, ent);
    AlignedPush(contents, spine, view, ent.element, e);
  }

  datatype Answer = Found(value: Bytes) | NotFound | Cancelled

  class LRUCache {
    var data: map<Id, CacheEntry>
    var ll: List
    const maxSize: int
    /** The abstract value: the entries in list order. */
    ghost var contents: Recency
    /** The current value and expiry time of every entry object. */
    ghost var view: map<Id, Entry>
    ghost var Repr: set<object>

    ghost predicate Valid()
      reads this, Repr
      ensures Valid() ==> this in Repr
    {
      && this in Repr && ll in Repr && Sound(data, ll.spine, contents, view, Repr) && ll.Valid()
      && (forall k :: k in data ==> k in view && view[k] == Entry(k, data[k].value, data[k].expiresAt))
      && |contents| <= (if maxSize < 1 then 1 else maxSize)
    }

    constructor (maxSize: int)
      ensures Valid() && fresh(Repr) && this.maxSize == maxSize && contents == []
    {
      this.maxSize := maxSize;
      var l := new List();
      data, ll, contents, view, Repr := map[], l, [], map[], {this, l};
    }

    lemma ContentsWellFormed()
      requires Valid()
      ensures WellFormed(contents, maxSize)
    {
      Position(data, ll.spine, contents, view, "");
    }

    method RemoveEntry(ent: CacheEntry)
      requires Valid() && ent.key in data && data[ent.key] == ent
      modifies Repr
      ensures Valid() && Repr == old(Repr)
      ensures contents == S.Delete(old(contents), ent.key)
    {
      Position(data, ll.spine, contents, view, ent.key);
      ghost var i := Find(contents, ent.key);
      InStepRemove(data, ll.spine, i);
      AlignedRemove(contents, ll.spine, view, i);
      data, view, contents := data - {ent.key}, view - {ent.key}, RemoveAt(contents, i);
      ll.Remove(ent.element, i);
    }

    method RemoveOldest()
      requires Valid()
      modifies Repr
      ensures Valid() && Repr == old(Repr)
      ensures forall k :: k in data ==> k in old(data)
      ensures contents == if old(contents) == [] then [] else old(contents)[..|old(contents)| - 1]
    {
      var elem := ll.Back();
      if elem != null {
        ghost var last := |ll.spine| - 1;
        Position(data, ll.spine, contents, view, elem.value);
        InStepRemove(data, ll.spine, last);
        AlignedRemove(contents, ll.spine, view, last);
        assert RemoveAt(contents, last) == contents[..last];
        data, view, contents := data - {elem.value}, view - {elem.value}, RemoveAt(contents, last);
        ll.Remove(elem, last);
      }
    }

    /** One look at the context, then the lookup under the lock at clock reading `now`. */
    method Get(live: bool, key: Id, now: Time) returns (answer: Answer)
      requires Valid()
      modifies Repr
      ensures Valid() && Repr == old(Repr)
      ensures !live ==> answer == Cancelled && contents == old(contents)
      ensures live ==> var (list, found) := S.Get(old(contents), key, now);
        contents == list && answer == match found case None => NotFound case Some(v) => Found(v)
    {
      if !live {
        return Cancelled;
      }
      Position(data, ll.spine, contents, view, key);
      if key in data {
        var ent := data[key];
        if now > ent.expiresAt {
          RemoveEntry(ent);
          return NotFound;
        }
        Touch(ent, contents[Find(contents, key)]);
        return Found(ent.value);
      }
      return NotFound;
    }

    /** Moves the node of an entry, whose abstract value is now `e`, to the front. */
    method Touch(ent: CacheEntry, ghost e: Entry)
      requires ll.Valid() && InStep(data, ll.spine) && Aligned(contents, ll.spine, view)
      requires this in Repr && ll in Repr && Owned(data, ll.spine, Repr)
      requires |contents| <= (if maxSize < 1 then 1 else maxSize)
      requires ent.key in data && data[ent.key] == ent && e == Entry(ent.key, ent.value, ent.expiresAt)
      requires forall k :: k in data && k != e.key ==>
        k in view && view[k] == Entry(k, data[k].value, data[k].expiresAt)
      modifies this, ll, ll.spine
      ensures Valid() && Repr == old(Repr)
      ensures contents == [e] + S.Delete(old(contents), ent.key)
    {
      Position(data, ll.spine, contents, view, ent.key);
      ghost var i := Find(contents, ent.key);
      InStepFront(data, ll.spine, i);
      AlignedFront(contents, ll.spine, view, i, e);
      view, contents := view[e.key := e], [e] + RemoveAt(contents, i);
      ll.MoveToFront(ent.element, i);
    }

    /** Returns whether the call succeeded; it fails only on a cancelled context. */
    method Set(live: bool, key: Id, value: Bytes, ttlSeconds: int, now: Time) returns (ok: bool)
      requires Valid()
      modifies Repr
      ensures Valid() && fresh(Repr - old(Repr)) && ok == live
      ensures contents == if live then S.Set(old(contents), maxSize, key, value, ExpiresAt(ttlSeconds, now))
                          else old(contents)
    {
      if !live {
        return false;
      }
      Position(data, ll.spine, contents, view, key);
      if key in data {
        Overwrite(data[key], value, ExpiresAt(ttlSeconds, now));
        return true;
      }
      if ll.len >= maxSize {
        RemoveOldest();
      }
      InsertNew(key, value, ExpiresAt(ttlSeconds, now));
      return true;
    }

    method Overwrite(ent: CacheEntry, value: Bytes, expiresAt: Time)
      requires Valid() && ent.key in data && data[ent.key] == ent
      modifies Repr
      ensures Valid() && Repr == old(Repr)
      ensures contents == [Entry(ent.key, value, expiresAt)] + S.Delete(old(contents), ent.key)
    {
      forall k | k in data && data[k] == ent ensures k == ent.key {
        assert EntryInStep(data, ll.spine, k);
      }
      ent.value := value;
      ent.expiresAt := expiresAt;
      Touch(ent, Entry(ent.key, value, expiresAt));
    }

    method InsertNew(key: Id, value: Bytes, expiresAt: Time)
      requires Valid() && key !in data && !Has(contents, key) && (|contents| < maxSize || contents == [])
      modifies this, ll, ll.spine
      ensures Valid() && fresh(Repr - old(Repr))
      ensures contents == [Entry(key, value, expiresAt)] + old(contents)
    {
      var ent := NewEntry(key, value, expiresAt);
      LinkIn(ent);
    }

    /** Puts a new entry into the map, and its node at the front of the list. */
    method LinkIn(ent: CacheEntry)
      requires Valid() && ent.key !in data && !Has(contents, ent.key) && (|contents| < maxSize || contents == [])
      requires ent !in Repr && ent.element !in Repr && ent.element.value == ent.key
      modifies this, ll, ll.spine, ent.element
      ensures Valid() && Repr == old(Repr) + {ent, ent.element}
      ensures contents == [Entry(ent.key, ent.value, ent.expiresAt)] + old(contents)
    {
      ghost var e := Entry(ent.key, ent.value, ent.expiresAt);
      SoundPush(data, ll.spine, contents, view, Repr, ent, e);
      data, view, contents := data[ent.key := ent], view[ent.key := e], [e] + contents;
      Repr := Repr + {ent, ent.element};
      ll.LinkFront(ent.element);
    }

    /** An entry and its node, before they are linked in. */
    static method NewEntry(key: Id, value: Bytes, expiresAt: Time) returns (ent: CacheEntry)
      ensures fresh(ent) && fresh(ent.element) && ent.element.value == key
      ensures ent.key == key && ent.value == value && ent.expiresAt == expiresAt
    {
      var element := new Element(key);
      ent := new CacheEntry(key, value, expiresAt, element);
    }

    method Delete(live: bool, key: Id) returns (ok: bool)
      requires Valid()
      modifies Repr
      ensures Valid() && Repr == old(Repr) && ok == live
      ensures contents == if live then S.Delete(old(contents), key) else old(contents)
    {
      if !live {
        return false;
      }
      Position(data, ll.spine, contents, view, key);
      if key in data {
        RemoveEntry(data[key]);
      }
      return true;
    }

    method Close()
      requires Valid()
      modifies this
      ensures Valid() && fresh(Repr - old(Repr)) && contents == []
    {
      var l := new List();
      data, ll, contents, view, Repr := map[], l, [], map[], {this, l};
    }
  }
}
