/**
 * The cache of spot-service/internal/cache/lru.go as a value: its entries, most
 * recently used first. The class in LruCache.dfy is proved to behave like this.
 */
module LruSpec {
  import opened Common

  /** What is stored: the JSON of a market, or bytes that do not decode to one. */
  datatype Bytes = Json(id: Id, data: string) | Opaque(text: string)

  datatype Entry = Entry(key: Id, value: Bytes, expiresAt: Time)

  type Recency = seq<Entry>

  /** Midnight of 1 January 9999 UTC: the expiry of an entry without a time to live. */
  const FAR_FUTURE: Time := 253_370_764_800 * SECOND

  /** Two's complement wrap-around of time.Duration. */
  function Wrap64(x: int): int {
    (x + 0x8000_0000_0000_0000) % 0x1_0000_0000_0000_0000 - 0x8000_0000_0000_0000
  }

  function ExpiresAt(ttlSeconds: int, now: Time): Time {
    if ttlSeconds > 0 then now + Wrap64(ttlSeconds * SECOND) else FAR_FUTURE
  }

  predicate DistinctKeys(list: Recency) {
    forall i, j :: 0 <= i < j < |list| ==> list[i].key != list[j].key
  }

  /** What every reachable cache satisfies. A capacity below 1 still lets one entry in. */
  predicate WellFormed(list: Recency, maxSize: int) {
    DistinctKeys(list) && |list| <= (if maxSize < 1 then 1 else maxSize)
  }

  /** The position of `key`, or the length of the list when it is absent. */
  function Find(list: Recency, key: Id): (i: nat)
    ensures i <= |list|
    ensures i < |list| ==> list[i].key == key
    ensures forall j :: 0 <= j < i ==> list[j].key != key
  {
    FindFrom(list, key, 0)
  }

  function FindFrom(list: Recency, key: Id, from: nat): (i: nat)
    requires from <= |list|
    ensures from <= i <= |list|
    ensures i < |list| ==> list[i].key == key
    ensures forall j :: from <= j < i ==> list[j].key != key
    decreases |list| - from
  {
    if from == |list| || list[from].key == key then from else FindFrom(list, key, from + 1)
  }

  predicate Has(list: Recency, key: Id) {
    Find(list, key) < |list|
  }

  /** The list without the entry at position `i`; a position past the end removes nothing. */
  function Cut(list: Recency, i: nat): Recency {
    if i < |list| then RemoveAt(list, i) else list
  }

  function Get(list: Recency, key: Id, now: Time): (Recency, Option<Bytes>) {
    var i := Find(list, key);
    if i == |list| then (list, None)
    else if now > list[i].expiresAt then (Cut(list, i), None)
    else ([list[i]] + Cut(list, i), Some(list[i].value))
  }

  function Set(list: Recency, maxSize: int, key: Id, value: Bytes, expiresAt: Time): Recency {
    var i := Find(list, key);
    if i < |list| then [Entry(key, value, expiresAt)] + Cut(list, i)
    else if |list| >= maxSize && list != [] then [Entry(key, value, expiresAt)] + list[..|list| - 1]
    else [Entry(key, value, expiresAt)] + list
  }

  function Delete(list: Recency, key: Id): Recency {
    Cut(list, Find(list, key))
  }

  lemma CutEntries(list: Recency, i: nat)
    requires DistinctKeys(list) && i < |list|
    ensures DistinctKeys(Cut(list, i)) && |Cut(list, i)| == |list| - 1
    ensures forall e :: e in Cut(list, i) <==> e in list && e.key != list[i].key
  {
    RemoveAtElements(list, i);
    forall e | e in list && e != list[i] ensures e.key != list[i].key {
      var j :| 0 <= j < |list| && list[j] == e;
    }
  }

  lemma FindEntry(list: Recency, i: nat)
    requires DistinctKeys(list) && i < |list|
    ensures Find(list, list[i].key) == i
  {
  }

  lemma HasMeans(list: Recency, key: Id)
    ensures Has(list, key) <==> exists e :: e in list && e.key == key
  {
    if Has(list, key) {
      assert list[Find(list, key)] in list;
    }
  }

  /** Every operation keeps the keys distinct and the size within max(1, maxSize). */
  lemma OperationsKeepWellFormed(list: Recency, maxSize: int, key: Id, value: Bytes, expiresAt: Time, now: Time)
    requires WellFormed(list, maxSize)
    ensures WellFormed(Get(list, key, now).0, maxSize)
    ensures WellFormed(Set(list, maxSize, key, value, expiresAt), maxSize)
    ensures WellFormed(Delete(list, key), maxSize)
  {
    var i := Find(list, key);
    if i < |list| {
      CutEntries(list, i);
    }
  }

  /** No operation but Set brings an entry in, and Set only its own. */
  lemma OperationsAddNothingElse(list: Recency, maxSize: int, key: Id, value: Bytes, expiresAt: Time, now: Time)
    requires WellFormed(list, maxSize)
    ensures forall e :: e in Get(list, key, now).0 ==> e in list
    ensures forall e :: e in Delete(list, key) ==> e in list
    ensures forall e :: e in Set(list, maxSize, key, value, expiresAt) ==>
      e == Entry(key, value, expiresAt) || (e in list && e.key != key)
  {
    var i := Find(list, key);
    if i < |list| {
      CutEntries(list, i);
    } else {
      HasMeans(list, key);
    }
  }

  /**
   * When an entry expires: after its time to live, if it has one and that is within the range of a Duration; at the
   * start of year 9999 if it has none; and, when the product has wrapped around once, that much too early.
   */
  lemma ExpiryMeans(ttlSeconds: int, now: Time)
    ensures ttlSeconds <= 0 ==> ExpiresAt(ttlSeconds, now) == 253_370_764_800_000_000_000
    ensures 0 < ttlSeconds <= 9_223_372_036 ==> ExpiresAt(ttlSeconds, now) == now + ttlSeconds * 1_000_000_000
    ensures 9_223_372_036 < ttlSeconds <= 27_670_116_110 ==>
      ExpiresAt(ttlSeconds, now) == now + ttlSeconds * 1_000_000_000 - 18_446_744_073_709_551_616
  {
  }

  /** An entry is found, and with what value, exactly when it is listed and not past its expiry; else nothing is. */
  lemma GetMeans(list: Recency, key: Id, now: Time)
    requires DistinctKeys(list)
    ensures var found := Get(list, key, now).1;
      && (forall e :: e in list && e.key == key && now <= e.expiresAt ==> found == Some(e.value))
      && (found.Some? ==> exists e :: e in list && e.key == key && now <= e.expiresAt && e.value == found.value)
  {
    var i := Find(list, key);
    if i < |list| {
      assert list[i] in list;
      forall e | e in list && e.key == key ensures e == list[i] {
        var j :| 0 <= j < |list| && list[j] == e;
      }
    }
  }
}
