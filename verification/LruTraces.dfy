/**
 * Whole-run properties of the cache: what any sequence of calls, with any clock
 * readings and any cancelled contexts, leaves in it. A call that is dead (its context
 * is cancelled) still occurs in the trace.
 */
module LruTraces {
  import opened Common
  import opened S = LruSpec

  datatype Call =
    | GetCall(live: bool, key: Id, now: Time)
    | SetCall(live: bool, key: Id, value: Bytes, ttlSeconds: int, now: Time)
    | DeleteCall(live: bool, key: Id)
    | CloseCall

  function Step(list: Recency, maxSize: int, call: Call): Recency {
    match call
    case GetCall(live, key, now) => if live then Get(list, key, now).0 else list
    case SetCall(live, key, value, ttl, now) =>
      if live then Set(list, maxSize, key, value, ExpiresAt(ttl, now)) else list
    case DeleteCall(live, key) => if live then Delete(list, key) else list
    case CloseCall => []
  }

  /** The cache after a trace that starts with a new cache. */
  function Run(maxSize: int, trace: seq<Call>): (list: Recency)
    ensures WellFormed(list, maxSize)
  {
    if trace == [] then []
    else
      var before := Run(maxSize, Init(trace));
      StepKeepsWellFormed(before, maxSize, Last(trace));
      Step(before, maxSize, Last(trace))
  }

  function Init<T>(s: seq<T>): seq<T>
    requires s != []
  {
    s[..|s| - 1]
  }

  function Last<T>(s: seq<T>): T
    requires s != []
  {
    s[|s| - 1]
  }

  lemma StepKeepsWellFormed(list: Recency, maxSize: int, call: Call)
    requires WellFormed(list, maxSize)
    ensures WellFormed(Step(list, maxSize, call), maxSize)
  {
    match call
    case GetCall(_, key, now) => OperationsKeepWellFormed(list, maxSize, key, Opaque(""), 0, now);
    case SetCall(_, key, value, ttl, now) =>
      OperationsKeepWellFormed(list, maxSize, key, value, ExpiresAt(ttl, now), now);
    case DeleteCall(_, key) => OperationsKeepWellFormed(list, maxSize, key, Opaque(""), 0, 0);
    case CloseCall =>
  }

  /**
   * The reference: an unbounded map that remembers every live Set until a live Delete
   * of the key, a Close, or a live Get that finds it expired.
   */
  function Remembered(trace: seq<Call>): map<Id, Entry> {
    if trace == [] then map[]
    else
      var m := Remembered(Init(trace));
      match Last(trace)
      case GetCall(live, key, now) => if live && key in m && now > m[key].expiresAt then m - {key} else m
      case SetCall(live, key, value, ttl, now) => if live then m[key := Entry(key, value, ExpiresAt(ttl, now))] else m
      case DeleteCall(live, key) => if live then m - {key} else m
      case CloseCall => map[]
  }

  /** The entry a call puts at the front, if it is a live Set or a Get that finds its key. */
  function Used(list: Recency, call: Call): Option<Entry> {
    match call
    case GetCall(live, key, now) =>
      if live && Get(list, key, now).1.Some? then Some(list[Find(list, key)]) else None
    case SetCall(live, key, value, ttl, now) => if live then Some(Entry(key, value, ExpiresAt(ttl, now))) else None
    case _ => None
  }

  predicate Uses(list: Recency, call: Call, key: Id) {
    Used(list, call).Some? && Used(list, call).value.key == key
  }

  /** The position a call other than Close takes out of the list, or the length of the list. */
  function Removed(list: Recency, maxSize: int, call: Call): (p: nat)
    requires !call.CloseCall?
    ensures p <= |list|
  {
    if !call.live then |list|
    else if Has(list, call.key) then Find(list, call.key)
    else if call.SetCall? && |list| >= maxSize && list != [] then |list| - 1
    else |list|
  }

  /** The common shape of all calls but Close: cut one position, put one entry in front. */
  function Pushed(used: Option<Entry>, list: Recency, p: nat): Recency {
    (if used.Some? then [used.value] else []) + Cut(list, p)
  }

  lemma StepShape(list: Recency, maxSize: int, call: Call)
    requires !call.CloseCall?
    ensures Step(list, maxSize, call) == Pushed(Used(list, call), list, Removed(list, maxSize, call))
  {
  }

  /** How far a call moves the other entries back. */
  function Shift(used: Option<Entry>): nat {
    if used.Some? then 1 else 0
  }

  /** Where the entry now at position `i` stood before the position `p` was cut. */
  function Origin(used: Option<Entry>, p: nat, i: nat): nat
    requires Shift(used) <= i
  {
    if p <= i - Shift(used) then i - Shift(used) + 1 else i - Shift(used)
  }

  lemma PushedEntry(used: Option<Entry>, list: Recency, p: nat, i: nat)
    requires p <= |list| && Shift(used) <= i < |Pushed(used, list, p)|
    ensures Origin(used, p, i) < |list| && Origin(used, p, i) != p
    ensures Pushed(used, list, p)[i] == list[Origin(used, p, i)]
    ensures DistinctKeys(Pushed(used, list, p)) && used.Some? ==> Pushed(used, list, p)[i].key != used.value.key
  {
    if used.Some? {
      assert Pushed(used, list, p)[0] == used.value;
    }
  }

  /** Every entry that is not cut is still there. */
  lemma PushedKeeps(used: Option<Entry>, list: Recency, p: nat, j: nat)
    requires p <= |list| && j < |list| && j != p
    ensures var i := (if j < p then j else j - 1) + Shift(used);
      i < |Pushed(used, list, p)| && Pushed(used, list, p)[i] == list[j] && Has(Pushed(used, list, p), list[j].key)
  {
    var i := (if j < p then j else j - 1) + Shift(used);
    assert Pushed(used, list, p)[i] == list[j];
  }

  /** The entries in front of a surviving one are the used entry and ones that were in front of it. */
  lemma InFront(used: Option<Entry>, list: Recency, p: nat, i: nat)
    requires p <= |list| && Shift(used) <= i < |Pushed(used, list, p)|
    ensures Origin(used, p, i) < |list|
    ensures KeysOf(Pushed(used, list, p), i) <= KeysOf(list, Origin(used, p, i)) + UsedKeys(used)
  {
    var after := Pushed(used, list, p);
    PushedEntry(used, list, p, i);
    forall j | 0 <= j < i ensures after[j].key in KeysOf(list, Origin(used, p, i)) + UsedKeys(used) {
      if j >= Shift(used) {
        PushedEntry(used, list, p, j);
      }
    }
  }

  /** If what is cut is what is used, or stood behind, nothing in front is lost. */
  lemma NothingLostInFront(used: Option<Entry>, list: Recency, p: nat, i: nat)
    requires p <= |list| && Shift(used) <= i < |Pushed(used, list, p)|
    requires p < Origin(used, p, i) < |list| ==> used.Some? && used.value.key == list[p].key
    ensures Origin(used, p, i) < |list|
    ensures KeysOf(Pushed(used, list, p), i) == KeysOf(list, Origin(used, p, i)) + UsedKeys(used)
  {
    var after := Pushed(used, list, p);
    InFront(used, list, p, i);
    forall j | 0 <= j < Origin(used, p, i) ensures list[j].key in KeysOf(after, i) {
      if j == p {
        assert after[0] == used.value;
      } else {
        PushedKeeps(used, list, p, j);
      }
    }
    assert used.Some? ==> after[0] == used.value;
  }

  function UsedKeys(used: Option<Entry>): set<Id> {
    if used.Some? then {used.value.key} else {}
  }

  /** The index of the last call of the trace that used `key`, or -1. */
  function LastUse(maxSize: int, trace: seq<Call>, key: Id): (i: int)
    ensures -1 <= i < |trace|
  {
    if trace == [] then -1
    else if Uses(Run(maxSize, Init(trace)), Last(trace), key) then |trace| - 1
    else LastUse(maxSize, Init(trace), key)
  }

  /** The other keys used since the last use of `key`. */
  function UsedSince(maxSize: int, trace: seq<Call>, key: Id): (others: set<Id>)
    ensures key !in others
  {
    if trace == [] then {}
    else
      var used := Used(Run(maxSize, Init(trace)), Last(trace));
      if used.Some? && used.value.key == key then {}
      else UsedSince(maxSize, Init(trace), key) + UsedKeys(used)
  }

  /** The keys of the first `n` entries. */
  function KeysOf(list: Recency, n: nat): set<Id>
    requires n <= |list|
  {
    set i | 0 <= i < n :: list[i].key
  }

  lemma {:induction false} KeysOfCardinality(list: Recency, n: nat)
    requires n <= |list| && DistinctKeys(list)
    ensures |KeysOf(list, n)| == n
  {
    if n > 0 {
      KeysOfCardinality(list, n - 1);
      assert KeysOf(list, n) == KeysOf(list, n - 1) + {list[n - 1].key};
    } else {
      assert KeysOf(list, n) == {};
    }
  }

  /** What the last call of a trace did, in terms of the cache before it. */
  lemma LastStep(maxSize: int, trace: seq<Call>, i: nat)
    requires i < |Run(maxSize, trace)|
    ensures trace != [] && !Last(trace).CloseCall?
    ensures var list := Run(maxSize, Init(trace));
      var used := Used(list, Last(trace));
      var p := Removed(list, maxSize, Last(trace));
      && Run(maxSize, trace) == Pushed(used, list, p)
      && (i < Shift(used) ==> i == 0 && Run(maxSize, trace)[i] == used.value)
      && (i >= Shift(used) ==>
            && Origin(used, p, i) < |list| && Origin(used, p, i) != p
            && Run(maxSize, trace)[i] == list[Origin(used, p, i)]
            && !Uses(list, Last(trace), Run(maxSize, trace)[i].key))
  {
    var list := Run(maxSize, Init(trace));
    StepShape(list, maxSize, Last(trace));
    if i >= Shift(Used(list, Last(trace))) {
      PushedEntry(Used(list, Last(trace)), list, Removed(list, maxSize, Last(trace)), i);
    }
  }

  /** Where an entry that the last call did not use stood before it. */
  function Before(maxSize: int, trace: seq<Call>, i: nat): (j: nat)
    requires i < |Run(maxSize, trace)|
    requires trace != [] && !Uses(Run(maxSize, Init(trace)), Last(trace), Run(maxSize, trace)[i].key)
    ensures j < |Run(maxSize, Init(trace))| && Run(maxSize, Init(trace))[j] == Run(maxSize, trace)[i]
  {
    LastStep(maxSize, trace, i);
    var list := Run(maxSize, Init(trace));
    Origin(Used(list, Last(trace)), Removed(list, maxSize, Last(trace)), i)
  }

  /** Entries that the last call did not use keep their order, and only the first can be the one it used. */
  lemma BeforeKeepsOrder(maxSize: int, trace: seq<Call>, a: nat, b: nat)
    requires a < b < |Run(maxSize, trace)|
    ensures trace != [] && !Uses(Run(maxSize, Init(trace)), Last(trace), Run(maxSize, trace)[b].key)
    ensures !Uses(Run(maxSize, Init(trace)), Last(trace), Run(maxSize, trace)[a].key) ==>
      Before(maxSize, trace, a) < Before(maxSize, trace, b)
  {
    LastStep(maxSize, trace, a);
    LastStep(maxSize, trace, b);
  }

  /** List order is last-use order, in every reachable cache. */
  lemma {:induction false} RecencyIsLastUseOrder(maxSize: int, trace: seq<Call>, a: nat, b: nat)
    requires a < b < |Run(maxSize, trace)|
    ensures var list := Run(maxSize, trace);
      LastUse(maxSize, trace, list[a].key) > LastUse(maxSize, trace, list[b].key) >= 0
  {
    BeforeKeepsOrder(maxSize, trace, a, b);
    if Uses(Run(maxSize, Init(trace)), Last(trace), Run(maxSize, trace)[a].key) {
      EveryEntryWasUsed(maxSize, Init(trace), Before(maxSize, trace, b));
    } else {
      RecencyIsLastUseOrder(maxSize, Init(trace), Before(maxSize, trace, a), Before(maxSize, trace, b));
    }
  }

  lemma {:induction false} EveryEntryWasUsed(maxSize: int, trace: seq<Call>, i: nat)
    requires i < |Run(maxSize, trace)|
    ensures LastUse(maxSize, trace, Run(maxSize, trace)[i].key) >= 0
  {
    LastStep(maxSize, trace, i);
    if !Uses(Run(maxSize, Init(trace)), Last(trace), Run(maxSize, trace)[i].key) {
      EveryEntryWasUsed(maxSize, Init(trace), Before(maxSize, trace, i));
    }
  }

  ghost predicate IsRemembered(trace: seq<Call>, e: Entry) {
    e.key in Remembered(trace) && Remembered(trace)[e.key] == e
  }

  /** A cache never invents or alters anything: each entry is the one the reference remembers. */
  lemma {:induction false} NeverWrong(maxSize: int, trace: seq<Call>, i: nat)
    requires i < |Run(maxSize, trace)|
    ensures var e := Run(maxSize, trace)[i]; e.key in Remembered(trace) && Remembered(trace)[e.key] == e
  {
    LastStep(maxSize, trace, i);
    var list := Run(maxSize, Init(trace));
    var e := Run(maxSize, trace)[i];
    if !Uses(list, Last(trace), e.key) {
      NeverWrong(maxSize, Init(trace), Before(maxSize, trace, i));
      SurvivorNotNamed(maxSize, trace, i);
      SurvivorIsRemembered(trace, e);
    } else {
      var f := Find(list, Last(trace).key);
      if f < |list| {
        NeverWrong(maxSize, Init(trace), f);
      }
      UsedIsRemembered(list, trace, e);
    }
  }

  lemma SurvivorIsRemembered(trace: seq<Call>, e: Entry)
    requires trace != [] && IsRemembered(Init(trace), e) && !Last(trace).CloseCall?
    requires Last(trace).live ==> Last(trace).key != e.key
    ensures IsRemembered(trace, e)
  {
  }

  lemma UsedIsRemembered(list: Recency, trace: seq<Call>, e: Entry)
    requires trace != [] && Used(list, Last(trace)) == Some(e)
    requires var f := Find(list, Last(trace).key); f < |list| ==> IsRemembered(Init(trace), list[f])
    ensures IsRemembered(trace, e)
  {
  }

  lemma SurvivorNotNamed(maxSize: int, trace: seq<Call>, i: nat)
    requires i < |Run(maxSize, trace)|
    requires trace != [] && !Uses(Run(maxSize, Init(trace)), Last(trace), Run(maxSize, trace)[i].key)
    ensures !Last(trace).CloseCall?
    ensures Last(trace).live ==> Last(trace).key != Run(maxSize, trace)[i].key
  {
    LastStep(maxSize, trace, i);
    FindEntry(Run(maxSize, Init(trace)), Before(maxSize, trace, i));
  }

  /** A found Get returns the remembered value, and not later than its expiry. */
  lemma FoundIsRemembered(maxSize: int, trace: seq<Call>, key: Id, now: Time)
    ensures var found := Get(Run(maxSize, trace), key, now).1;
      found.Some? ==> key in Remembered(trace) && now <= Remembered(trace)[key].expiresAt
                      && found.value == Remembered(trace)[key].value
  {
    var i := Find(Run(maxSize, trace), key);
    if i < |Run(maxSize, trace)| {
      NeverWrong(maxSize, trace, i);
    }
  }

  /** A key that stays remembered over a call that does not use it: the call does not take it out by name. */
  lemma StillRemembered(maxSize: int, trace: seq<Call>, key: Id)
    requires trace != [] && key in Remembered(trace) && !Uses(Run(maxSize, Init(trace)), Last(trace), key)
    ensures key in Remembered(Init(trace)) && Remembered(Init(trace))[key] == Remembered(trace)[key]
    ensures !Last(trace).CloseCall?
    ensures Has(Run(maxSize, Init(trace)), key) ==> !(Last(trace).live && Last(trace).key == key)
  {
    var list := Run(maxSize, Init(trace));
    if Has(list, key) {
      NeverWrong(maxSize, Init(trace), Find(list, key));
    }
  }

  /** The last call pushed out `key`, without naming it: it set a new key in a full cache. */
  predicate Evicts(list: Recency, maxSize: int, call: Call, key: Id) {
    call.SetCall? && call.live && !Has(list, call.key) && |list| >= maxSize && Find(list, key) == |list| - 1
  }

  lemma StaysUnlessEvicted(maxSize: int, trace: seq<Call>, key: Id)
    requires trace != [] && !Last(trace).CloseCall? && !(Last(trace).live && Last(trace).key == key)
    requires Has(Run(maxSize, Init(trace)), key)
    ensures Has(Run(maxSize, trace), key) || Evicts(Run(maxSize, Init(trace)), maxSize, Last(trace), key)
  {
    var list := Run(maxSize, Init(trace));
    var p := Removed(list, maxSize, Last(trace));
    StepShape(list, maxSize, Last(trace));
    if Find(list, key) != p {
      PushedKeeps(Used(list, Last(trace)), list, p, Find(list, key));
    }
  }

  /** All but the last key of a full cache and one new key make at least maxSize keys. */
  lemma Outnumbered(list: Recency, newKey: Id, others: set<Id>, maxSize: int)
    requires DistinctKeys(list) && !Has(list, newKey) && |list| >= maxSize >= 1
    requires KeysOf(list, |list| - 1) <= others && newKey in others
    ensures |others| >= maxSize
  {
    KeysOfCardinality(list, |list| - 1);
    assert newKey !in KeysOf(list, |list| - 1);
    SubsetCardinality(KeysOf(list, |list| - 1) + {newKey}, others);
  }

  /**
   * The invariant behind retention: in front of a remembered key stand only keys used
   * since its last use, and a remembered key that is gone was outnumbered by such keys.
   */
  lemma {:induction false} OutnumberedOrPresent(maxSize: int, trace: seq<Call>, key: Id)
    requires maxSize >= 1 && key in Remembered(trace)
    ensures Has(Run(maxSize, trace), key) ==>
      KeysOf(Run(maxSize, trace), Find(Run(maxSize, trace), key)) <= UsedSince(maxSize, trace, key)
    ensures !Has(Run(maxSize, trace), key) ==> |UsedSince(maxSize, trace, key)| >= maxSize
  {
    var list := Run(maxSize, Init(trace));
    var call := Last(trace);
    if Uses(list, call, key) {
      StepShape(list, maxSize, call);
      FindEntry(Run(maxSize, trace), 0);
    } else {
      StillRemembered(maxSize, trace, key);
      OutnumberedOrPresent(maxSize, Init(trace), key);
      SubsetCardinality(UsedSince(maxSize, Init(trace), key), UsedSince(maxSize, trace, key));
      if Has(Run(maxSize, trace), key) {
        FrontGrows(maxSize, trace, key);
      } else if Has(list, key) {
        StaysUnlessEvicted(maxSize, trace, key);
        Outnumbered(list, call.key, UsedSince(maxSize, trace, key), maxSize);
      }
    }
  }

  /** A key the last call did not use was there before it, and only what that call used has come in front. */
  lemma FrontGrows(maxSize: int, trace: seq<Call>, key: Id)
    requires Has(Run(maxSize, trace), key)
    requires trace != [] && !Uses(Run(maxSize, Init(trace)), Last(trace), key)
    ensures var (list, after) := (Run(maxSize, Init(trace)), Run(maxSize, trace));
      && Has(list, key)
      && KeysOf(after, Find(after, key)) <= KeysOf(list, Find(list, key)) + UsedKeys(Used(list, Last(trace)))
  {
    var (list, call) := (Run(maxSize, Init(trace)), Last(trace));
    var i := Find(Run(maxSize, trace), key);
    LastStep(maxSize, trace, i);
    FindEntry(list, Before(maxSize, trace, i));
    InFront(Used(list, call), list, Removed(list, maxSize, call), i);
  }

  /**
   * Retention: a key that is set and not deleted, closed or expired is found, unless at
   * least maxSize other keys were set or hit since its last use.
   */
  lemma Retention(maxSize: int, trace: seq<Call>, key: Id, now: Time)
    requires maxSize >= 1 && key in Remembered(trace)
    requires |UsedSince(maxSize, trace, key)| < maxSize
    ensures Has(Run(maxSize, trace), key)
    ensures Get(Run(maxSize, trace), key, now).1 ==
      if now > Remembered(trace)[key].expiresAt then None else Some(Remembered(trace)[key].value)
  {
    OutnumberedOrPresent(maxSize, trace, key);
    NeverWrong(maxSize, trace, Find(Run(maxSize, trace), key));
  }

  /** The call takes nothing out of the cache except by eviction. */
  predicate OnlyEvictsNow(list: Recency, call: Call) {
    match call
    case GetCall(live, key, now) => live && Has(list, key) ==> now <= list[Find(list, key)].expiresAt
    case SetCall(_, _, _, _, _) => true
    case DeleteCall(live, _) => !live
    case CloseCall => false
  }

  predicate OnlyEvicts(maxSize: int, trace: seq<Call>) {
    trace == [] || (OnlyEvicts(maxSize, Init(trace)) && OnlyEvictsNow(Run(maxSize, Init(trace)), Last(trace)))
  }

  /** Then the keys in front of a key are exactly those used since its last use. */
  lemma {:induction false} FrontIsUsedSince(maxSize: int, trace: seq<Call>, i: nat)
    requires OnlyEvicts(maxSize, trace) && i < |Run(maxSize, trace)|
    ensures KeysOf(Run(maxSize, trace), i) == UsedSince(maxSize, trace, Run(maxSize, trace)[i].key)
  {
    LastStep(maxSize, trace, i);
    var list := Run(maxSize, Init(trace));
    if Uses(list, Last(trace), Run(maxSize, trace)[i].key) {
      assert i == 0;
    } else {
      FrontIsUsedSince(maxSize, Init(trace), Before(maxSize, trace, i));
      NothingLostInFront(Used(list, Last(trace)), list, Removed(list, maxSize, Last(trace)), i);
    }
  }

  /** With nothing but evictions, a remembered key is present exactly when fewer than maxSize others were used since. */
  lemma PresentExactlyWhen(maxSize: int, trace: seq<Call>, key: Id)
    requires maxSize >= 1 && OnlyEvicts(maxSize, trace) && key in Remembered(trace)
    ensures Has(Run(maxSize, trace), key) <==> |UsedSince(maxSize, trace, key)| < maxSize
  {
    var list := Run(maxSize, trace);
    OutnumberedOrPresent(maxSize, trace, key);
    if Has(list, key) {
      FrontIsUsedSince(maxSize, trace, Find(list, key));
      KeysOfCardinality(list, Find(list, key));
    }
  }
}
