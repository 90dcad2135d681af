/**
 * The idempotency store built on a cache, a Get followed by a Set, composed with the LRU cache.
 * One call at a time it follows the same lossy test-and-set; RedisProtocol.dfy has overlapping calls.
 */
module RedisIdempotency {
  import opened Common
  import opened TestAndSet
  import opened LruCache
  import S = LruSpec

  const TTL_SECONDS := 86400
  const ONE := S.Opaque("1")

  /** The keys the cache holds, with their expiry. */
  function HeldBy(list: S.Recency): Held {
    if list == [] then map[] else HeldBy(list[1..])[list[0].key := list[0].expiresAt]
  }

  lemma {:induction false} HeldByMeans(list: S.Recency, key: Id)
    ensures key in HeldBy(list) <==> exists e :: e in list && e.key == key
  {
    if list != [] {
      HeldByMeans(list[1..], key);
      assert list == [list[0]] + list[1..];
    }
  }

  lemma HeldByFind(list: S.Recency, key: Id)
    ensures key in HeldBy(list) <==> S.Has(list, key)
  {
    HeldByMeans(list, key);
    S.HasMeans(list, key);
  }

  lemma {:induction false} HeldByAt(list: S.Recency, i: nat)
    requires S.DistinctKeys(list) && i < |list|
    ensures list[i].key in HeldBy(list) && HeldBy(list)[list[i].key] == list[i].expiresAt
  {
    if i > 0 {
      HeldByAt(list[1..], i - 1);
    }
  }

  lemma HeldByFront(list: S.Recency, e: S.Entry)
    ensures HeldBy([e] + list) == HeldBy(list)[e.key := e.expiresAt]
  {
    assert ([e] + list)[1..] == list;
  }

  lemma HeadIsAbsent(list: S.Recency)
    requires S.DistinctKeys(list) && list != []
    ensures list[0].key !in HeldBy(list[1..])
  {
    HeldByMeans(list[1..], list[0].key);
  }

  lemma {:induction false} HeldByCut(list: S.Recency, i: nat)
    requires S.DistinctKeys(list) && i < |list|
    ensures HeldBy(RemoveAt(list, i)) == HeldBy(list) - {list[i].key}
  {
    var (head, rest) := (list[0], list[1..]);
    RemoveAtTail(list, i);
    if i == 0 {
      HeadIsAbsent(list);
      AddThenRemove(HeldBy(rest), head.key, head.expiresAt);
    } else {
      HeldByCut(rest, i - 1);
      HeldByFront(RemoveAt(rest, i - 1), head);
      AddAndRemove(HeldBy(rest), head.key, head.expiresAt, list[i].key);
    }
  }

  /** Dropping the last entry. */
  lemma HeldByLast(list: S.Recency)
    requires S.DistinctKeys(list) && list != []
    ensures var last := list[|list| - 1].key;
      last in HeldBy(list) && HeldBy(list[..|list| - 1]) == HeldBy(list) - {last}
  {
    var last := |list| - 1;
    assert RemoveAt(list, last) == list[..last];
    HeldByCut(list, last);
    HeldByAt(list, last);
  }

  /** The events of a Get. */
  function GetEvents(list: S.Recency, key: Id, now: Time): seq<Event> {
    if S.Get(list, key, now).1.Some? then [Duplicate(key)]
    else if S.Has(list, key) then [Lose(key, Expired(now))]
    else []
  }

  /** The events of the Set of a key that is not there. */
  function SetEvents(list: S.Recency, maxSize: int, key: Id, now: Time): seq<Event> {
    var until := S.ExpiresAt(TTL_SECONDS, now);
    if |list| >= maxSize && list != [] then [Lose(list[|list| - 1].key, Evicted)] + [Grant(key, until)]
    else [Grant(key, until)]
  }

  /** The whole call, nothing else running: the new cache, the answer (an error is None), and the events. */
  function Check(list: S.Recency, maxSize: int, ctx: Ctx, key: Id, now: Time, later: Time)
    : (S.Recency, Option<bool>, seq<Event>)
  {
    var (list1, found) := S.Get(list, key, now);
    if !ctx.Live(0) then (list, None, [])
    else if found.Some? then (list1, Some(true), GetEvents(list, key, now))
    else if !ctx.Live(1) then (list1, None, GetEvents(list, key, now))
    else (S.Set(list1, maxSize, key, ONE, S.ExpiresAt(TTL_SECONDS, later)), Some(false),
          GetEvents(list, key, now) + SetEvents(list1, maxSize, key, later))
  }

  /** The events so far lead to what the cache holds. */
  ghost predicate Follows(history: seq<Event>, list: S.Recency) {
    Replay(history) == Some(HeldBy(list))
  }

  /** A Get forgets its key if it has expired, and nothing else. */
  lemma GetHeld(list: S.Recency, maxSize: int, key: Id, now: Time)
    requires S.WellFormed(list, maxSize)
    ensures var (list1, found) := S.Get(list, key, now);
      && S.WellFormed(list1, maxSize)
      && (found.Some? <==> key in HeldBy(list) && !(now > HeldBy(list)[key]))
      && HeldBy(list1) == (if found.Some? then HeldBy(list) else HeldBy(list) - {key})
  {
    S.OperationsKeepWellFormed(list, maxSize, key, ONE, 0, now);
    HeldByFind(list, key);
    var i := S.Find(list, key);
    if i == |list| {
      RemoveAbsent(HeldBy(list), key);
    } else {
      HeldByAt(list, i);
      HeldByCut(list, i);
      TouchHeld(list, i);
    }
  }

  /** Moving an entry to the front changes nothing that is held. */
  lemma TouchHeld(list: S.Recency, i: nat)
    requires S.DistinctKeys(list) && i < |list|
    ensures HeldBy([list[i]] + RemoveAt(list, i)) == HeldBy(list)
  {
    HeldByCut(list, i);
    HeldByAt(list, i);
    RemoveThenAdd(HeldBy(list), list[i].key);
    HeldByFront(RemoveAt(list, i), list[i]);
  }

  /** The Set of a key that is not there drops the last key if the cache is full, and adds its own. */
  lemma SetHeld(list: S.Recency, maxSize: int, key: Id, until: Time)
    requires S.WellFormed(list, maxSize) && !S.Has(list, key)
    ensures var after := S.Set(list, maxSize, key, ONE, until);
      && S.WellFormed(after, maxSize)
      && HeldBy(after) == (if |list| >= maxSize && list != [] then HeldBy(list) - {list[|list| - 1].key}
                           else HeldBy(list))[key := until]
  {
    S.OperationsKeepWellFormed(list, maxSize, key, ONE, until, 0);
    if |list| >= maxSize && list != [] {
      HeldByLast(list);
      HeldByFront(list[..|list| - 1], S.Entry(key, ONE, until));
    } else {
      HeldByFront(list, S.Entry(key, ONE, until));
    }
  }

  lemma DeleteHeld(list: S.Recency, maxSize: int, key: Id)
    requires S.WellFormed(list, maxSize)
    ensures S.WellFormed(S.Delete(list, key), maxSize) && HeldBy(S.Delete(list, key)) == HeldBy(list) - {key}
  {
    S.OperationsKeepWellFormed(list, maxSize, key, ONE, 0, 0);
    HeldByFind(list, key);
    if S.Has(list, key) {
      HeldByCut(list, S.Find(list, key));
    } else {
      RemoveAbsent(HeldBy(list), key);
    }
  }

  lemma GetFollows(history: seq<Event>, list: S.Recency, maxSize: int, key: Id, now: Time)
    requires Follows(history, list) && S.WellFormed(list, maxSize)
    ensures Follows(history + GetEvents(list, key, now), S.Get(list, key, now).0)
    ensures S.Get(list, key, now).1.None? ==> !S.Has(S.Get(list, key, now).0, key)
  {
    var (list1, found) := S.Get(list, key, now);
    GetHeld(list, maxSize, key, now);
    HeldByFind(list, key);
    HeldByFind(list1, key);
    if found.Some? {
      ReplayOne(history, Duplicate(key));
    } else if S.Has(list, key) {
      ReplayOne(history, Lose(key, Expired(now)));
    } else {
      assert history + [] == history;
      RemoveAbsent(HeldBy(list), key);
    }
  }

  lemma SetFollows(history: seq<Event>, list: S.Recency, maxSize: int, key: Id, now: Time)
    requires Follows(history, list) && S.WellFormed(list, maxSize) && !S.Has(list, key)
    ensures Follows(history + SetEvents(list, maxSize, key, now),
                    S.Set(list, maxSize, key, ONE, S.ExpiresAt(TTL_SECONDS, now)))
  {
    var until := S.ExpiresAt(TTL_SECONDS, now);
    HeldByFind(list, key);
    SetHeld(list, maxSize, key, until);
    if |list| >= maxSize && list != [] {
      HeldByLast(list);
      var lost := Lose(list[|list| - 1].key, Evicted);
      ReplayOne(history, lost);
      ReplayOne(history + [lost], Grant(key, until));
      assert history + SetEvents(list, maxSize, key, now) == history + [lost] + [Grant(key, until)];
    } else {
      ReplayOne(history, Grant(key, until));
    }
  }

  /** One call at a time, the store follows the test-and-set machine and answers as it does. */
  lemma CheckFollows(history: seq<Event>, list: S.Recency, maxSize: int, ctx: Ctx, key: Id, now: Time, later: Time)
    requires Follows(history, list) && S.WellFormed(list, maxSize)
    ensures var (list', answer, events) := Check(list, maxSize, ctx, key, now, later);
      Follows(history + events, list') && Answers(answer, events, key, later + TTL_SECONDS * SECOND)
  {
    var (list1, found) := S.Get(list, key, now);
    CheckAnswers(list, maxSize, ctx, key, now, later);
    GetHeld(list, maxSize, key, now);
    GetFollows(history, list, maxSize, key, now);
    var (got, set_) := (GetEvents(list, key, now), SetEvents(list1, maxSize, key, later));
    assert history + [] == history;
    if ctx.Live(0) && found.None? && ctx.Live(1) {
      SetFollows(history + got, list1, maxSize, key, later);
      assert history + (got + set_) == history + got + set_;
    }
  }

  /** The events are those of the answer: a duplicate, a grant that may follow losses, or, with an error, losses. */
  predicate Answers(answer: Option<bool>, events: seq<Event>, key: Id, until: Time) {
    match answer
    case Some(true) => events == [Duplicate(key)]
    case Some(false) =>
      && events != [] && events[|events| - 1] == Grant(key, until)
      && forall i :: 0 <= i < |events| - 1 ==> events[i].Lose?
    case None => forall i :: 0 <= i < |events| ==> events[i].Lose?
  }

  lemma CheckAnswers(list: S.Recency, maxSize: int, ctx: Ctx, key: Id, now: Time, later: Time)
    ensures var (_, answer, events) := Check(list, maxSize, ctx, key, now, later);
      Answers(answer, events, key, later + TTL_SECONDS * SECOND)
  {
    var (list1, found) := S.Get(list, key, now);
    var (got, grant) := (GetEvents(list, key, now), Grant(key, later + TTL_SECONDS * SECOND));
    if !ctx.Live(0) || found.Some? || !ctx.Live(1) {
      assert Check(list, maxSize, ctx, key, now, later).1 != Some(false);
    } else if |list1| >= maxSize && list1 != [] {
      var lost := Lose(list1[|list1| - 1].key, Evicted);
      assert SetEvents(list1, maxSize, key, later) == [lost] + [grant];
      LossesThenGrant(got + [lost], grant);
      assert got + ([lost] + [grant]) == got + [lost] + [grant];
    } else {
      assert SetEvents(list1, maxSize, key, later) == [grant];
      LossesThenGrant(got, grant);
    }
  }

  lemma LossesThenGrant(losses: seq<Event>, grant: Event)
    requires forall i :: 0 <= i < |losses| ==> losses[i].Lose?
    ensures var events := losses + [grant];
      events[|events| - 1] == grant && forall i :: 0 <= i < |events| - 1 ==> events[i].Lose?
  {
  }

  lemma DeleteFollows(history: seq<Event>, list: S.Recency, maxSize: int, key: Id)
    requires Follows(history, list) && S.WellFormed(list, maxSize)
    ensures Follows(history + DeleteEvents(list, key), S.Delete(list, key))
  {
    DeleteHeld(list, maxSize, key);
    HeldByFind(list, key);
    if S.Has(list, key) {
      ReplayOne(history, Lose(key, Deleted));
    } else {
      assert history + [] == history;
      RemoveAbsent(HeldBy(list), key);
    }
  }

  function DeleteEvents(list: S.Recency, key: Id): seq<Event> {
    if S.Has(list, key) then [Lose(key, Deleted)] else []
  }

  /** Closing the cache loses every key. */
  function CloseEvents(list: S.Recency): seq<Event> {
    if list == [] then [] else [Lose(list[0].key, Closed)] + CloseEvents(list[1..])
  }

  lemma LoseFirst(history: seq<Event>, list: S.Recency, why: Why)
    requires Follows(history, list) && S.DistinctKeys(list) && list != [] && !why.Expired?
    ensures Follows(history + [Lose(list[0].key, why)], list[1..]) && S.DistinctKeys(list[1..])
  {
    RemoveAtTail(list, 0);
    HeldByCut(list, 0);
    HeldByAt(list, 0);
    ReplayOne(history, Lose(list[0].key, why));
  }

  lemma {:induction false} CloseFollows(history: seq<Event>, list: S.Recency)
    requires Follows(history, list) && S.DistinctKeys(list)
    ensures Follows(history + CloseEvents(list), [])
    decreases |list|
  {
    if list == [] {
      assert history + [] == history;
    } else {
      var (lost, others) := (Lose(list[0].key, Closed), CloseEvents(list[1..]));
      LoseFirst(history, list, Closed);
      CloseFollows(history + [lost], list[1..]);
      assert history + ([lost] + others) == history + [lost] + others;
    }
  }

  class RedisIdempotencyStore {
    const cache: LRUCache

    constructor (cache: LRUCache)
      ensures this.cache == cache
    {
      this.cache := cache;
    }

    /** The clock is read by Get and again by Set. */
    method CheckAndSet(ctx: Ctx, key: Id, now: Time, later: Time) returns (duplicate: Option<bool>)
      requires cache.Valid()
      modifies cache.Repr
      ensures cache.Valid() && fresh(cache.Repr - old(cache.Repr))
      ensures var (list, answer, _) := Check(old(cache.contents), cache.maxSize, ctx, key, now, later);
        cache.contents == list && duplicate == answer
    {
      var answer := cache.Get(ctx.Live(0), key, now);
      if answer.Cancelled? {
        return None;
      }
      if answer.Found? {
        return Some(true);
      }
      var ok := cache.Set(ctx.Live(1), key, ONE, TTL_SECONDS, later);
      return if ok then Some(false) else None;
    }

    method Delete(live: bool, key: Id) returns (ok: bool)
      requires cache.Valid()
      modifies cache.Repr
      ensures cache.Valid() && fresh(cache.Repr - old(cache.Repr)) && ok == live
      ensures cache.contents == if live then S.Delete(old(cache.contents), key) else old(cache.contents)
    {
      ok := cache.Delete(live, key);
    }

    method Close()
      requires cache.Valid()
      modifies cache
      ensures cache.Valid() && fresh(cache.Repr - old(cache.Repr)) && cache.contents == []
    {
      cache.Close();
    }
  }

  // ----- Whole runs, one call at a time -----

  datatype Operation = CheckOp(ctx: Ctx, key: Id, now: Time, later: Time) | DeleteOp(live: bool, key: Id) | CloseOp

  /** What an operation makes of the cache, and what it answers a check. */
  function Performed(list: S.Recency, maxSize: int, op: Operation): (S.Recency, Option<bool>) {
    match op
    case CheckOp(ctx, key, now, later) =>
      var (list', answer, _) := Check(list, maxSize, ctx, key, now, later);
      (list', answer)
    case DeleteOp(live, key) => (if live then S.Delete(list, key) else list, None)
    case CloseOp => ([], None)
  }

  /** The program on a new cache: the cache before each operation and after the last, and the answers. */
  datatype Record = Record(maxSize: int, ops: seq<Operation>, states: seq<S.Recency>, answers: seq<Option<bool>>)

  predicate StepAt(r: Record, m: nat)
    requires m < |r.ops| == |r.answers| && |r.states| == |r.ops| + 1
  {
    (r.states[m + 1], r.answers[m]) == Performed(r.states[m], r.maxSize, r.ops[m])
  }

  /** The ops determine the rest. */
  ghost predicate IsRun(r: Record) {
    && |r.answers| == |r.ops| && |r.states| == |r.ops| + 1 && r.states[0] == []
    && forall m: nat :: m < |r.ops| ==> StepAt(r, m)
  }

  /** Check `i` answered "not duplicate" for the key. */
  predicate GrantedAt(r: Record, i: nat, key: Id)
    requires |r.answers| == |r.ops|
  {
    i < |r.ops| && r.ops[i].CheckOp? && r.ops[i].key == key && r.answers[i] == Some(false)
  }

  /** The key is last in a full cache. */
  predicate Evicts(list: S.Recency, maxSize: int, key: Id) {
    |list| >= maxSize && list != [] && list[|list| - 1].key == key
  }

  /**
   * The operation makes the store forget a key that expires at `until`: it closes the cache, deletes the key,
   * looks for it after that time, or grants another key and finds the cache full and this key last in it.
   */
  predicate Forgets(
    list: S.Recency, maxSize: int, op: Operation, answer: Option<bool>, key: Id, until: Time)
  {
    match op
    case CloseOp => true
    case DeleteOp(live, k) => live && k == key
    case CheckOp(ctx, k, now, _) =>
      if k == key then ctx.Live(0) && now > until
      else answer == Some(false) && Evicts(S.Get(list, k, now).0, maxSize, key)
  }

  predicate LostAt(r: Record, m: nat, key: Id, until: Time)
    requires |r.answers| == |r.ops| && |r.states| == |r.ops| + 1
  {
    m < |r.ops| && Forgets(r.states[m], r.maxSize, r.ops[m], r.answers[m], key, until)
  }

  /** When the grant of check `i` expires. */
  function UntilOf(r: Record, i: nat): Time
    requires i < |r.ops| && r.ops[i].CheckOp?
  {
    r.ops[i].later + TTL_SECONDS * SECOND
  }

  predicate ForgetsGrant(r: Record, i: nat, m: nat)
    requires |r.answers| == |r.ops| && |r.states| == |r.ops| + 1 && i < |r.ops| && r.ops[i].CheckOp?
  {
    LostAt(r, m, r.ops[i].key, UntilOf(r, i))
  }

  /** The key was granted by check `i`, and no operation between `i` and `j` makes the store forget it. */
  ghost predicate StandsUntil(r: Record, i: nat, j: nat, key: Id)
    requires |r.answers| == |r.ops| && |r.states| == |r.ops| + 1
  {
    i < j && GrantedAt(r, i, key) && forall m: nat :: i < m < j ==> !ForgetsGrant(r, i, m)
  }

  /** What a check does to the keys that are held. */
  lemma CheckHeld(list: S.Recency, maxSize: int, ctx: Ctx, key: Id, now: Time, later: Time)
    requires S.WellFormed(list, maxSize)
    ensures var (after, answer, _) := Check(list, maxSize, ctx, key, now, later);
      && S.WellFormed(after, maxSize)
      && HeldBy(after) == HeldAfter(HeldBy(list), S.Get(list, key, now).0, maxSize, ctx.Live(0), key, answer, later)
      && (answer == Some(true) <==> ctx.Live(0) && key in HeldBy(list) && !(now > HeldBy(list)[key]))
  {
    GetHeld(list, maxSize, key, now);
    if ctx.Live(0) && ctx.Live(1) && S.Get(list, key, now).1.None? {
      GrantHeld(list, maxSize, key, now, later);
    } else {
      assert Check(list, maxSize, ctx, key, now, later).1 != Some(false);
    }
  }

  lemma GrantHeld(list: S.Recency, maxSize: int, key: Id, now: Time, later: Time)
    requires S.WellFormed(list, maxSize) && S.Get(list, key, now).1.None?
    ensures var rest := S.Get(list, key, now).0;
      var after := S.Set(rest, maxSize, key, ONE, S.ExpiresAt(TTL_SECONDS, later));
      && S.WellFormed(after, maxSize)
      && HeldBy(after) == HeldAfter(HeldBy(list), rest, maxSize, true, key, Some(false), later)
  {
    var rest := S.Get(list, key, now).0;
    GetHeld(list, maxSize, key, now);
    HeldByFind(rest, key);
    SetHeld(rest, maxSize, key, later + TTL_SECONDS * SECOND);
  }

  /** The keys held after a check that found `rest` in the cache after its Get. */
  function HeldAfter(
    held: Held, rest: S.Recency, maxSize: int, live: bool, key: Id, answer: Option<bool>, later: Time): Held
  {
    if !live || answer == Some(true) then held
    else if answer == None then held - {key}
    else
      (if |rest| >= maxSize && rest != [] then held - {key} - {rest[|rest| - 1].key} else held - {key})
        [key := later + TTL_SECONDS * SECOND]
  }

  lemma {:induction false} StatesAreWellFormed(r: Record, n: nat)
    requires IsRun(r) && n <= |r.ops|
    ensures S.WellFormed(r.states[n], r.maxSize)
  {
    if n > 0 {
      StatesAreWellFormed(r, n - 1);
      assert StepAt(r, n - 1);
      PerformedIsWellFormed(r.states[n - 1], r.maxSize, r.ops[n - 1]);
    }
  }

  lemma PerformedIsWellFormed(list: S.Recency, maxSize: int, op: Operation)
    requires S.WellFormed(list, maxSize)
    ensures S.WellFormed(Performed(list, maxSize, op).0, maxSize)
  {
    match op {
      case CheckOp(ctx, key, now, later) => CheckHeld(list, maxSize, ctx, key, now, later);
      case DeleteOp(live, key) => DeleteHeld(list, maxSize, key);
      case CloseOp =>
    }
  }

  /** One operation: a held key stays, with its expiry, unless the operation makes the store forget it. */
  lemma OperationHolds(list: S.Recency, maxSize: int, op: Operation, key: Id)
    requires S.WellFormed(list, maxSize) && key in HeldBy(list)
    ensures var (after, answer) := Performed(list, maxSize, op);
      var (held, held') := (HeldBy(list), HeldBy(after));
      && (Forgets(list, maxSize, op, answer, key, held[key]) <==>
            key !in held' || (op.CheckOp? && op.key == key && answer == Some(false)))
      && (!Forgets(list, maxSize, op, answer, key, held[key]) ==> held'[key] == held[key])
  {
    match op {
      case CheckOp(ctx, k, now, later) => CheckHeld(list, maxSize, ctx, k, now, later);
      case DeleteOp(_, k) => DeleteHeld(list, maxSize, k);
      case CloseOp =>
    }
  }

  lemma HeldStep(r: Record, m: nat, key: Id)
    requires IsRun(r) && m < |r.ops| && key in HeldBy(r.states[m])
    ensures var (held, held') := (HeldBy(r.states[m]), HeldBy(r.states[m + 1]));
      && (LostAt(r, m, key, held[key]) <==> key !in held' || GrantedAt(r, m, key))
      && (!LostAt(r, m, key, held[key]) ==> held'[key] == held[key])
  {
    StatesAreWellFormed(r, m);
    assert StepAt(r, m);
    OperationHolds(r.states[m], r.maxSize, r.ops[m], key);
  }

  /** One operation: a key comes in only by a check that grants it. */
  lemma OperationGrants(list: S.Recency, maxSize: int, op: Operation, key: Id)
    requires S.WellFormed(list, maxSize)
    ensures var (after, answer) := Performed(list, maxSize, op);
      var (held, held') := (HeldBy(list), HeldBy(after));
      var granted := op.CheckOp? && op.key == key && answer == Some(false);
      && (key !in held && key in held' ==> granted)
      && (granted ==> key in held' && held'[key] == op.later + TTL_SECONDS * SECOND)
  {
    match op {
      case CheckOp(ctx, k, now, later) => CheckHeld(list, maxSize, ctx, k, now, later);
      case DeleteOp(_, k) => DeleteHeld(list, maxSize, k);
      case CloseOp =>
    }
  }

  lemma GrantStep(r: Record, m: nat, key: Id)
    requires IsRun(r) && m < |r.ops|
    ensures var (held, held') := (HeldBy(r.states[m]), HeldBy(r.states[m + 1]));
      && (key !in held && key in held' ==> GrantedAt(r, m, key))
      && (GrantedAt(r, m, key) ==> key in held' && held'[key] == UntilOf(r, m))
  {
    StatesAreWellFormed(r, m);
    assert StepAt(r, m);
    OperationGrants(r.states[m], r.maxSize, r.ops[m], key);
  }

  lemma {:induction false} StandingIsHeld(r: Record, i: nat, j: nat, key: Id)
    requires IsRun(r) && j <= |r.ops| && StandsUntil(r, i, j, key)
    ensures key in HeldBy(r.states[j]) && HeldBy(r.states[j])[key] == UntilOf(r, i)
  {
    if j == i + 1 {
      GrantStep(r, i, key);
    } else {
      StandingIsHeld(r, i, j - 1, key);
      HeldStep(r, j - 1, key);
      assert !ForgetsGrant(r, i, j - 1);
    }
  }

  lemma {:induction false} HeldStands(r: Record, j: nat, key: Id) returns (i: nat)
    requires IsRun(r) && j <= |r.ops| && key in HeldBy(r.states[j])
    ensures StandsUntil(r, i, j, key)
  {
    if GrantedAt(r, j - 1, key) {
      i := j - 1;
    } else {
      GrantStep(r, j - 1, key);
      i := HeldStands(r, j - 1, key);
      StandingIsHeld(r, i, j - 1, key);
      HeldStep(r, j - 1, key);
    }
  }

  /**
   * Over any run of calls one at a time, a check whose context is live answers "duplicate" if and only if an
   * earlier check was granted the key, no operation since has made the store forget it, and it has not expired.
   */
  lemma DuplicateIffStanding(r: Record, j: nat)
    requires IsRun(r) && j < |r.ops| && r.ops[j].CheckOp? && r.ops[j].ctx.Live(0)
    ensures r.answers[j] == Some(true) <==>
      exists i :: StandsUntil(r, i, j, r.ops[j].key) && !(r.ops[j].now > UntilOf(r, i))
  {
    var CheckOp(ctx, key, now, later) := r.ops[j];
    StatesAreWellFormed(r, j);
    assert StepAt(r, j);
    CheckHeld(r.states[j], r.maxSize, ctx, key, now, later);
    if key in HeldBy(r.states[j]) {
      var i := HeldStands(r, j, key);
      StandingIsHeld(r, i, j, key);
    }
    if i: nat :| StandsUntil(r, i, j, key) && !(now > UntilOf(r, i)) {
      StandingIsHeld(r, i, j, key);
    }
  }

  /** Between two "not duplicate" answers for one key the store forgot the first grant, at the latest as expired. */
  lemma ForgottenBetween(r: Record, i: nat, j: nat, key: Id) returns (m: nat)
    requires IsRun(r) && i < j && GrantedAt(r, i, key) && GrantedAt(r, j, key)
    ensures i < m <= j && LostAt(r, m, key, UntilOf(r, i))
  {
    if StandsUntil(r, i, j, key) {
      StandingIsHeld(r, i, j, key);
      HeldStep(r, j, key);
      m := j;
    } else {
      m :| i < m < j && ForgetsGrant(r, i, m);
    }
  }

  // ----- The same runs as runs of the test-and-set machine -----

  function EventsOf(list: S.Recency, maxSize: int, op: Operation): seq<Event> {
    match op
    case CheckOp(ctx, key, now, later) => Check(list, maxSize, ctx, key, now, later).2
    case DeleteOp(live, key) => if live then DeleteEvents(list, key) else []
    case CloseOp => CloseEvents(list)
  }

  /** The events of the first `n` operations. */
  function EventsBefore(r: Record, n: nat): seq<Event>
    requires n <= |r.ops| && |r.states| == |r.ops| + 1
  {
    if n == 0 then [] else EventsBefore(r, n - 1) + EventsOf(r.states[n - 1], r.maxSize, r.ops[n - 1])
  }

  /** The events so far lead to a sound cache. */
  ghost predicate Sound(history: seq<Event>, list: S.Recency, maxSize: int) {
    Follows(history, list) && S.WellFormed(list, maxSize)
  }

  lemma OperationFollows(
    history: seq<Event>, list: S.Recency, maxSize: int, op: Operation, history': seq<Event>, list': S.Recency)
    requires Sound(history, list, maxSize)
    requires history' == history + EventsOf(list, maxSize, op) && list' == Performed(list, maxSize, op).0
    ensures Sound(history', list', maxSize)
  {
    PerformedIsWellFormed(list, maxSize, op);
    assert history + [] == history;
    match op {
      case CheckOp(ctx, key, now, later) => CheckFollows(history, list, maxSize, ctx, key, now, later);
      case DeleteOp(_, key) => DeleteFollows(history, list, maxSize, key);
      case CloseOp => CloseFollows(history, list);
    }
  }

  /** Every run of calls one at a time follows the test-and-set machine. */
  lemma {:induction false} RunFollows(r: Record, n: nat)
    requires IsRun(r) && n <= |r.ops|
    ensures Sound(EventsBefore(r, n), r.states[n], r.maxSize)
  {
    if n > 0 {
      RunFollows(r, n - 1);
      OneMoreFollows(r, n, EventsBefore(r, n - 1));
    }
  }

  lemma OneMoreFollows(r: Record, n: nat, history: seq<Event>)
    requires IsRun(r) && 0 < n <= |r.ops|
    requires history == EventsBefore(r, n - 1) && Sound(history, r.states[n - 1], r.maxSize)
    ensures Sound(EventsBefore(r, n), r.states[n], r.maxSize)
  {
    assert StepAt(r, n - 1);
    OperationFollows(history, r.states[n - 1], r.maxSize, r.ops[n - 1], EventsBefore(r, n), r.states[n]);
  }

  // ----- The program -----

  method Perform(store: RedisIdempotencyStore, op: Operation) returns (answer: Option<bool>)
    requires store.cache.Valid()
    modifies store.cache.Repr
    ensures store.cache.Valid() && fresh(store.cache.Repr - old(store.cache.Repr))
    ensures (store.cache.contents, answer) == Performed(old(store.cache.contents), store.cache.maxSize, op)
  {
    answer := None;
    match op {
      case CheckOp(ctx, key, now, later) => answer := store.CheckAndSet(ctx, key, now, later);
      case DeleteOp(live, key) => var _ := store.Delete(live, key);
      case CloseOp => store.Close();
    }
  }

  lemma ExtendRun(r: Record, op: Operation, after: S.Recency, answer: Option<bool>)
    requires IsRun(r) && (after, answer) == Performed(r.states[|r.ops|], r.maxSize, op)
    ensures IsRun(r.(ops := r.ops + [op], states := r.states + [after], answers := r.answers + [answer]))
  {
    var t := r.(ops := r.ops + [op], states := r.states + [after], answers := r.answers + [answer]);
    forall m: nat | m < |t.ops| ensures StepAt(t, m) {
      assert m < |r.ops| ==> StepAt(r, m);
    }
  }

  /** The run that the operations determine. */
  ghost function RecordOf(maxSize: int, ops: seq<Operation>): (r: Record)
    ensures IsRun(r) && r.maxSize == maxSize && r.ops == ops
  {
    if ops == [] then Record(maxSize, [], [[]], [])
    else
      var (before, op) := (RecordOf(maxSize, ops[..|ops| - 1]), ops[|ops| - 1]);
      var (after, answer) := Performed(before.states[|before.ops|], maxSize, op);
      ExtendRun(before, op, after, answer);
      assert before.ops + [op] == ops;
      Record(maxSize, ops, before.states + [after], before.answers + [answer])
  }

  /** The answer of a check whose context is live is right: "duplicate" exactly while an unexpired grant stands. */
  ghost predicate RightAnswer(r: Record, j: nat)
    requires |r.answers| == |r.ops| && |r.states| == |r.ops| + 1
  {
    j < |r.ops| && r.ops[j].CheckOp? && r.ops[j].ctx.Live(0) ==>
      (r.answers[j] == Some(true) <==>
         exists i :: StandsUntil(r, i, j, r.ops[j].key) && !(r.ops[j].now > UntilOf(r, i)))
  }

  /** The program on a new cache: its answers are those of that run, and they are right in both directions. */
  method ServeAll(maxSize: int, ops: seq<Operation>) returns (answers: seq<Option<bool>>)
    ensures answers == RecordOf(maxSize, ops).answers
    ensures forall j: nat :: RightAnswer(RecordOf(maxSize, ops), j)
  {
    answers := AnswerAll(maxSize, ops);
    forall j: nat ensures RightAnswer(RecordOf(maxSize, ops), j) {
      var r := RecordOf(maxSize, ops);
      if j < |ops| && ops[j].CheckOp? && ops[j].ctx.Live(0) {
        DuplicateIffStanding(r, j);
      }
    }
  }

  method AnswerAll(maxSize: int, ops: seq<Operation>) returns (answers: seq<Option<bool>>)
    ensures answers == RecordOf(maxSize, ops).answers
  {
    var cache := new LRUCache(maxSize);
    var store := new RedisIdempotencyStore(cache);
    answers := [];
    for n := 0 to |ops|
      invariant cache.Valid() && fresh(cache.Repr) && cache.maxSize == maxSize && store.cache == cache
      invariant cache.contents == RecordOf(maxSize, ops[..n]).states[n]
      invariant answers == RecordOf(maxSize, ops[..n]).answers
    {
      var answer := Perform(store, ops[n]);
      RecordOfOneMore(maxSize, ops, n, cache.contents, answer);
      answers := answers + [answer];
    }
    assert ops[..|ops|] == ops;
  }

  lemma RecordOfOneMore(maxSize: int, ops: seq<Operation>, n: nat, after: S.Recency, answer: Option<bool>)
    requires n < |ops|
    requires (after, answer) == Performed(RecordOf(maxSize, ops[..n]).states[n], maxSize, ops[n])
    ensures RecordOf(maxSize, ops[..n + 1]).states[n + 1] == after
    ensures RecordOf(maxSize, ops[..n + 1]).answers == RecordOf(maxSize, ops[..n]).answers + [answer]
  {
    assert ops[..n + 1][..n] == ops[..n];
  }

  /** After a grant, the key is a duplicate for exactly 86400 s from the clock reading of its Set. */
  lemma GrantLastsADay(
    list: S.Recency, maxSize: int, ctx: Ctx, key: Id, now: Time, later: Time, next: Ctx, then_: Time, last: Time)
    requires S.WellFormed(list, maxSize) && Check(list, maxSize, ctx, key, now, later).1 == Some(false)
    requires next.Live(0)
    ensures var after := Check(list, maxSize, ctx, key, now, later).0;
      Check(after, maxSize, next, key, then_, last).1 == Some(true) <==> then_ <= later + 86_400_000_000_000
  {
    var after := Check(list, maxSize, ctx, key, now, later).0;
    CheckHeld(list, maxSize, ctx, key, now, later);
    CheckHeld(after, maxSize, next, key, then_, last);
  }
}
