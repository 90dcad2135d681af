/**
 * The in-memory idempotency store. Each method body is what runs under the store's mutex, so
 * any interleaving of calls and of the cleanup loop is a sequence of these methods.
 */
module IdempotencyStore {
  import opened Common
  import opened TestAndSet

  class Store {
    var data: map<Id, Time>
    const ttl: Time
    const maxKeys: int
    /** The events of the test-and-set machine so far. */
    ghost var history: seq<Event>

    ghost predicate Valid()
      reads this
    {
      && Replay(history) == Some(data)
      && (maxKeys > 0 ==> |data| <= maxKeys)
    }

    constructor (ttl: Time, maxKeys: int)
      ensures Valid() && this.ttl == ttl && this.maxKeys == maxKeys && data == map[] && history == []
    {
      data, history := map[], [];
      this.ttl, this.maxKeys := ttl, maxKeys;
    }

    /** `live` is what the context says on entry, before the mutex is taken. */
    method CheckAndSet(live: bool, key: Id, now: Time) returns (duplicate: Option<bool>)
      requires Valid()
      modifies this
      ensures Valid() && duplicate.Some? == live
      ensures duplicate == None ==> data == old(data) && history == old(history)
      ensures live ==> duplicate.value == (key in old(data))
      ensures duplicate == Some(true) ==> data == old(data) && history == old(history) + [Duplicate(key)]
      ensures duplicate == Some(false) && !(maxKeys > 0 && |old(data)| >= maxKeys) ==>
        data == old(data)[key := now + ttl] && history == old(history) + [Grant(key, now + ttl)]
      ensures duplicate == Some(false) && maxKeys > 0 && |old(data)| >= maxKeys ==> exists victim ::
        && victim in old(data) && data == (old(data) - {victim})[key := now + ttl]
        && history == old(history) + [Lose(victim, Evicted)] + [Grant(key, now + ttl)]
    {
      if !live {
        return None;
      }
      if key in data {
        ReplayOne(history, Duplicate(key));
        history := history + [Duplicate(key)];
        return Some(true);
      }
      if maxKeys > 0 && |data| >= maxKeys {
        Evict();
      }
      ReplayOne(history, Grant(key, now + ttl));
      history := history + [Grant(key, now + ttl)];
      KeysWith(data, key, now + ttl);
      data := data[key := now + ttl];
      return Some(false);
    }

    /** Go ranges over the map in an arbitrary order, and the first key found goes. */
    method Evict()
      requires Valid() && |data| > 0
      modifies this
      ensures Valid() && |data| == |old(data)| - 1
      ensures exists victim :: (victim in old(data) && data == old(data) - {victim} &&
                                history == old(history) + [Lose(victim, Evicted)])
    {
      assert data.Keys != {};
      var victim :| victim in data;
      Drop(victim, Evicted);
    }

    /** delete(s.data, key) for a key that is there. */
    method Drop(key: Id, ghost why: Why)
      requires Valid() && key in data && (why.Expired? ==> why.at > data[key])
      modifies this
      ensures Valid() && data == old(data) - {key} && |data| == |old(data)| - 1
      ensures history == old(history) + [Lose(key, why)]
    {
      ReplayOne(history, Lose(key, why));
      history := history + [Lose(key, why)];
      KeysWithout(data, key);
      data := data - {key};
    }

    /** Delete does not look at its context. */
    method Delete(key: Id)
      requires Valid()
      modifies this
      ensures Valid() && data == old(data) - {key}
      ensures history == old(history) + if key in old(data) then [Lose(key, Deleted)] else []
    {
      if key in data {
        Drop(key, Deleted);
      } else {
        assert data - {key} == data;
      }
    }

    /** One round of the cleanup loop. */
    method Cleanup(now: Time)
      requires Valid()
      modifies this
      ensures Valid()
      ensures data == map k | k in old(data) && !(now > old(data)[k]) :: old(data)[k]
      ensures |history| >= |old(history)| && history[..|old(history)|] == old(history)
      ensures forall i :: |old(history)| <= i < |history| ==> history[i].Lose? && history[i].why == Expired(now)
    {
      var todo := data.Keys;
      while todo != {}
        invariant Valid() && todo <= data.Keys
        invariant data.Keys <= old(data).Keys && forall k :: k in data ==> data[k] == old(data)[k]
        invariant forall k :: k in old(data) && k !in todo ==> (k in data <==> !(now > old(data)[k]))
        invariant |history| >= |old(history)| && history[..|old(history)|] == old(history)
        invariant forall i :: |old(history)| <= i < |history| ==> history[i].Lose? && history[i].why == Expired(now)
        decreases todo
      {
        var k :| k in todo;
        todo := todo - {k};
        if now > data[k] {
          Drop(k, Expired(now));
        }
      }
    }
  }

  lemma KeysWithout(m: map<Id, Time>, k: Id)
    requires k in m
    ensures |m - {k}| == |m| - 1
  {
    assert (m - {k}).Keys == m.Keys - {k};
  }

  lemma KeysWith(m: map<Id, Time>, k: Id, t: Time)
    requires k !in m
    ensures |m[k := t]| == |m| + 1
  {
    assert m[k := t].Keys == m.Keys + {k};
  }

  // ----- Whole runs -----

  /** A locked operation: a check whose context was live or not, a deletion, or a round of the cleanup. */
  datatype Operation = Check(live: bool, key: Id, now: Time) | Remove(key: Id) | Sweep(now: Time)

  /** Any interleaving of operations on a new store: its contents before each and after the last, and the answers. */
  datatype Record = Record(
    ttl: Time, maxKeys: int, ops: seq<Operation>, states: seq<map<Id, Time>>, answers: seq<Option<bool>>)

  predicate Full(maxKeys: int, data: map<Id, Time>) {
    maxKeys > 0 && |data| >= maxKeys
  }

  /** What an operation may do to the contents, and what it answers; any key may be the one evicted. */
  ghost predicate Performs(
    ttl: Time, maxKeys: int, op: Operation, before: map<Id, Time>, after: map<Id, Time>, answer: Option<bool>)
  {
    match op
    case Check(live, key, now) =>
      if !live then answer == None && after == before
      else if key in before then answer == Some(true) && after == before
      else
        && answer == Some(false)
        && if Full(maxKeys, before) then
             exists victim :: victim in before && after == (before - {victim})[key := now + ttl]
           else after == before[key := now + ttl]
    case Remove(key) => answer == None && after == before - {key}
    case Sweep(now) => answer == None && after == map k | k in before && !(now > before[k]) :: before[k]
  }

  ghost predicate IsRun(r: Record) {
    && |r.states| == |r.ops| + 1 && |r.answers| == |r.ops| && r.states[0] == map[]
    && forall i :: 0 <= i < |r.ops| ==>
         Performs(r.ttl, r.maxKeys, r.ops[i], r.states[i], r.states[i + 1], r.answers[i])
  }

  /** Check `i` answered "not duplicate" for the key. */
  predicate GrantedAt(r: Record, i: nat, key: Id)
    requires |r.answers| == |r.ops|
  {
    i < |r.ops| && r.ops[i].Check? && r.ops[i].key == key && r.answers[i] == Some(false)
  }

  /**
   * Operation `m` makes the store forget a key that may expire at `until`: it deletes the key, sweeps after
   * that time, or is a check of another key that finds the store full and drops this one.
   */
  predicate LostAt(r: Record, m: nat, key: Id, until: Time)
    requires |r.states| == |r.ops| + 1
  {
    && m < |r.ops|
    && match r.ops[m]
       case Remove(k) => k == key
       case Sweep(now) => now > until
       case Check(live, k, _) =>
         && live && k != key && k !in r.states[m] && Full(r.maxKeys, r.states[m])
         && key in r.states[m] && key !in r.states[m + 1]
  }

  /** The same for the grant of check `i`, whose expiry is known. */
  predicate ForgetsGrant(r: Record, i: nat, m: nat)
    requires |r.states| == |r.ops| + 1 && i < |r.ops| && r.ops[i].Check?
  {
    LostAt(r, m, r.ops[i].key, r.ops[i].now + r.ttl)
  }

  /** The key was granted by check `i`, and no operation between `i` and `j` makes the store forget it. */
  ghost predicate StandsUntil(r: Record, i: nat, j: nat, key: Id)
    requires |r.states| == |r.ops| + 1 && |r.answers| == |r.ops|
  {
    i < j && GrantedAt(r, i, key) && forall m: nat :: i < m < j ==> !ForgetsGrant(r, i, m)
  }

  /** One operation: a held key stays, with its expiry, unless the operation makes the store forget it. */
  lemma HeldStep(r: Record, j: nat, key: Id)
    requires IsRun(r) && j < |r.ops| && key in r.states[j]
    ensures LostAt(r, j, key, r.states[j][key]) <==> key !in r.states[j + 1]
    ensures key in r.states[j + 1] ==> r.states[j + 1][key] == r.states[j][key]
  {
    assert Performs(r.ttl, r.maxKeys, r.ops[j], r.states[j], r.states[j + 1], r.answers[j]);
  }

  /** One operation: a key comes in only by a check that grants it. */
  lemma GrantStep(r: Record, j: nat, key: Id)
    requires IsRun(r) && j < |r.ops|
    ensures key !in r.states[j] && key in r.states[j + 1] ==> GrantedAt(r, j, key)
    ensures GrantedAt(r, j, key) ==>
      key !in r.states[j] && key in r.states[j + 1] && r.states[j + 1][key] == r.ops[j].now + r.ttl
  {
    assert Performs(r.ttl, r.maxKeys, r.ops[j], r.states[j], r.states[j + 1], r.answers[j]);
  }

  lemma {:induction false} StandingIsHeld(r: Record, i: nat, j: nat, key: Id)
    requires IsRun(r) && j <= |r.ops| && StandsUntil(r, i, j, key)
    ensures key in r.states[j] && r.states[j][key] == r.ops[i].now + r.ttl
  {
    if j == i + 1 {
      GrantStep(r, i, key);
    } else {
      StandingIsHeld(r, i, j - 1, key);
      HeldStep(r, j - 1, key);
      assert !ForgetsGrant(r, i, j - 1);
    }
  }

  lemma {:induction false} HeldStands(r: Record, j: nat, key: Id) returns (i: nat)
    requires IsRun(r) && j <= |r.ops| && key in r.states[j]
    ensures StandsUntil(r, i, j, key)
  {
    if key in r.states[j - 1] {
      i := HeldStands(r, j - 1, key);
      StandingIsHeld(r, i, j - 1, key);
      HeldStep(r, j - 1, key);
    } else {
      GrantStep(r, j - 1, key);
      i := j - 1;
    }
  }

  /**
   * Over any interleaving, a check whose context is live answers "duplicate" if and only if an earlier check
   * was granted the key and no operation since has deleted it, swept it after its time, or evicted it.
   */
  lemma DuplicateIffStanding(r: Record, j: nat)
    requires IsRun(r) && j < |r.ops| && r.ops[j].Check? && r.ops[j].live
    ensures r.answers[j].Some?
    ensures r.answers[j] == Some(true) <==> exists i :: StandsUntil(r, i, j, r.ops[j].key)
  {
    var key := r.ops[j].key;
    assert Performs(r.ttl, r.maxKeys, r.ops[j], r.states[j], r.states[j + 1], r.answers[j]);
    if key in r.states[j] {
      var i := HeldStands(r, j, key);
    }
    if i: nat :| StandsUntil(r, i, j, key) {
      StandingIsHeld(r, i, j, key);
    }
  }

  /** Between two "not duplicate" answers for one key, an operation made the store forget the first. */
  lemma ForgottenBetween(r: Record, i: nat, j: nat, key: Id) returns (m: nat)
    requires IsRun(r) && i < j && GrantedAt(r, i, key) && GrantedAt(r, j, key)
    ensures i < m < j && LostAt(r, m, key, r.ops[i].now + r.ttl)
  {
    GrantStep(r, j, key);
    if StandsUntil(r, i, j, key) {
      StandingIsHeld(r, i, j, key);
      assert false;
    }
    m :| i < m < j && ForgetsGrant(r, i, m);
  }

  method Perform(store: Store, op: Operation) returns (answer: Option<bool>)
    requires store.Valid()
    modifies store
    ensures store.Valid()
    ensures Performs(store.ttl, store.maxKeys, op, old(store.data), store.data, answer)
  {
    answer := None;
    match op {
      case Check(live, key, now) =>
        answer := store.CheckAndSet(live, key, now);
      case Remove(key) =>
        store.Delete(key);
      case Sweep(now) =>
        store.Cleanup(now);
    }
  }

  /**
   * Any interleaving of operations on a new store. The contents are those of the store after each operation,
   * the answers are right in both directions, and the store keeps within its maximum.
   */
  method Interleave(ttl: Time, maxKeys: int, ops: seq<Operation>)
    returns (states: seq<map<Id, Time>>, answers: seq<Option<bool>>)
    ensures IsRun(Record(ttl, maxKeys, ops, states, answers))
    ensures var r := Record(ttl, maxKeys, ops, states, answers);
      forall j :: 0 <= j < |ops| && ops[j].Check? && ops[j].live ==>
        answers[j].Some? && (answers[j].value <==> exists i :: StandsUntil(r, i, j, ops[j].key))
    ensures maxKeys > 0 ==> forall n :: 0 <= n <= |ops| ==> |states[n]| <= maxKeys
  {
    var store := new Store(ttl, maxKeys);
    states, answers := [store.data], [];
    for n := 0 to |ops|
      invariant fresh(store) && store.Valid() && store.ttl == ttl && store.maxKeys == maxKeys
      invariant |states| == n + 1 && states[n] == store.data
      invariant IsRun(Record(ttl, maxKeys, ops[..n], states, answers))
      invariant maxKeys > 0 ==> forall k :: 0 <= k <= n ==> |states[k]| <= maxKeys
    {
      var answer := Perform(store, ops[n]);
      ExtendRun(Record(ttl, maxKeys, ops[..n], states, answers), ops[n], store.data, answer);
      assert ops[..n] + [ops[n]] == ops[..n + 1];
      states, answers := states + [store.data], answers + [answer];
    }
    assert ops[..|ops|] == ops;
    var r := Record(ttl, maxKeys, ops, states, answers);
    forall j | 0 <= j < |ops| && ops[j].Check? && ops[j].live
      ensures answers[j].Some? && (answers[j].value <==> exists i :: StandsUntil(r, i, j, ops[j].key))
    {
      DuplicateIffStanding(r, j);
    }
  }

  lemma ExtendRun(r: Record, op: Operation, after: map<Id, Time>, answer: Option<bool>)
    requires IsRun(r) && Performs(r.ttl, r.maxKeys, op, r.states[|r.ops|], after, answer)
    ensures IsRun(r.(ops := r.ops + [op], states := r.states + [after], answers := r.answers + [answer]))
  {
    var t := r.(ops := r.ops + [op], states := r.states + [after], answers := r.answers + [answer]);
    forall i | 0 <= i < |t.ops|
      ensures Performs(t.ttl, t.maxKeys, t.ops[i], t.states[i], t.states[i + 1], t.answers[i])
    {
      if i < |r.ops| {
        assert Performs(r.ttl, r.maxKeys, r.ops[i], r.states[i], r.states[i + 1], r.answers[i]);
      }
    }
  }
}
