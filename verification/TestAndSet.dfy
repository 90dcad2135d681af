/**
 * A lossy test-and-set: what both idempotency stores promise. A key is granted once, and
 * answered "duplicate" until it is lost. The two stores are proved to follow this machine.
 */
module TestAndSet {
  import opened Common

  datatype Why = Deleted | Expired(at: Time) | Evicted | Closed

  /** A grant is a "not duplicate" answer; `until` is when it may expire. */
  datatype Event = Grant(key: Id, until: Time) | Duplicate(key: Id) | Lose(key: Id, why: Why)

  /** The granted keys that have not been lost, with their expiry. */
  type Held = map<Id, Time>

  predicate Allowed(held: Held, e: Event) {
    match e
    case Grant(key, _) => key !in held
    case Duplicate(key) => key in held
    case Lose(key, why) => key in held && (why.Expired? ==> why.at > held[key])
  }

  function After(held: Held, e: Event): Held {
    match e
    case Grant(key, until) => held[key := until]
    case Duplicate(_) => held
    case Lose(key, _) => held - {key}
  }

  /** The machine after the events, if it allows them. */
  function Replay(events: seq<Event>): Option<Held> {
    if events == [] then Some(map[])
    else
      var held := Replay(events[..|events| - 1]);
      var e := events[|events| - 1];
      if held.Some? && Allowed(held.value, e) then Some(After(held.value, e)) else None
  }

  lemma ReplayOne(events: seq<Event>, e: Event)
    requires Replay(events).Some? && Allowed(Replay(events).value, e)
    ensures Replay(events + [e]) == Some(After(Replay(events).value, e))
  {
    assert (events + [e])[..|events|] == events;
  }

  lemma {:induction false} ReplayPrefix(events: seq<Event>, n: nat)
    requires Replay(events).Some? && n <= |events|
    ensures Replay(events[..n]).Some?
    ensures n < |events| ==> Allowed(Replay(events[..n]).value, events[n])
  {
    if n < |events| {
      var shorter := events[..|events| - 1];
      if n < |shorter| {
        ReplayPrefix(shorter, n);
        assert shorter[..n] == events[..n];
      }
    } else {
      assert events[..n] == events;
    }
  }

  predicate Grants(events: seq<Event>, i: int, key: Id) {
    0 <= i < |events| && events[i].Grant? && events[i].key == key
  }

  predicate Loses(events: seq<Event>, i: int, key: Id) {
    0 <= i < |events| && events[i].Lose? && events[i].key == key
  }

  /** Granted at `i` and not lost since. */
  ghost predicate Stands(events: seq<Event>, i: int, key: Id) {
    Grants(events, i, key) && forall m :: i < m ==> !Loses(events, m, key)
  }

  /** Granted at `i` and lost after it; if by expiry, then by that of this grant. */
  ghost predicate LostAfter(events: seq<Event>, i: int, key: Id) {
    && Grants(events, i, key)
    && exists m :: i < m && Loses(events, m, key) && (events[m].why.Expired? ==> events[m].why.at > events[i].until)
  }

  lemma {:induction false} GrantStandsOrIsLost(events: seq<Event>, i: nat, key: Id)
    requires Replay(events).Some? && Grants(events, i, key)
    ensures || (Stands(events, i, key) && key in Replay(events).value && Replay(events).value[key] == events[i].until)
            || LostAfter(events, i, key)
  {
    var shorter := events[..|events| - 1];
    if i < |shorter| {
      GrantStandsOrIsLost(shorter, i, key);
      if LostAfter(shorter, i, key) {
        var m :| i < m && Loses(shorter, m, key) && (shorter[m].why.Expired? ==> shorter[m].why.at > shorter[i].until);
        assert Loses(events, m, key);
      } else if Loses(events, |shorter|, key) {
        assert LostAfter(events, i, key);
      } else {
        forall m | i < m ensures !Loses(events, m, key) {
          assert !Loses(shorter, m, key);
        }
      }
    }
  }

  lemma {:induction false} HeldWasGranted(events: seq<Event>, key: Id)
    requires Replay(events).Some? && key in Replay(events).value
    ensures exists i :: Stands(events, i, key)
  {
    var shorter := events[..|events| - 1];
    var e := events[|shorter|];
    if e.Grant? && e.key == key {
      assert Stands(events, |shorter|, key);
    } else {
      HeldWasGranted(shorter, key);
      var i :| Stands(shorter, i, key);
      forall m | i < m ensures !Loses(events, m, key) {
        assert !Loses(shorter, m, key);
      }
      assert Stands(events, i, key);
    }
  }

  /** A check of `key` at this point is a duplicate exactly when a grant of it has not been lost since. */
  lemma DuplicateExactlyWhen(events: seq<Event>, key: Id, until: Time)
    requires Replay(events).Some?
    ensures Allowed(Replay(events).value, Duplicate(key)) <==> exists i :: Stands(events, i, key)
    ensures Allowed(Replay(events).value, Grant(key, until)) <==> !exists i :: Stands(events, i, key)
  {
    if key in Replay(events).value {
      HeldWasGranted(events, key);
    }
    if i :| Stands(events, i, key) {
      GrantStandsOrIsLost(events, i, key);
    }
  }

  /**
   * Between two grants of a key there is a deletion, an eviction, a closing, or an expiry
   * of the earlier grant.
   */
  lemma LossBetweenGrants(events: seq<Event>, i: nat, j: nat, key: Id)
    requires Replay(events).Some?
    requires i < j && Grants(events, i, key) && Grants(events, j, key)
    ensures LostAfter(events[..j], i, key)
  {
    ReplayPrefix(events, j);
    GrantStandsOrIsLost(events[..j], i, key);
  }

  /** So a second grant that no expiry can explain comes after a deletion, an eviction or a closing. */
  lemma WithinItsTime(events: seq<Event>, i: nat, j: nat, key: Id, now: Time)
    requires Replay(events).Some?
    requires i < j && Grants(events, i, key) && Grants(events, j, key)
    requires forall m :: Loses(events[..j], m, key) && events[m].why.Expired? ==> events[m].why.at <= now
    requires now <= events[i].until
    ensures exists m :: i < m < j && Loses(events, m, key) && !events[m].why.Expired?
  {
    LossBetweenGrants(events, i, j, key);
    var m :| i < m && Loses(events[..j], m, key)
      && (events[..j][m].why.Expired? ==> events[..j][m].why.at > events[..j][i].until);
    assert Loses(events, m, key);
  }

  function Count(events: seq<Event>, key: Id, grants: bool): nat {
    if events == [] then 0
    else
      var n := |events| - 1;
      Count(events[..n], key, grants) +
      if (if grants then Grants(events, n, key) else Loses(events, n, key)) then 1 else 0
  }

  /** Every grant is matched by a loss, but for the one that still stands. */
  lemma {:induction false} GrantsMatchLosses(events: seq<Event>, key: Id)
    requires Replay(events).Some?
    ensures Count(events, key, true) ==
      Count(events, key, false) + if key in Replay(events).value then 1 else 0
  {
    if events != [] {
      GrantsMatchLosses(events[..|events| - 1], key);
    }
  }
}
