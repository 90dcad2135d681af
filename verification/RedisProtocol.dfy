/**
 * The cache-backed idempotency store under concurrency: any number of checks, each a Get and later a Set,
 * with deletions in between. It keeps its promise exactly as long as no Set finds its key there and unexpired.
 */
module RedisProtocol {
  import opened Common
  import opened TestAndSet
  import opened RedisIdempotency
  import S = LruSpec

  /** A check before its Get, before its Set, or answered; an error is no answer. */
  datatype Pc = AtGet(key: Id) | AtSet(key: Id) | Answered(key: Id, duplicate: Option<bool>)

  datatype State = State(maxSize: int, cache: S.Recency, calls: map<nat, Pc>)

  datatype Action =
    | Begin(c: nat, key: Id)
    | DoGet(c: nat, live: bool, now: Time)
    | DoSet(c: nat, live: bool, now: Time)
    | DoDelete(live: bool, key: Id)
    | DoClose

  function Start(maxSize: int): State {
    State(maxSize, [], map[])
  }

  predicate Gets(s: State, a: Action) {
    a.DoGet? && a.c in s.calls && s.calls[a.c].AtGet?
  }

  predicate Sets(s: State, a: Action) {
    a.DoSet? && a.c in s.calls && s.calls[a.c].AtSet?
  }

  /** One step; an action that does not apply leaves the state alone. */
  function Step(s: State, a: Action): State {
    match a
    case Begin(c, key) => if c in s.calls then s else s.(calls := s.calls[c := AtGet(key)])
    case DoGet(c, live, now) =>
      if !Gets(s, a) then s
      else
        var key := s.calls[c].key;
        if !live then s.(calls := s.calls[c := Answered(key, None)])
        else
          var (list, found) := S.Get(s.cache, key, now);
          s.(cache := list, calls := s.calls[c := if found.Some? then Answered(key, Some(true)) else AtSet(key)])
    case DoSet(c, live, now) =>
      if !Sets(s, a) then s
      else
        var key := s.calls[c].key;
        if !live then s.(calls := s.calls[c := Answered(key, None)])
        else
          s.(cache := S.Set(s.cache, s.maxSize, key, ONE, S.ExpiresAt(TTL_SECONDS, now)),
             calls := s.calls[c := Answered(key, Some(false))])
    case DoDelete(live, key) => if live then s.(cache := S.Delete(s.cache, key)) else s
    case DoClose => s.(cache := [])
  }

  /** What the step is to the test-and-set machine; an expired entry that a Set overwrites is lost by expiry. */
  function Events(s: State, a: Action): seq<Event> {
    match a
    case Begin(_, _) => []
    case DoGet(c, live, now) => if Gets(s, a) && live then GetEvents(s.cache, s.calls[c].key, now) else []
    case DoSet(c, live, now) =>
      if !Sets(s, a) || !live then []
      else
        var (key, until) := (s.calls[c].key, S.ExpiresAt(TTL_SECONDS, now));
        if !S.Has(s.cache, key) then SetEvents(s.cache, s.maxSize, key, now)
        else if Clashes(s, a) then [Grant(key, until)]
        else [Lose(key, Expired(now))] + [Grant(key, until)]
    case DoDelete(live, key) => if live then DeleteEvents(s.cache, key) else []
    case DoClose => CloseEvents(s.cache)
  }

  /** The step is a Set that takes effect and finds its key there, and not expired. */
  predicate Clashes(s: State, a: Action) {
    && Sets(s, a) && a.live
    && var i := S.Find(s.cache, s.calls[a.c].key);
       i < |s.cache| && !(a.now > s.cache[i].expiresAt)
  }

  function Run(maxSize: int, trace: seq<Action>): State {
    if trace == [] then Start(maxSize) else Step(Run(maxSize, trace[..|trace| - 1]), trace[|trace| - 1])
  }

  function History(maxSize: int, trace: seq<Action>): seq<Event> {
    if trace == [] then []
    else
      var before := trace[..|trace| - 1];
      History(maxSize, before) + Events(Run(maxSize, before), trace[|trace| - 1])
  }

  ghost predicate SoundAt(history: seq<Event>, s: State) {
    Sound(history, s.cache, s.maxSize)
  }

  lemma StepFollows(history: seq<Event>, s: State, a: Action, s': State, history': seq<Event>)
    requires SoundAt(history, s) && s' == Step(s, a) && history' == history + Events(s, a)
    ensures if Clashes(s, a) then Replay(history').None? else SoundAt(history', s')
  {
    assert history + [] == history;
    match a {
      case Begin(_, _) =>
      case DoGet(c, live, now) =>
        if Gets(s, a) {
          GetFollows(history, s.cache, s.maxSize, s.calls[c].key, now);
          GetHeld(s.cache, s.maxSize, s.calls[c].key, now);
        }
      case DoSet(c, live, now) =>
        if Clashes(s, a) {
          GrantRefused(history, s.cache, s.calls[c].key, S.ExpiresAt(TTL_SECONDS, now));
        } else if Sets(s, a) && live {
          if S.Has(s.cache, s.calls[c].key) {
            OverwriteFollows(history, s.cache, s.maxSize, s.calls[c].key, now);
          } else {
            SetFollows(history, s.cache, s.maxSize, s.calls[c].key, now);
          }
          S.OperationsKeepWellFormed(s.cache, s.maxSize, s.calls[c].key, ONE, S.ExpiresAt(TTL_SECONDS, now), 0);
        }
      case DoDelete(_, key) =>
        DeleteFollows(history, s.cache, s.maxSize, key);
        DeleteHeld(s.cache, s.maxSize, key);
      case DoClose => CloseFollows(history, s.cache);
    }
  }

  /** The Set of a key that is there replaces its expiry and nothing else. */
  lemma OverwriteHeld(list: S.Recency, maxSize: int, key: Id, until: Time)
    requires S.WellFormed(list, maxSize) && S.Has(list, key)
    ensures HeldBy(S.Set(list, maxSize, key, ONE, until)) == (HeldBy(list) - {key})[key := until]
  {
    var i := S.Find(list, key);
    HeldByCut(list, i);
    HeldByFront(RemoveAt(list, i), S.Entry(key, ONE, until));
  }

  lemma OverwriteFollows(history: seq<Event>, list: S.Recency, maxSize: int, key: Id, now: Time)
    requires Follows(history, list) && S.WellFormed(list, maxSize) && S.Has(list, key)
    requires now > list[S.Find(list, key)].expiresAt
    ensures var until := S.ExpiresAt(TTL_SECONDS, now);
      Follows(history + ([Lose(key, Expired(now))] + [Grant(key, until)]), S.Set(list, maxSize, key, ONE, until))
  {
    var (lost, until) := (Lose(key, Expired(now)), S.ExpiresAt(TTL_SECONDS, now));
    HeldByAt(list, S.Find(list, key));
    OverwriteHeld(list, maxSize, key, until);
    ReplayOne(history, lost);
    ReplayOne(history + [lost], Grant(key, until));
    assert history + ([lost] + [Grant(key, until)]) == history + [lost] + [Grant(key, until)];
  }

  lemma GrantRefused(history: seq<Event>, list: S.Recency, key: Id, until: Time)
    requires Follows(history, list) && S.Has(list, key)
    ensures Replay(history + [Grant(key, until)]).None?
  {
    HeldByFind(list, key);
    assert (history + [Grant(key, until)])[..|history|] == history;
  }

  /** No Set of the trace that takes effect finds its key there and not expired. */
  predicate NoClash(maxSize: int, trace: seq<Action>) {
    trace == [] ||
    (NoClash(maxSize, trace[..|trace| - 1]) && !Clashes(Run(maxSize, trace[..|trace| - 1]), trace[|trace| - 1]))
  }

  lemma RefusedForEver(first: seq<Event>, more: seq<Event>)
    requires Replay(first).None?
    ensures Replay(first + more).None?
  {
    assert (first + more)[..|first|] == first;
    if Replay(first + more).Some? {
      ReplayPrefix(first + more, |first|);
    }
  }

  lemma {:induction false} RunFollowsUnlessClash(maxSize: int, trace: seq<Action>)
    ensures if NoClash(maxSize, trace) then SoundAt(History(maxSize, trace), Run(maxSize, trace))
            else Replay(History(maxSize, trace)).None?
  {
    if trace != [] {
      var (before, a) := (trace[..|trace| - 1], trace[|trace| - 1]);
      RunFollowsUnlessClash(maxSize, before);
      if NoClash(maxSize, before) {
        StepFollows(History(maxSize, before), Run(maxSize, before), a, Run(maxSize, trace), History(maxSize, trace));
      } else {
        RefusedForEver(History(maxSize, before), Events(Run(maxSize, before), a));
      }
    }
  }

  /** An interleaved run is one of the test-and-set machine if and only if no Set finds its key there and unexpired. */
  lemma FollowsExactlyWhen(maxSize: int, trace: seq<Action>)
    ensures Replay(History(maxSize, trace)).Some? <==> NoClash(maxSize, trace)
  {
    RunFollowsUnlessClash(maxSize, trace);
  }

  // ----- The same in terms of the answers -----

  /** The step answers a check of the key "not duplicate". */
  predicate Granted(s: State, a: Action, key: Id) {
    && a.DoSet? && a.c in s.calls && s.calls[a.c] == AtSet(key)
    && a.c in Step(s, a).calls && Step(s, a).calls[a.c] == Answered(key, Some(false))
  }

  /**
   * The step makes the store forget a key that expires at `until`: it closes the cache, deletes the key, looks for
   * it or sets it after that time, or sets another, absent key when the cache is full and this key last in it.
   */
  predicate Forgets(s: State, a: Action, key: Id, until: Time) {
    match a
    case Begin(_, _) => false
    case DoGet(c, live, now) => Gets(s, a) && live && s.calls[c].key == key && now > until
    case DoSet(c, live, now) =>
      && Sets(s, a) && live
      && (if s.calls[c].key == key then now > until
          else !S.Has(s.cache, s.calls[c].key) && Evicts(s.cache, s.maxSize, key))
    case DoDelete(live, k) => live && k == key
    case DoClose => true
  }

  /** One step: a held key stays, with its expiry, unless it is forgotten or set again. */
  lemma HeldStep(s: State, a: Action, key: Id)
    requires S.WellFormed(s.cache, s.maxSize) && key in HeldBy(s.cache)
    ensures var (held, held') := (HeldBy(s.cache), HeldBy(Step(s, a).cache));
      && (Forgets(s, a, key, held[key]) <==> key !in held' || (Granted(s, a, key) && a.now > held[key]))
      && (!Forgets(s, a, key, held[key]) && !Granted(s, a, key) ==> held'[key] == held[key])
  {
    match a {
      case Begin(_, _) =>
      case DoGet(c, live, now) => if Gets(s, a) { GetHeld(s.cache, s.maxSize, s.calls[c].key, now); }
      case DoSet(c, live, now) => if Sets(s, a) { SetHeldAnyhow(s, c, now); }
      case DoDelete(_, k) => DeleteHeld(s.cache, s.maxSize, k);
      case DoClose =>
    }
  }

  lemma SetHeldAnyhow(s: State, c: nat, now: Time)
    requires S.WellFormed(s.cache, s.maxSize) && c in s.calls && s.calls[c].AtSet?
    ensures var (key, list, until) := (s.calls[c].key, s.cache, now + TTL_SECONDS * SECOND);
      HeldBy(Step(s, DoSet(c, true, now)).cache) ==
        (if S.Has(list, key) then HeldBy(list) - {key}
         else if |list| >= s.maxSize && list != [] then HeldBy(list) - {list[|list| - 1].key}
         else HeldBy(list))[key := until]
    ensures S.Has(s.cache, s.calls[c].key) <==> s.calls[c].key in HeldBy(s.cache)
  {
    var (key, until) := (s.calls[c].key, now + TTL_SECONDS * SECOND);
    HeldByFind(s.cache, key);
    assert S.ExpiresAt(TTL_SECONDS, now) == until;
    if S.Has(s.cache, key) {
      OverwriteHeld(s.cache, s.maxSize, key, until);
    } else {
      SetHeld(s.cache, s.maxSize, key, until);
    }
  }

  /** One step: a key comes in only with a grant. */
  lemma GrantStep(s: State, a: Action, key: Id)
    requires S.WellFormed(s.cache, s.maxSize)
    ensures var (held, held') := (HeldBy(s.cache), HeldBy(Step(s, a).cache));
      && (Granted(s, a, key) ==> key in held' && held'[key] == a.now + TTL_SECONDS * SECOND)
      && (key !in held && key in held' ==> Granted(s, a, key))
  {
    match a {
      case Begin(_, _) =>
      case DoGet(c, live, now) => if Gets(s, a) { GetHeld(s.cache, s.maxSize, s.calls[c].key, now); }
      case DoSet(c, live, now) => if Sets(s, a) { SetHeldAnyhow(s, c, now); }
      case DoDelete(_, k) => DeleteHeld(s.cache, s.maxSize, k);
      case DoClose =>
    }
  }

  lemma ClashMeans(s: State, a: Action)
    requires S.WellFormed(s.cache, s.maxSize)
    ensures Clashes(s, a) <==>
      && Sets(s, a) && Granted(s, a, s.calls[a.c].key) && s.calls[a.c].key in HeldBy(s.cache)
      && !(a.now > HeldBy(s.cache)[s.calls[a.c].key])
  {
    if Sets(s, a) {
      HeldByFind(s.cache, s.calls[a.c].key);
      if S.Has(s.cache, s.calls[a.c].key) {
        HeldByAt(s.cache, S.Find(s.cache, s.calls[a.c].key));
      }
    }
  }

  /** A run with the state before each step and after the last. */
  datatype Path = Path(maxSize: int, trace: seq<Action>, states: seq<State>)

  predicate StepAt(p: Path, m: nat)
    requires m < |p.trace| && |p.states| == |p.trace| + 1
  {
    p.states[m + 1] == Step(p.states[m], p.trace[m]) && S.WellFormed(p.states[m].cache, p.states[m].maxSize)
  }

  ghost predicate IsPath(p: Path) {
    && |p.states| == |p.trace| + 1 && p.states[0] == Start(p.maxSize)
    && forall m: nat :: m < |p.trace| ==> StepAt(p, m)
  }

  ghost function PathOf(maxSize: int, trace: seq<Action>): Path {
    Path(maxSize, trace, seq(|trace| + 1, m requires 0 <= m <= |trace| => Run(maxSize, trace[..m])))
  }

  lemma PathOfIsPath(maxSize: int, trace: seq<Action>)
    ensures IsPath(PathOf(maxSize, trace))
  {
    var p := PathOf(maxSize, trace);
    forall m: nat | m < |trace| ensures StepAt(p, m) {
      assert trace[..m + 1][..m] == trace[..m];
      CacheIsWellFormed(maxSize, trace[..m]);
    }
  }

  predicate GrantedAt(p: Path, i: nat, key: Id)
    requires |p.states| == |p.trace| + 1
  {
    i < |p.trace| && Granted(p.states[i], p.trace[i], key)
  }

  predicate ForgetsAt(p: Path, m: nat, key: Id, until: Time)
    requires |p.states| == |p.trace| + 1
  {
    m < |p.trace| && Forgets(p.states[m], p.trace[m], key, until)
  }

  predicate ClashAt(p: Path, m: nat)
    requires |p.states| == |p.trace| + 1
  {
    m < |p.trace| && Clashes(p.states[m], p.trace[m])
  }

  function UntilOf(p: Path, i: nat): Time
    requires i < |p.trace| && p.trace[i].DoSet?
  {
    p.trace[i].now + TTL_SECONDS * SECOND
  }

  /** The key was granted at step `i`, and no step after it and before `j` makes the store forget it. */
  ghost predicate StandsUntil(p: Path, i: nat, j: nat, key: Id)
    requires |p.states| == |p.trace| + 1
  {
    && i < j <= |p.trace| && GrantedAt(p, i, key)
    && forall m: nat :: i < m < j ==> !ForgetsAt(p, m, key, UntilOf(p, i))
  }

  /** The key was granted at steps `i` and `j`, and nothing made the store forget the first grant, not even step `j`. */
  ghost predicate GrantedTwice(p: Path, i: nat, j: nat, key: Id)
    requires |p.states| == |p.trace| + 1
  {
    StandsUntil(p, i, j, key) && GrantedAt(p, j, key) && !ForgetsAt(p, j, key, UntilOf(p, i))
  }

  lemma StaysOrClashes(s: State, a: Action, key: Id)
    requires S.WellFormed(s.cache, s.maxSize) && key in HeldBy(s.cache) && !Forgets(s, a, key, HeldBy(s.cache)[key])
    ensures var held' := HeldBy(Step(s, a).cache);
      (key in held' && held'[key] == HeldBy(s.cache)[key]) || Clashes(s, a)
  {
    HeldStep(s, a, key);
    ClashMeans(s, a);
  }

  lemma {:induction false} StandingIsHeldOrClashes(p: Path, i: nat, j: nat, key: Id)
    requires IsPath(p) && StandsUntil(p, i, j, key)
    ensures (key in HeldBy(p.states[j].cache) && HeldBy(p.states[j].cache)[key] == UntilOf(p, i))
            || exists m :: ClashAt(p, m)
  {
    var (s, a) := (p.states[j - 1], p.trace[j - 1]);
    assert StepAt(p, j - 1);
    if j == i + 1 {
      GrantStep(s, a, key);
    } else {
      StandingIsHeldOrClashes(p, i, j - 1, key);
      assert !ForgetsAt(p, j - 1, key, UntilOf(p, i));
      if key in HeldBy(s.cache) && HeldBy(s.cache)[key] == UntilOf(p, i) {
        StaysOrClashes(s, a, key);
        assert Clashes(s, a) ==> ClashAt(p, j - 1);
      }
    }
  }

  lemma {:induction false} HeldStands(p: Path, j: nat, key: Id) returns (i: nat)
    requires IsPath(p) && j <= |p.trace| && key in HeldBy(p.states[j].cache)
    ensures StandsUntil(p, i, j, key) && HeldBy(p.states[j].cache)[key] == UntilOf(p, i)
  {
    var (s, a) := (p.states[j - 1], p.trace[j - 1]);
    assert StepAt(p, j - 1);
    GrantStep(s, a, key);
    if GrantedAt(p, j - 1, key) {
      i := j - 1;
    } else {
      i := HeldStands(p, j - 1, key);
      HeldStep(s, a, key);
    }
  }

  lemma TwiceMeansClash(p: Path, i: nat, j: nat, key: Id)
    requires IsPath(p) && GrantedTwice(p, i, j, key)
    ensures exists m :: ClashAt(p, m)
  {
    StandingIsHeldOrClashes(p, i, j, key);
    assert StepAt(p, j);
    ClashMeans(p.states[j], p.trace[j]);
    assert ClashAt(p, j) <==> Clashes(p.states[j], p.trace[j]);
  }

  lemma ClashMeansTwice(p: Path, j: nat) returns (i: nat, key: Id)
    requires IsPath(p) && ClashAt(p, j)
    ensures GrantedTwice(p, i, j, key)
  {
    key := p.states[j].calls[p.trace[j].c].key;
    assert StepAt(p, j);
    ClashMeans(p.states[j], p.trace[j]);
    i := HeldStands(p, j, key);
  }

  lemma {:induction false} NoClashMeans(maxSize: int, trace: seq<Action>)
    ensures NoClash(maxSize, trace) <==> forall m: nat :: !ClashAt(PathOf(maxSize, trace), m)
  {
    if trace != [] {
      var n := |trace| - 1;
      var (p, shorter) := (PathOf(maxSize, trace), PathOf(maxSize, trace[..n]));
      NoClashMeans(maxSize, trace[..n]);
      ClashesOfPrefix(maxSize, trace);
      if NoClash(maxSize, trace) {
        forall m: nat ensures !ClashAt(p, m) {
          assert m < n ==> !ClashAt(shorter, m);
        }
      } else if Clashes(Run(maxSize, trace[..n]), trace[n]) {
        assert ClashAt(p, n);
      } else {
        var m: nat :| ClashAt(shorter, m);
        assert ClashAt(p, m);
      }
    }
  }

  lemma ClashesOfPrefix(maxSize: int, trace: seq<Action>)
    requires trace != []
    ensures var n := |trace| - 1;
      var (p, shorter) := (PathOf(maxSize, trace), PathOf(maxSize, trace[..n]));
      && (forall m: nat :: m < n ==> (ClashAt(p, m) <==> ClashAt(shorter, m)))
      && (ClashAt(p, n) <==> Clashes(Run(maxSize, trace[..n]), trace[n]))
  {
    var n := |trace| - 1;
    forall m: nat | m < n ensures ClashAt(PathOf(maxSize, trace), m) <==> ClashAt(PathOf(maxSize, trace[..n]), m) {
      assert trace[..n][..m] == trace[..m];
    }
  }

  /**
   * Over any interleaving: two checks of a key are both answered "not duplicate" with no deletion, closing, eviction
   * or expiry of the first grant up to the second, if and only if some Set finds its key there and unexpired.
   */
  lemma GrantedTwiceExactlyWhen(maxSize: int, trace: seq<Action>)
    ensures (exists i, j, key :: GrantedTwice(PathOf(maxSize, trace), i, j, key)) <==> !NoClash(maxSize, trace)
  {
    var p := PathOf(maxSize, trace);
    PathOfIsPath(maxSize, trace);
    NoClashMeans(maxSize, trace);
    if i: nat, j: nat, key :| GrantedTwice(p, i, j, key) {
      TwiceMeansClash(p, i, j, key);
    }
    if j: nat :| ClashAt(p, j) {
      var i, key := ClashMeansTwice(p, j);
    }
  }

  // ----- A condition on the calls alone -----

  /** Since call `c` ran its Get, another call's Set of the same key has taken effect. */
  predicate SetSinceGet(maxSize: int, trace: seq<Action>, c: nat) {
    && trace != []
    && var s := Run(maxSize, trace[..|trace| - 1]);
       var a := trace[|trace| - 1];
       && !(Gets(s, a) && a.c == c)
       && (SetSinceGet(maxSize, trace[..|trace| - 1], c) || SetsKeyOf(s, a, c))
  }

  predicate SetsKeyOf(s: State, a: Action, c: nat) {
    Sets(s, a) && a.live && a.c != c && c in s.calls && s.calls[a.c].key == s.calls[c].key
  }

  /** No Set of a key falls between another call's Get and Set of that key. */
  predicate NoSetBetween(maxSize: int, trace: seq<Action>) {
    trace == [] ||
    (NoSetBetween(maxSize, trace[..|trace| - 1]) &&
     var (s, a) := (Run(maxSize, trace[..|trace| - 1]), trace[|trace| - 1]);
     Sets(s, a) && a.live ==> !SetSinceGet(maxSize, trace[..|trace| - 1], a.c))
  }

  /** A call waits to set a key that is there. */
  predicate Doomed(s: State, c: nat) {
    c in s.calls && s.calls[c].AtSet? && S.Has(s.cache, s.calls[c].key)
  }

  /** A call becomes doomed only by another call's Set of its key. */
  lemma DoomStep(s: State, a: Action, c: nat)
    requires S.WellFormed(s.cache, s.maxSize) && Doomed(Step(s, a), c)
    ensures !(Gets(s, a) && a.c == c) && (Doomed(s, c) || SetsKeyOf(s, a, c))
  {
    var key := Step(s, a).calls[c].key;
    HeldByFind(Step(s, a).cache, key);
    HeldByFind(s.cache, key);
    match a {
      case Begin(_, _) =>
      case DoGet(d, live, now) => if Gets(s, a) { GetHeld(s.cache, s.maxSize, s.calls[d].key, now); }
      case DoSet(d, live, now) =>
        if Sets(s, a) && live && s.calls[d].key != key {
          SetAddsOnlyItsKey(s.cache, s.maxSize, s.calls[d].key, S.ExpiresAt(TTL_SECONDS, now), key);
        }
      case DoDelete(_, k) => DeleteHeld(s.cache, s.maxSize, k);
      case DoClose =>
    }
  }

  lemma SetAddsOnlyItsKey(list: S.Recency, maxSize: int, key: Id, until: Time, other: Id)
    requires S.WellFormed(list, maxSize) && key != other
    ensures S.Has(S.Set(list, maxSize, key, ONE, until), other) ==> S.Has(list, other)
  {
    S.OperationsAddNothingElse(list, maxSize, key, ONE, until, 0);
    S.HasMeans(S.Set(list, maxSize, key, ONE, until), other);
    S.HasMeans(list, other);
  }

  lemma {:induction false} CacheIsWellFormed(maxSize: int, trace: seq<Action>)
    ensures Run(maxSize, trace).maxSize == maxSize && S.WellFormed(Run(maxSize, trace).cache, maxSize)
  {
    if trace != [] {
      CacheIsWellFormed(maxSize, trace[..|trace| - 1]);
      StepIsWellFormed(Run(maxSize, trace[..|trace| - 1]), trace[|trace| - 1]);
    }
  }

  lemma StepIsWellFormed(s: State, a: Action)
    requires S.WellFormed(s.cache, s.maxSize)
    ensures Step(s, a).maxSize == s.maxSize && S.WellFormed(Step(s, a).cache, s.maxSize)
  {
    match a {
      case Begin(_, _) =>
      case DoGet(c, _, now) =>
        if Gets(s, a) { S.OperationsKeepWellFormed(s.cache, s.maxSize, s.calls[c].key, ONE, 0, now); }
      case DoSet(c, _, now) =>
        if Sets(s, a) {
          S.OperationsKeepWellFormed(s.cache, s.maxSize, s.calls[c].key, ONE, S.ExpiresAt(TTL_SECONDS, now), 0);
        }
      case DoDelete(_, key) => S.OperationsKeepWellFormed(s.cache, s.maxSize, key, ONE, 0, 0);
      case DoClose =>
    }
  }

  lemma {:induction false} DoomedMeansSet(maxSize: int, trace: seq<Action>, c: nat)
    requires Doomed(Run(maxSize, trace), c)
    ensures SetSinceGet(maxSize, trace, c)
  {
    if trace != [] {
      var before := trace[..|trace| - 1];
      CacheIsWellFormed(maxSize, before);
      DoomStep(Run(maxSize, before), trace[|trace| - 1], c);
      if Doomed(Run(maxSize, before), c) {
        DoomedMeansSet(maxSize, before, c);
      }
    }
  }

  /**
   * When no Set of a key falls between another call's Get and Set of that key, however the calls overlap
   * otherwise, the run is one of the test-and-set machine: between two grants of a key it is lost.
   */
  lemma {:induction false} NoSetBetweenSuffices(maxSize: int, trace: seq<Action>)
    requires NoSetBetween(maxSize, trace)
    ensures NoClash(maxSize, trace) && Replay(History(maxSize, trace)).Some?
  {
    if trace != [] {
      var (before, a) := (trace[..|trace| - 1], trace[|trace| - 1]);
      NoSetBetweenSuffices(maxSize, before);
      if Clashes(Run(maxSize, before), a) {
        DoomedMeansSet(maxSize, before, a.c);
        assert false;
      }
    }
    FollowsExactlyWhen(maxSize, trace);
  }

  // ----- One call, and two -----

  /** A check with nothing in between is Check. */
  lemma CheckIsLoneRun(s: State, c: nat, ctx: Ctx, key: Id, now: Time, later: Time)
    requires c !in s.calls
    ensures var (list, answer, _) := Check(s.cache, s.maxSize, ctx, key, now, later);
      Step(Step(Step(s, Begin(c, key)), DoGet(c, ctx.Live(0), now)), DoSet(c, ctx.Live(1), later))
        == State(s.maxSize, list, s.calls[c := Answered(key, answer)])
  {
    var s1 := Step(s, Begin(c, key));
    var s2 := Step(s1, DoGet(c, ctx.Live(0), now));
    assert Gets(s1, DoGet(c, ctx.Live(0), now));
    assert s2.calls == s.calls[c := s2.calls[c]];
  }

  function BothGet(key: Id, t: Time): seq<Action> {
    [Begin(0, key), Begin(1, key), DoGet(0, true, t), DoGet(1, true, t)]
  }

  function Overlapping(key: Id, t: Time): seq<Action> {
    BothGet(key, t) + [DoSet(0, true, t)] + [DoSet(1, true, t)]
  }

  /** On a new store, two overlapping checks of one key are both told "not duplicate", and nothing is lost. */
  lemma OverlappingChecksBothGranted(maxSize: int, key: Id, t: Time)
    ensures var s := Run(maxSize, Overlapping(key, t));
      s.calls == map[0 := Answered(key, Some(false)), 1 := Answered(key, Some(false))]
    ensures var until := S.ExpiresAt(TTL_SECONDS, t);
      History(maxSize, Overlapping(key, t)) == [Grant(key, until)] + [Grant(key, until)]
    ensures !NoClash(maxSize, Overlapping(key, t))
  {
    BothGetFindNothing(maxSize, key, t);
    OverlappingSets(maxSize, BothGet(key, t), key, t);
  }

  lemma RunOne(maxSize: int, trace: seq<Action>, a: Action)
    ensures Run(maxSize, trace + [a]) == Step(Run(maxSize, trace), a)
    ensures History(maxSize, trace + [a]) == History(maxSize, trace) + Events(Run(maxSize, trace), a)
    ensures NoClash(maxSize, trace + [a]) ==> !Clashes(Run(maxSize, trace), a)
  {
    assert (trace + [a])[..|trace|] == trace;
  }

  lemma RunTwo(maxSize: int, trace: seq<Action>, a: Action, b: Action)
    ensures var (s, all) := (Run(maxSize, trace), trace + [a] + [b]);
      && Run(maxSize, all) == Step(Step(s, a), b)
      && History(maxSize, all) == History(maxSize, trace) + Events(s, a) + Events(Step(s, a), b)
      && (Clashes(Step(s, a), b) ==> !NoClash(maxSize, all))
  {
    RunOne(maxSize, trace, a);
    RunOne(maxSize, trace + [a], b);
  }

  lemma OverlappingSets(maxSize: int, trace: seq<Action>, key: Id, t: Time)
    requires Run(maxSize, trace) == State(maxSize, [], map[0 := AtSet(key), 1 := AtSet(key)])
    requires History(maxSize, trace) == []
    ensures var (all, until) := (trace + [DoSet(0, true, t)] + [DoSet(1, true, t)], S.ExpiresAt(TTL_SECONDS, t));
      && Run(maxSize, all).calls == map[0 := Answered(key, Some(false)), 1 := Answered(key, Some(false))]
      && History(maxSize, all) == [Grant(key, until)] + [Grant(key, until)]
      && !NoClash(maxSize, all)
  {
    RunTwo(maxSize, trace, DoSet(0, true, t), DoSet(1, true, t));
    SetSteps(Run(maxSize, trace), key, t);
  }

  lemma SetSteps(s: State, key: Id, t: Time)
    requires s.cache == [] && s.calls == map[0 := AtSet(key), 1 := AtSet(key)]
    ensures var (a, b, until) := (DoSet(0, true, t), DoSet(1, true, t), S.ExpiresAt(TTL_SECONDS, t));
      && Events(s, a) == Events(Step(s, a), b) == [Grant(key, until)] && Clashes(Step(s, a), b)
      && Step(Step(s, a), b).calls == map[0 := Answered(key, Some(false)), 1 := Answered(key, Some(false))]
  {
    var s1 := Step(s, DoSet(0, true, t));
    assert s1.cache == [S.Entry(key, ONE, S.ExpiresAt(TTL_SECONDS, t))];
    assert s1.calls == map[0 := Answered(key, Some(false)), 1 := AtSet(key)];
  }

  lemma BothGetFindNothing(maxSize: int, key: Id, t: Time)
    ensures var first := BothGet(key, t);
      && Run(maxSize, first) == State(maxSize, [], map[0 := AtSet(key), 1 := AtSet(key)])
      && History(maxSize, first) == []
  {
    var trace := BothGet(key, t);
    assert trace[..4] == trace;
    assert forall i :: 0 < i <= 4 ==> trace[..i][..i - 1] == trace[..i - 1];
    assert Run(maxSize, trace[..0]) == Start(maxSize) && History(maxSize, trace[..0]) == [];
    assert Run(maxSize, trace[..1]) == State(maxSize, [], map[0 := AtGet(key)]);
    assert Run(maxSize, trace[..2]) == State(maxSize, [], map[0 := AtGet(key), 1 := AtGet(key)]);
    assert Run(maxSize, trace[..3]) == State(maxSize, [], map[0 := AtSet(key), 1 := AtGet(key)]);
    assert History(maxSize, trace[..1]) == History(maxSize, trace[..2]) == History(maxSize, trace[..3]) == [];
  }
}
