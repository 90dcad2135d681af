/**
 * How old a market served by GetMarketByID can be when any number of calls run at once
 * and the repository behind the port changes between their steps. Each cache or
 * repository call is one step of the machine; time passes in between.
 */
module Staleness {
  import opened Common
  import opened S = LruSpec
  import opened SpotService

  /** A repository content and the instant from which it held. */
  datatype Version = Version(since: Time, markets: map<Id, Market>)

  /** A repository read by call `loader`, and the instant at which its result was ready. */
  datatype Load = Load(loader: nat, market: Market, readAt: Time, readyAt: Time)

  /** Where one call to GetMarketByID is. `began` is when it was called. */
  datatype Call =
    | AtGet(id: Id, began: Time)
    | AtDelete(id: Id, began: Time)
    | AtRead(id: Id, began: Time)
    | AtSet(id: Id, began: Time, market: Market, readAt: Time)
    | Failed(id: Id, began: Time)
    | Served(id: Id, began: Time, ended: Time, market: Market, load: Option<Load>)

  /**
   * `log` and `origin` are bookkeeping: every repository content so far, and for every key
   * the load whose result was last put in the cache. No step looks at them to decide.
   */
  datatype State = State(
    maxSize: int, now: Time, cache: Recency, calls: map<nat, Call>,
    log: seq<Version>, origin: map<Id, Load>)

  datatype Action =
    | Begin(c: nat, id: Id)
    | CacheGet(c: nat, live: bool)
    | CacheDelete(c: nat, live: bool)
    | RepoRead(c: nat, live: bool)
    | CacheSet(c: nat, live: bool)
    | Write(markets: map<Id, Market>)
    | Tick(elapsed: nat)

  function Start(maxSize: int, now: Time, markets: map<Id, Market>): State {
    State(maxSize, now, [], map[], [Version(now, markets)], map[])
  }

  /** One step; an action that does not apply leaves the state alone. */
  function Step(s: State, a: Action): State
    requires s.log != []
  {
    match a
    case Begin(c, id) =>
      if c in s.calls then s else s.(calls := s.calls[c := AtGet(id, s.now)])
    case CacheGet(c, live) =>
      if c in s.calls && s.calls[c].AtGet? then DoGet(s, c, live) else s
    case CacheDelete(c, live) =>
      if c in s.calls && s.calls[c].AtDelete? then
        s.(cache := if live then S.Delete(s.cache, s.calls[c].id) else s.cache,
           calls := s.calls[c := AtRead(s.calls[c].id, s.calls[c].began)])
      else s
    case RepoRead(c, live) =>
      if c in s.calls && s.calls[c].AtRead? then DoRead(s, c, live) else s
    case CacheSet(c, live) =>
      if c in s.calls && s.calls[c].AtSet? then DoSet(s, c, live) else s
    case Write(markets) => s.(log := s.log + [Version(s.now, markets)])
    case Tick(elapsed) => s.(now := s.now + elapsed)
  }

  function DoGet(s: State, c: nat, live: bool): State
    requires c in s.calls && s.calls[c].AtGet?
  {
    var AtGet(id, began) := s.calls[c];
    if !live then s.(calls := s.calls[c := AtRead(id, began)])
    else
      var (list, found) := S.Get(s.cache, id, s.now);
      var next :=
        if found.None? then AtRead(id, began)
        else if Decode(found.value).None? then AtDelete(id, began)
        else
          Served(id, began, s.now, Decode(found.value).value, if id in s.origin then Some(s.origin[id]) else None);
      s.(cache := list, calls := s.calls[c := next])
  }

  function DoRead(s: State, c: nat, live: bool): State
    requires s.log != [] && c in s.calls && s.calls[c].AtRead?
  {
    var AtRead(id, began) := s.calls[c];
    var markets := s.log[|s.log| - 1].markets;
    if live && id in markets then s.(calls := s.calls[c := AtSet(id, began, markets[id], s.now)])
    else s.(calls := s.calls[c := Failed(id, began)])
  }

  function DoSet(s: State, c: nat, live: bool): State
    requires c in s.calls && s.calls[c].AtSet?
  {
    var AtSet(id, began, market, readAt) := s.calls[c];
    var load := Load(c, market, readAt, s.now);
    var done := s.(calls := s.calls[c := Served(id, began, s.now, market, Some(load))]);
    if live && Encode(market).Some? then
      done.(cache := S.Set(s.cache, s.maxSize, id, Encode(market).value, ExpiresAt(TTL_SECONDS, s.now)),
            origin := s.origin[id := load])
    else done
  }

  function Run(s: State, trace: seq<Action>): (r: State)
    requires s.log != []
    ensures r.log != []
  {
    if trace == [] then s else Step(Run(s, trace[..|trace| - 1]), trace[|trace| - 1])
  }

  /** The repository had market `m` under `id` at instant `t`: in the version that held then. */
  ghost predicate HadAt(s: State, id: Id, m: Market, t: Time) {
    exists i :: HeldAt(s, i, t) && id in s.log[i].markets && s.log[i].markets[id] == m
  }

  /** Version `i` was the content of the repository at instant `t`. */
  ghost predicate HeldAt(s: State, i: int, t: Time) {
    0 <= i < |s.log| && s.log[i].since <= t <= (if i == |s.log| - 1 then s.now else s.log[i + 1].since)
  }

  /** The load is real: its market was the repository's when it was read, by a call that was in progress then. */
  ghost predicate Genuine(s: State, id: Id, load: Load) {
    && HadAt(s, id, load.market, load.readAt)
    && load.loader in s.calls && s.calls[load.loader].Served?
    && s.calls[load.loader].began <= load.readAt <= load.readyAt == s.calls[load.loader].ended
  }

  ghost predicate EntryOk(s: State, e: Entry) {
    && e.key in s.origin && Genuine(s, e.key, s.origin[e.key])
    && Encode(s.origin[e.key].market) == Some(e.value)
    && e.expiresAt == s.origin[e.key].readyAt + TTL_SECONDS * SECOND
  }

  ghost predicate CallOk(s: State, c: nat)
    requires c in s.calls
  {
    var call := s.calls[c];
    && call.began <= s.now
    && (call.AtSet? ==> HadAt(s, call.id, call.market, call.readAt) && call.began <= call.readAt <= s.now)
    && (call.Served? ==>
          && call.load.Some? && call.load.value.market == call.market && Genuine(s, call.id, call.load.value)
          && call.ended - call.load.value.readyAt <= TTL_SECONDS * SECOND)
  }

  ghost predicate Inv(s: State) {
    && s.log != [] && s.log[|s.log| - 1].since <= s.now
    && WellFormed(s.cache, s.maxSize)
    && (forall e :: e in s.cache ==> EntryOk(s, e))
    && (forall c :: c in s.calls ==> CallOk(s, c))
  }

  /** Later states remember what was, as long as served calls stay as they are. */
  ghost predicate Later(s: State, t: State) {
    && s.log != [] && t.log != [] && s.log[|s.log| - 1].since <= s.now <= t.now
    && s.log <= t.log && (|s.log| < |t.log| ==> t.log[|s.log|].since == s.now)
    && forall c :: c in s.calls && s.calls[c].Served? ==> c in t.calls && t.calls[c] == s.calls[c]
  }

  lemma GenuineStays(s: State, t: State, id: Id, load: Load)
    requires Later(s, t) && Genuine(s, id, load)
    ensures Genuine(t, id, load)
  {
    HadAtStays(s, t, id, load.market, load.readAt);
  }

  lemma HadAtStays(s: State, t: State, id: Id, m: Market, at: Time)
    requires Later(s, t) && HadAt(s, id, m, at)
    ensures HadAt(t, id, m, at)
  {
    var i :| HeldAt(s, i, at) && id in s.log[i].markets && s.log[i].markets[id] == m;
    assert s.log[i] == t.log[i];
    assert HeldAt(t, i, at);
  }

  lemma CallsStay(s: State, t: State, c: nat)
    requires Inv(s) && Later(s, t) && c in s.calls && c in t.calls && t.calls[c] == s.calls[c]
    ensures CallOk(t, c)
  {
    assert CallOk(s, c);
    var call := s.calls[c];
    if call.AtSet? {
      HadAtStays(s, t, call.id, call.market, call.readAt);
    } else if call.Served? {
      GenuineStays(s, t, call.id, call.load.value);
    }
  }

  lemma EntriesStay(s: State, t: State, e: Entry)
    requires Later(s, t) && EntryOk(s, e) && e.key in t.origin && t.origin[e.key] == s.origin[e.key]
    ensures EntryOk(t, e)
  {
    GenuineStays(s, t, e.key, s.origin[e.key]);
  }

  /** Every step keeps the invariant. */
  lemma StepKeepsInv(s: State, a: Action)
    requires Inv(s)
    ensures Inv(Step(s, a))
  {
    StepIsLater(s, a);
    forall c | c in Step(s, a).calls ensures CallOk(Step(s, a), c) {
      StepKeepsCall(s, a, c);
    }
    CacheChange(s, a);
    forall e | e in Step(s, a).cache ensures EntryOk(Step(s, a), e) {
      StepKeepsEntry(s, a, e);
    }
  }

  lemma StepIsLater(s: State, a: Action)
    requires s.log != [] && s.log[|s.log| - 1].since <= s.now
    ensures Later(s, Step(s, a))
    ensures var t := Step(s, a); t.log[|t.log| - 1].since <= t.now && t.maxSize == s.maxSize
  {
  }

  lemma StepKeepsCall(s: State, a: Action, c: nat)
    requires Inv(s) && Later(s, Step(s, a)) && c in Step(s, a).calls
    ensures CallOk(Step(s, a), c)
  {
    var t := Step(s, a);
    if c in s.calls && t.calls[c] == s.calls[c] {
      CallsStay(s, t, c);
    } else if a.CacheGet? {
      GetKeepsCall(s, a.c, a.live);
    } else if a.RepoRead? {
      assert CallOk(s, c);
      assert HeldAt(t, |t.log| - 1, t.now);
    } else if a.CacheSet? {
      assert CallOk(s, c);
      HadAtStays(s, t, s.calls[c].id, s.calls[c].market, s.calls[c].readAt);
    } else if a.CacheDelete? {
      assert CallOk(s, c);
    }
  }

  lemma GetKeepsCall(s: State, c: nat, live: bool)
    requires Inv(s) && c in s.calls && s.calls[c].AtGet? && Later(s, DoGet(s, c, live))
    ensures CallOk(DoGet(s, c, live), c)
  {
    assert CallOk(s, c);
    if DoGet(s, c, live).calls[c].Served? {
      HitIsGenuine(s, c);
      GenuineStays(s, DoGet(s, c, live), s.calls[c].id, DoGet(s, c, live).calls[c].load.value);
    }
  }

  /** A hit is served from the load on record, within its time to live. */
  lemma HitIsGenuine(s: State, c: nat)
    requires Inv(s) && c in s.calls && s.calls[c].AtGet? && DoGet(s, c, true).calls[c].Served?
    ensures var served := DoGet(s, c, true).calls[c];
      && served.load.Some? && served.load.value.market == served.market
      && Genuine(s, s.calls[c].id, served.load.value)
      && served.ended == s.now && s.now - served.load.value.readyAt <= TTL_SECONDS * SECOND
  {
    var e := s.cache[Find(s.cache, s.calls[c].id)];
    assert e in s.cache;
    HitIsEntry(s, c, e);
  }

  lemma HitIsEntry(s: State, c: nat, e: Entry)
    requires c in s.calls && s.calls[c].AtGet? && DoGet(s, c, true).calls[c].Served?
    requires Find(s.cache, s.calls[c].id) < |s.cache| && e == s.cache[Find(s.cache, s.calls[c].id)] && EntryOk(s, e)
    ensures var served := DoGet(s, c, true).calls[c];
      && served.load.Some? && served.load.value.market == served.market
      && Genuine(s, s.calls[c].id, served.load.value)
      && served.ended == s.now && s.now - served.load.value.readyAt <= TTL_SECONDS * SECOND
  {
  }

  /** A call at its Set, about to put its market in the cache. */
  predicate Puts(s: State, a: Action) {
    a.CacheSet? && a.live && a.c in s.calls && s.calls[a.c].AtSet? && Encode(s.calls[a.c].market).Some?
  }

  /** Only such a call brings in an entry, together with its load. */
  lemma CacheChange(s: State, a: Action)
    requires s.log != [] && WellFormed(s.cache, s.maxSize)
    ensures WellFormed(Step(s, a).cache, s.maxSize)
    ensures !Puts(s, a) ==> Step(s, a).origin == s.origin && forall e :: e in Step(s, a).cache ==> e in s.cache
    ensures Puts(s, a) ==>
      var AtSet(id, began, market, readAt) := s.calls[a.c];
      var load := Load(a.c, market, readAt, s.now);
      && Step(s, a).origin == s.origin[id := load]
      && Step(s, a).calls[a.c] == Served(id, began, s.now, market, Some(load))
      && forall e :: e in Step(s, a).cache ==>
           e == Entry(id, Encode(market).value, s.now + TTL_SECONDS * SECOND) || (e in s.cache && e.key != id)
  {
    if Puts(s, a) {
      var AtSet(id, _, market, _) := s.calls[a.c];
      OperationsKeepWellFormed(s.cache, s.maxSize, id, Encode(market).value, ExpiresAt(TTL_SECONDS, s.now), 0);
      OperationsAddNothingElse(s.cache, s.maxSize, id, Encode(market).value, ExpiresAt(TTL_SECONDS, s.now), 0);
    } else if (a.CacheGet? || a.CacheDelete?) && a.c in s.calls {
      OperationsKeepWellFormed(s.cache, s.maxSize, s.calls[a.c].id, Opaque(""), 0, s.now);
      OperationsAddNothingElse(s.cache, s.maxSize, s.calls[a.c].id, Opaque(""), 0, s.now);
    }
  }

  lemma StepKeepsEntry(s: State, a: Action, e: Entry)
    requires Inv(s) && Later(s, Step(s, a)) && e in Step(s, a).cache
    requires Puts(s, a) ==> a.c in Step(s, a).calls && CallOk(Step(s, a), a.c)
    ensures EntryOk(Step(s, a), e)
  {
    CacheChange(s, a);
    if e in s.cache && !(Puts(s, a) && e.key == s.calls[a.c].id) {
      assert EntryOk(s, e);
      EntriesStay(s, Step(s, a), e);
    } else {
      NewEntryIsOk(s, a, e);
    }
  }

  lemma NewEntryIsOk(s: State, a: Action, e: Entry)
    requires s.log != [] && Puts(s, a) && a.c in Step(s, a).calls && CallOk(Step(s, a), a.c)
    requires var AtSet(id, began, market, readAt) := s.calls[a.c];
      var load := Load(a.c, market, readAt, s.now);
      && Step(s, a).origin == s.origin[id := load]
      && Step(s, a).calls[a.c] == Served(id, began, s.now, market, Some(load))
      && e == Entry(id, Encode(market).value, s.now + TTL_SECONDS * SECOND)
    ensures EntryOk(Step(s, a), e)
  {
  }

  lemma {:induction false} Reachable(maxSize: int, now: Time, markets: map<Id, Market>, trace: seq<Action>)
    ensures Inv(Run(Start(maxSize, now, markets), trace))
  {
    if trace != [] {
      Reachable(maxSize, now, markets, trace[..|trace| - 1]);
      StepKeepsInv(Run(Start(maxSize, now, markets), trace[..|trace| - 1]), trace[|trace| - 1]);
    }
  }

  /**
   * Bounded staleness, over every interleaving: what a call serves was the repository's
   * market at an instant at most 300 s, plus the latency of the call that loaded it,
   * before the call ended.
   */
  lemma BoundedStaleness(maxSize: int, now: Time, markets: map<Id, Market>, trace: seq<Action>, c: nat)
    ensures var s := Run(Start(maxSize, now, markets), trace);
      c in s.calls && s.calls[c].Served? ==>
        var Served(id, _, ended, market, load) := s.calls[c];
        && load.Some? && load.value.loader in s.calls && s.calls[load.value.loader].Served?
        && var loading := s.calls[load.value.loader];
        && HadAt(s, id, market, load.value.readAt)
        && ended - load.value.readAt <= 300 * SECOND + (loading.ended - loading.began)
  {
    Reachable(maxSize, now, markets, trace);
    var s := Run(Start(maxSize, now, markets), trace);
    if c in s.calls && s.calls[c].Served? {
      assert CallOk(s, c);
    }
  }

  // ----- The bound is reached -----

  lemma Extend(start: State, trace: seq<Action>, s: State, a: Action) returns (longer: seq<Action>)
    requires start.log != [] && Run(start, trace) == s
    ensures Run(start, longer) == Step(s, a)
  {
    longer := trace + [a];
    assert longer[..|trace|] == trace;
  }

  /** A call reads the repository, which then changes. */
  function Loaded(maxSize: int, now: Time, markets: map<Id, Market>, changed: map<Id, Market>, id: Id): State
    requires id in markets
  {
    State(maxSize, now, [], map[0 := AtSet(id, now, markets[id], now)],
          [Version(now, markets)] + [Version(now, changed)], map[])
  }

  lemma Loads(maxSize: int, now: Time, markets: map<Id, Market>, changed: map<Id, Market>, id: Id)
    returns (trace: seq<Action>)
    requires id in markets
    ensures Run(Start(maxSize, now, markets), trace) == Loaded(maxSize, now, markets, changed, id)
  {
    var s0 := Start(maxSize, now, markets);
    var s1 := s0.(calls := map[0 := AtGet(id, now)]);
    var s2 := s0.(calls := map[0 := AtRead(id, now)]);
    var s3 := s0.(calls := map[0 := AtSet(id, now, markets[id], now)]);
    trace := Extend(s0, [], s0, Begin(0, id));
    assert Step(s0, Begin(0, id)) == s1;
    trace := Extend(s0, trace, s1, CacheGet(0, true));
    assert Step(s1, CacheGet(0, true)) == s2;
    trace := Extend(s0, trace, s2, RepoRead(0, true));
    assert Step(s2, RepoRead(0, true)) == s3;
    trace := Extend(s0, trace, s3, Write(changed));
  }

  /** The call puts what it read in the cache `latency` after it began, and another call begins. */
  function Cached(s: State, id: Id, market: Market, latency: nat): State {
    var (t, load) := (s.now + latency, Load(0, market, s.now, s.now + latency));
    State(s.maxSize, t, if market.marshals then [Entry(id, Encode(market).value, t + 300 * SECOND)] else [],
          map[0 := Served(id, s.now, t, market, Some(load)), 1 := AtGet(id, t)], s.log, map[id := load])
  }

  lemma Caches(start: State, s: State, before: seq<Action>, id: Id, market: Market, latency: nat)
    returns (trace: seq<Action>)
    requires start.log != [] && Run(start, before) == s && s.cache == [] && s.origin == map[] && market.marshals
    requires s.calls == map[0 := AtSet(id, s.now, market, s.now)]
    ensures Run(start, trace) == Cached(s, id, market, latency)
  {
    var s1 := s.(now := s.now + latency);
    var s2 := Cached(s, id, market, latency);
    trace := Extend(start, before, s, Tick(latency));
    trace := Extend(start, trace, s1, CacheSet(0, true));
    SetStep(s, id, market, latency);
    trace := Extend(start, trace, Step(s1, CacheSet(0, true)), Begin(1, id));
  }

  lemma SetStep(s: State, id: Id, market: Market, latency: nat)
    requires s.log != [] && s.cache == [] && s.origin == map[] && market.marshals
    requires s.calls == map[0 := AtSet(id, s.now, market, s.now)]
    ensures Step(Step(s.(now := s.now + latency), CacheSet(0, true)), Begin(1, id)) == Cached(s, id, market, latency)
  {
    var s1 := s.(now := s.now + latency);
    assert ExpiresAt(TTL_SECONDS, s1.now) == s1.now + 300 * SECOND;
    var c := Cached(s, id, market, latency);
    assert Step(s1, CacheSet(0, true)) == c.(calls := map[0 := c.calls[0]]);
  }

  lemma Hits(start: State, s: State, before: seq<Action>, id: Id) returns (trace: seq<Action>)
    requires start.log != [] && Run(start, before) == s && 1 in s.calls && s.calls[1] == AtGet(id, s.now)
    requires |s.cache| == 1 && s.cache[0].key == id && Decode(s.cache[0].value).Some? && id in s.origin
    requires s.cache[0].expiresAt == s.now + 300 * SECOND
    ensures var t := Run(start, trace);
      && t.calls == s.calls[1 :=
           Served(id, s.now, s.now + 300 * SECOND, Decode(s.cache[0].value).value, Some(s.origin[id]))]
      && t.log == s.log
  {
    trace := Extend(start, before, s, Tick(300 * SECOND));
    trace := Extend(start, trace, s.(now := s.now + 300 * SECOND), CacheGet(1, true));
    assert Find(s.cache, id) == 0;
  }

  /**
   * For every latency there is a run in which a call is served a market that the repository stopped having 300 s plus
   * the loading call's latency before: the bound is exact.
   */
  lemma BoundIsReached(
    maxSize: int, now: Time, markets: map<Id, Market>, changed: map<Id, Market>, id: Id, latency: nat)
    returns (trace: seq<Action>)
    requires id in markets && markets[id].marshals
    ensures var s := Run(Start(maxSize, now, markets), trace);
      && 0 in s.calls && s.calls[0].Served? && s.calls[0].ended - s.calls[0].began == latency
      && 1 in s.calls && s.calls[1].Served? && s.calls[1].market == markets[id]
      && s.calls[1].load == Some(Load(0, markets[id], now, now + latency))
      && s.calls[1].ended - now == 300 * SECOND + latency
      && s.log == [Version(now, markets)] + [Version(now, changed)]
  {
    var start := Start(maxSize, now, markets);
    var s := Loaded(maxSize, now, markets, changed, id);
    trace := Loads(maxSize, now, markets, changed, id);
    trace := Caches(start, s, trace, id, markets[id], latency);
    trace := Hits(start, Cached(s, id, markets[id], latency), trace, id);
  }

  // ----- A call on its own -----

  /** The repository as it is now. */
  function RepoNow(s: State): Id -> RepoAnswer
    requires s.log != []
  {
    var markets := s.log[|s.log| - 1].markets;
    (id: Id) => if id in markets then Got(markets[id]) else NotFound
  }

  /** The rest of a lone call that is about to read the repository; `look` numbers its next context check. */
  function Finished(s: State, c: nat, call: Lookup, look: nat): State
    requires s.log != []
  {
    Step(Step(Step(s, RepoRead(c, call.ctx.Live(look))), Tick(Elapsed(call))), CacheSet(c, call.ctx.Live(look + 1)))
  }

  function Elapsed(call: Lookup): nat {
    if call.setAt >= call.getAt then call.setAt - call.getAt else 0
  }

  /** The call has ended as the response says. */
  predicate Ended(s: State, c: nat, response: Response) {
    && c in s.calls
    && match response
       case Ok(Some(m)) => s.calls[c].Served? && s.calls[c].market == m
       case Ok(None) => false
       case InvalidId => false
       case _ => s.calls[c].Failed?
  }

  lemma MissIsLoneRun(s: State, c: nat, call: Lookup, look: nat)
    requires s.log != [] && c in s.calls && s.calls[c].AtRead? && s.calls[c].id == call.id
    requires call.getAt == s.now && call.setAt >= call.getAt
    ensures var (list, response) := Miss(s.cache, s.maxSize, RepoNow(s), call, look);
      var t := Finished(s, c, call, look);
      t.cache == list && Ended(t, c, response)
  {
    var s1 := Step(s, RepoRead(c, call.ctx.Live(look)));
    var s2 := Step(s1, Tick(Elapsed(call)));
    assert s2.calls == s1.calls && s2.now == call.setAt;
  }

  /**
   * With nothing else going on, a call with a valid id and a context that is live at first does to the cache what
   * Serve says, and ends with its response.
   */
  lemma LoneCallServes(s: State, c: nat, call: Lookup)
    requires s.log != [] && c !in s.calls && call.valid && call.ctx.Live(0)
    requires call.getAt == s.now && call.setAt >= call.getAt
    ensures var (list, response) := Serve(s.cache, s.maxSize, RepoNow(s), call);
      var s1 := Step(Step(s, Begin(c, call.id)), CacheGet(c, call.ctx.Live(1)));
      var t := Finished(Step(s1, CacheDelete(c, call.ctx.Live(2))), c, call,
                        if c in s1.calls && s1.calls[c].AtDelete? then 3 else 2);
      t.cache == list && Ended(t, c, response)
  {
    var s1 := Step(Step(s, Begin(c, call.id)), CacheGet(c, call.ctx.Live(1)));
    GetOfLoneRun(s, c, call);
    if s1.calls[c].Served? {
      ServedStays(s1, c, call);
    } else {
      var s2 := Step(s1, CacheDelete(c, call.ctx.Live(2)));
      MissIsLoneRun(s2, c, call, if s1.calls[c].AtDelete? then 3 else 2);
    }
  }

  /** Where the call is after its Get. */
  lemma GetOfLoneRun(s: State, c: nat, call: Lookup)
    requires s.log != [] && c !in s.calls && call.getAt == s.now
    ensures var t := Step(Step(s, Begin(c, call.id)), CacheGet(c, call.ctx.Live(1)));
      var (list, found) := S.Get(s.cache, call.id, call.getAt);
      && t.maxSize == s.maxSize && t.log == s.log && t.now == s.now && c in t.calls
      && t.cache == (if call.ctx.Live(1) then list else s.cache)
      && (if !call.ctx.Live(1) || found.None? then t.calls[c] == AtRead(call.id, s.now)
          else if Decode(found.value).None? then t.calls[c] == AtDelete(call.id, s.now)
          else t.calls[c].Served? && t.calls[c].market == Decode(found.value).value)
  {
    assert Step(s, Begin(c, call.id)).calls[c] == AtGet(call.id, s.now);
  }

  lemma ServedStays(s: State, c: nat, call: Lookup)
    requires s.log != [] && c in s.calls && s.calls[c].Served?
    ensures var t := Finished(Step(s, CacheDelete(c, call.ctx.Live(2))), c, call, 2);
      t.cache == s.cache && t.calls == s.calls
  {
  }
}
