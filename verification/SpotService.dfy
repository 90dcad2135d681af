/**
 * The read-through lookup SpotService.GetMarketByID in front of a market repository that
 * does not change, with its cache, and the LRU stack property of that cache.
 */
module SpotService {
  import opened Common
  import opened S = LruSpec
  import opened LruCache

  /** A market; `marshals` is false for the values encoding/json refuses, such as a year past 9999. */
  datatype Market = Market(id: Id, data: string, marshals: bool)

  function Encode(m: Market): Option<Bytes> {
    if m.marshals then Some(Json(m.id, m.data)) else None
  }

  function Decode(b: Bytes): Option<Market> {
    if b.Json? then Some(Market(b.id, b.data, true)) else None
  }

  /** What the repository port may answer: a market, a nil market, or an error. */
  datatype RepoAnswer = Got(market: Market) | Nil | NotFound

  datatype Response = Ok(market: Option<Market>) | InvalidId | ContextError | RepoError

  const TTL_SECONDS := 300

  /** One call: `valid` says that the id passes uid.Validate; the clock is read by Get and by Set. */
  datatype Lookup = Lookup(id: Id, valid: bool, ctx: Ctx, getAt: Time, setAt: Time)

  function Uncached(repo: Id -> RepoAnswer, call: Lookup): Response {
    if !call.valid then InvalidId
    else if !call.ctx.Live(0) then ContextError
    else FromRepo(repo(call.id), call.ctx.Live(1))
  }

  function FromRepo(answer: RepoAnswer, live: bool): Response {
    if !live then ContextError
    else match answer
      case Got(m) => Ok(Some(m))
      case Nil => Ok(None)
      case NotFound => RepoError
  }

  /** The cache after a repository lookup that found the market `m`. */
  function Fill(list: Recency, maxSize: int, call: Lookup, live: bool, m: Market): Recency {
    if Encode(m).Some? && live
    then S.Set(list, maxSize, call.id, Encode(m).value, ExpiresAt(TTL_SECONDS, call.setAt))
    else list
  }

  /** The repository part of a call, whose next look at its context is number `look`. */
  function Miss(list: Recency, maxSize: int, repo: Id -> RepoAnswer, call: Lookup, look: nat): (Recency, Response) {
    var response := FromRepo(repo(call.id), call.ctx.Live(look));
    if response.Ok? && response.market.Some?
    then (Fill(list, maxSize, call, call.ctx.Live(look + 1), response.market.value), response)
    else (list, response)
  }

  /** The whole call over a cache of capacity `maxSize`. */
  function Serve(list: Recency, maxSize: int, repo: Id -> RepoAnswer, call: Lookup): (Recency, Response) {
    if !call.valid then (list, InvalidId)
    else if !call.ctx.Live(0) then (list, ContextError)
    else if !call.ctx.Live(1) then Miss(list, maxSize, repo, call, 2)
    else
      var (list1, found) := S.Get(list, call.id, call.getAt);
      if found.None? then Miss(list1, maxSize, repo, call, 2)
      else if Decode(found.value).Some? then (list1, Ok(Decode(found.value)))
      else Miss(if call.ctx.Live(2) then S.Delete(list1, call.id) else list1, maxSize, repo, call, 3)
  }

  /** The program: the service object with its cache, or with none. */
  class SpotService {
    const cache: LRUCache?
    const repo: Id -> RepoAnswer

    constructor (repo: Id -> RepoAnswer, cache: LRUCache?)
      ensures this.repo == repo && this.cache == cache
    {
      this.repo, this.cache := repo, cache;
    }

    method GetMarketByID(call: Lookup) returns (response: Response)
      requires cache != null ==> cache.Valid()
      modifies if cache == null then {} else cache.Repr
      ensures cache == null ==> response == Uncached(repo, call)
      ensures cache != null ==>
        && cache.Valid() && fresh(cache.Repr - old(cache.Repr))
        && (cache.contents, response) == Serve(old(cache.contents), cache.maxSize, repo, call)
    {
      if !call.valid {
        return InvalidId;
      }
      if !call.ctx.Live(0) {
        return ContextError;
      }
      var look := 1;
      if cache != null {
        var answer := cache.Get(call.ctx.Live(1), call.id, call.getAt);
        look := 2;
        if answer.Found? {
          if Decode(answer.value).Some? {
            return Ok(Decode(answer.value));
          }
          var _ := cache.Delete(call.ctx.Live(2), call.id);
          look := 3;
        }
      }
      response := FromRepo(repo(call.id), call.ctx.Live(look));
      if cache != null && response.Ok? && response.market.Some? && Encode(response.market.value).Some? {
        var bytes := Encode(response.market.value).value;
        var _ := cache.Set(call.ctx.Live(look + 1), call.id, bytes, TTL_SECONDS, call.setAt);
      }
    }
  }

  /** Every cached entry is the encoding of what the repository has under its key. */
  ghost predicate Faithful(list: Recency, repo: Id -> RepoAnswer) {
    forall i :: 0 <= i < |list| ==>
      repo(list[i].key).Got? && Encode(repo(list[i].key).market) == Some(list[i].value)
  }

  /** A faithful cache stays faithful, and every market served is the repository's. */
  lemma ServeIsFaithful(list: Recency, maxSize: int, repo: Id -> RepoAnswer, call: Lookup)
    requires Faithful(list, repo) && WellFormed(list, maxSize)
    ensures Faithful(Serve(list, maxSize, repo, call).0, repo)
    ensures WellFormed(Serve(list, maxSize, repo, call).0, maxSize)
    ensures var response := Serve(list, maxSize, repo, call).1;
      response.Ok? ==> response == FromRepo(repo(call.id), true)
  {
    GetIsFaithful(list, maxSize, repo, call.id, call.getAt);
    var list1 := S.Get(list, call.id, call.getAt).0;
    MissIsFaithful(list, maxSize, repo, call, 2);
    MissIsFaithful(list1, maxSize, repo, call, 2);
  }

  lemma GetIsFaithful(list: Recency, maxSize: int, repo: Id -> RepoAnswer, id: Id, now: Time)
    requires Faithful(list, repo) && WellFormed(list, maxSize)
    ensures var (list1, found) := S.Get(list, id, now);
      && Faithful(list1, repo) && WellFormed(list1, maxSize)
      && (found.Some? ==> repo(id).Got? && Decode(found.value) == Some(repo(id).market))
  {
    OperationsKeepWellFormed(list, maxSize, id, Opaque(""), 0, now);
  }

  lemma MissIsFaithful(list: Recency, maxSize: int, repo: Id -> RepoAnswer, call: Lookup, look: nat)
    requires Faithful(list, repo) && WellFormed(list, maxSize)
    ensures var (list1, response) := Miss(list, maxSize, repo, call, look);
      && Faithful(list1, repo) && WellFormed(list1, maxSize)
      && (response.Ok? ==> response == FromRepo(repo(call.id), true))
  {
    if repo(call.id).Got? && repo(call.id).market.marshals {
      var e := ExpiresAt(TTL_SECONDS, call.setAt);
      OperationsKeepWellFormed(list, maxSize, call.id, Encode(repo(call.id).market).value, e, 0);
    }
  }

  /** The cache after a sequence of lookups that starts with a new one. */
  function ServeAll(maxSize: int, repo: Id -> RepoAnswer, calls: seq<Lookup>): Recency {
    if calls == [] then []
    else Serve(ServeAll(maxSize, repo, calls[..|calls| - 1]), maxSize, repo, calls[|calls| - 1]).0
  }

  lemma {:induction false} AlwaysFaithful(maxSize: int, repo: Id -> RepoAnswer, calls: seq<Lookup>)
    ensures WellFormed(ServeAll(maxSize, repo, calls), maxSize) && Faithful(ServeAll(maxSize, repo, calls), repo)
  {
    if calls != [] {
      AlwaysFaithful(maxSize, repo, calls[..|calls| - 1]);
      ServeIsFaithful(ServeAll(maxSize, repo, calls[..|calls| - 1]), maxSize, repo, calls[|calls| - 1]);
    }
  }

  /**
   * After any lookups, with any clock readings and cancellations, the cached service answers
   * a call whose context stays live exactly as the uncached one does, and any other call with
   * the repository's own answer or the context's error.
   */
  lemma CachedEqualsUncached(maxSize: int, repo: Id -> RepoAnswer, calls: seq<Lookup>, call: Lookup)
    ensures var response := Serve(ServeAll(maxSize, repo, calls), maxSize, repo, call).1;
      && (call.ctx.Background? ==> response == Uncached(repo, call))
      && (response == ContextError || response == Uncached(repo, call.(ctx := Background)))
  {
    AlwaysFaithful(maxSize, repo, calls);
    GetIsFaithful(ServeAll(maxSize, repo, calls), maxSize, repo, call.id, call.getAt);
  }

  // ----- The LRU stack property -----

  /** The call brings the id into the cache, or to its front. */
  predicate Caches(repo: Id -> RepoAnswer, call: Lookup) {
    call.valid && repo(call.id).Got? && repo(call.id).market.marshals
  }

  function Keys(list: Recency): (keys: seq<Id>)
    ensures |keys| == |list| && forall i :: 0 <= i < |list| ==> keys[i] == list[i].key
  {
    seq(|list|, i requires 0 <= i < |list| => list[i].key)
  }

  function IndexOf(s: seq<Id>, x: Id, from: nat := 0): (i: nat)
    requires from <= |s|
    ensures from <= i <= |s|
    ensures i < |s| ==> s[i] == x
    ensures forall j :: from <= j < i ==> s[j] != x
    decreases |s| - from
  {
    if from == |s| || s[from] == x then from else IndexOf(s, x, from + 1)
  }

  function Without(s: seq<Id>, x: Id): seq<Id> {
    if IndexOf(s, x) < |s| then RemoveAt(s, IndexOf(s, x)) else s
  }

  function Take(s: seq<Id>, n: int): seq<Id>
    requires n >= 0
  {
    if n <= |s| then s[..n] else s
  }

  /** The distinct ids of a sequence of lookups, the most recently looked up first. */
  function Recent(ids: seq<Id>): seq<Id> {
    if ids == [] then []
    else [ids[|ids| - 1]] + Without(Recent(ids[..|ids| - 1]), ids[|ids| - 1])
  }

  /** The ids of the calls that cache, in order. */
  function CachedIds(repo: Id -> RepoAnswer, calls: seq<Lookup>): seq<Id> {
    if calls == [] then []
    else
      var last := calls[|calls| - 1];
      CachedIds(repo, calls[..|calls| - 1]) + if Caches(repo, last) then [last.id] else []
  }

  /** The position a caching lookup of `id` frees, or the length of the list. */
  function Slot(list: Recency, maxSize: int, id: Id): (p: nat)
    ensures p <= |list|
  {
    if Has(list, id) then Find(list, id)
    else if |list| >= maxSize && list != [] then |list| - 1
    else |list|
  }

  /** Hit, expired entry and miss all leave the id in front of the list without that position. */
  lemma ServeShape(list: Recency, maxSize: int, repo: Id -> RepoAnswer, call: Lookup)
    requires maxSize >= 1 && WellFormed(list, maxSize) && Faithful(list, repo) && call.ctx.Background?
    requires Caches(repo, call)
    ensures var after := Serve(list, maxSize, repo, call).0;
      after != [] && after[0].key == call.id && after[1..] == Cut(list, Slot(list, maxSize, call.id))
  {
    var i := Find(list, call.id);
    if i < |list| && call.getAt > list[i].expiresAt {
      CutEntries(list, i);
      HasMeans(Cut(list, i), call.id);
    }
  }

  lemma ShapeKeys(list: Recency, maxSize: int, id: Id, after: Recency)
    requires maxSize >= 1 && WellFormed(list, maxSize)
    requires after != [] && after[0].key == id && after[1..] == Cut(list, Slot(list, maxSize, id))
    ensures Keys(after) == Take([id] + Without(Keys(list), id), maxSize)
  {
    assert IndexOf(Keys(list), id) == Find(list, id);
    assert after == [after[0]] + after[1..];
  }

  /** What one lookup does to the keys does not depend on the clock. */
  lemma ServeKeys(list: Recency, maxSize: int, repo: Id -> RepoAnswer, call: Lookup)
    requires maxSize >= 1 && WellFormed(list, maxSize) && Faithful(list, repo) && call.ctx.Background?
    ensures Keys(Serve(list, maxSize, repo, call).0) ==
      if Caches(repo, call) then Take([call.id] + Without(Keys(list), call.id), maxSize) else Keys(list)
  {
    if Caches(repo, call) {
      ServeShape(list, maxSize, repo, call);
      ShapeKeys(list, maxSize, call.id, Serve(list, maxSize, repo, call).0);
    }
  }

  lemma {:induction false} RecentDistinct(ids: seq<Id>)
    ensures Distinct(Recent(ids))
  {
    if ids != [] {
      RecentDistinct(ids[..|ids| - 1]);
      WithoutElements(Recent(ids[..|ids| - 1]), ids[|ids| - 1]);
    }
  }

  lemma WithoutElements(s: seq<Id>, x: Id)
    requires Distinct(s)
    ensures Distinct(Without(s, x))
    ensures forall y :: y in Without(s, x) <==> y in s && y != x
  {
    if IndexOf(s, x) < |s| {
      RemoveAtElements(s, IndexOf(s, x));
    }
  }

  /** Truncating before or after a lookup gives the same keys. */
  lemma TakeCommutes(recent: seq<Id>, x: Id, n: int)
    requires n >= 1 && Distinct(recent)
    ensures Take([x] + Without(Take(recent, n), x), n) == Take([x] + Without(recent, x), n)
  {
    var p := IndexOf(recent, x);
    assert IndexOf(Take(recent, n), x) == if p < n then p else if n <= |recent| then n else p;
    if n <= |recent| {
      var short := recent[..n];
      if p < n {
        assert Without(short, x) == recent[..p] + recent[p + 1..n];
        assert Without(recent, x)[..n - 1] == recent[..p] + recent[p + 1..n];
      } else {
        assert Without(short, x) == short;
        assert Without(recent, x)[..n - 1] == recent[..n - 1];
      }
      FrontTaken(x, Without(short, x), n);
      FrontTaken(x, Without(recent, x), n);
    }
  }

  lemma FrontTaken(x: Id, s: seq<Id>, n: int)
    requires 1 <= n <= |s| + 1
    ensures Take([x] + s, n) == [x] + s[..n - 1]
  {
  }

  /** The cache holds exactly the most recent maxSize distinct ids, after any sequence of lookups. */
  lemma {:induction false} CacheHoldsMostRecent(maxSize: int, repo: Id -> RepoAnswer, calls: seq<Lookup>)
    requires maxSize >= 1 && forall i :: 0 <= i < |calls| ==> calls[i].ctx.Background?
    ensures Keys(ServeAll(maxSize, repo, calls)) == Take(Recent(CachedIds(repo, calls)), maxSize)
  {
    if calls != [] {
      var before := calls[..|calls| - 1];
      var call := calls[|calls| - 1];
      var list := ServeAll(maxSize, repo, before);
      CacheHoldsMostRecent(maxSize, repo, before);
      AlwaysFaithful(maxSize, repo, before);
      ServeKeys(list, maxSize, repo, call);
      RecentDistinct(CachedIds(repo, before));
      RecentStep(repo, calls);
      if Caches(repo, call) {
        TakeCommutes(Recent(CachedIds(repo, before)), call.id, maxSize);
      }
    }
  }

  lemma RecentAppend(ids: seq<Id>, x: Id)
    ensures Recent(ids + [x]) == [x] + Without(Recent(ids), x)
  {
    assert (ids + [x])[..|ids|] == ids;
  }

  lemma RecentStep(repo: Id -> RepoAnswer, calls: seq<Lookup>)
    requires calls != []
    ensures var call := calls[|calls| - 1];
      var recent := Recent(CachedIds(repo, calls[..|calls| - 1]));
      Recent(CachedIds(repo, calls)) == if Caches(repo, call) then [call.id] + Without(recent, call.id) else recent
  {
    var ids := CachedIds(repo, calls[..|calls| - 1]);
    var id := calls[|calls| - 1].id;
    RecentAppend(ids, id);
    assert CachedIds(repo, calls) == if Caches(repo, calls[|calls| - 1]) then ids + [id] else ids + [];
    assert ids + [] == ids;
  }

  /** The stack property: at every moment the smaller cache's list is a prefix of the larger one's. */
  lemma StackProperty(a: int, b: int, repo: Id -> RepoAnswer, calls: seq<Lookup>, callsB: seq<Lookup>)
    requires 1 <= a <= b
    requires forall i :: 0 <= i < |calls| ==> calls[i].ctx.Background?
    requires SameLookups(calls, callsB)
    ensures Keys(ServeAll(a, repo, calls)) <= Keys(ServeAll(b, repo, callsB))
  {
    CacheHoldsMostRecent(a, repo, calls);
    CacheHoldsMostRecent(b, repo, callsB);
    SameIds(repo, calls, callsB);
  }

  /** The same calls, possibly at different clock readings. */
  predicate SameLookups(a: seq<Lookup>, b: seq<Lookup>) {
    |a| == |b| && forall i :: 0 <= i < |a| ==> a[i].id == b[i].id && a[i].valid == b[i].valid && a[i].ctx == b[i].ctx
  }

  lemma {:induction false} SameIds(repo: Id -> RepoAnswer, a: seq<Lookup>, b: seq<Lookup>)
    requires SameLookups(a, b)
    ensures CachedIds(repo, a) == CachedIds(repo, b)
  {
    if a != [] {
      SameIds(repo, a[..|a| - 1], b[..|b| - 1]);
    }
  }

  /** The last position of an id, or -1. */
  function LastIndex(ids: seq<Id>, x: Id): (i: int)
    ensures -1 <= i < |ids| && (i >= 0 ==> ids[i] == x)
    ensures forall j :: i < j < |ids| ==> ids[j] != x
  {
    if ids == [] then -1 else if ids[|ids| - 1] == x then |ids| - 1 else LastIndex(ids[..|ids| - 1], x)
  }

  /** What `Recent` is: every id once, ordered by last lookup. */
  lemma {:induction false} RecentElements(ids: seq<Id>)
    ensures forall x :: x in Recent(ids) <==> x in ids
  {
    if ids != [] {
      RecentElements(ids[..|ids| - 1]);
      RecentDistinct(ids[..|ids| - 1]);
      WithoutElements(Recent(ids[..|ids| - 1]), ids[|ids| - 1]);
      assert ids == ids[..|ids| - 1] + [ids[|ids| - 1]];
    }
  }

  lemma {:induction false} RecentOrder(ids: seq<Id>, a: nat, b: nat)
    requires a < b < |Recent(ids)|
    ensures LastIndex(ids, Recent(ids)[a]) > LastIndex(ids, Recent(ids)[b])
  {
    RecentEntry(ids, b);
    if a > 0 {
      RecentEntry(ids, a);
      RecentOrder(ids[..|ids| - 1], Earlier(ids, a), Earlier(ids, b));
    }
  }

  /** Where the id at position `i` stood before the last lookup. */
  function Earlier(ids: seq<Id>, i: nat): nat
    requires ids != [] && i > 0
  {
    if IndexOf(Recent(ids[..|ids| - 1]), ids[|ids| - 1]) <= i - 1 then i else i - 1
  }

  lemma RecentEntry(ids: seq<Id>, i: nat)
    requires 0 < i < |Recent(ids)|
    ensures Earlier(ids, i) < |Recent(ids[..|ids| - 1])|
    ensures Recent(ids)[i] == Recent(ids[..|ids| - 1])[Earlier(ids, i)] != ids[|ids| - 1]
  {
    RecentDistinct(ids[..|ids| - 1]);
    WithoutEntry(Recent(ids[..|ids| - 1]), ids[|ids| - 1], i - 1);
  }

  lemma WithoutEntry(s: seq<Id>, x: Id, i: nat)
    requires i < |Without(s, x)| && Distinct(s)
    ensures var j := if IndexOf(s, x) <= i then i + 1 else i;
      j < |s| && Without(s, x)[i] == s[j] != x
  {
    var p := IndexOf(s, x);
    assert p < |s| ==> s[p] == x;
  }

  // ----- The answers -----

  /** An id that is not valid and a dead context answer with their errors and leave the cache alone. */
  lemma RefusedTouchesNothing(list: Recency, maxSize: int, repo: Id -> RepoAnswer, call: Lookup)
    requires !call.valid || !call.ctx.Live(0)
    ensures Serve(list, maxSize, repo, call) == (list, if call.valid then ContextError else InvalidId)
  {
  }

  /** After any calls, a valid call with a live context is answered with what the repository has. */
  lemma AnswersAreTheRepositorys(maxSize: int, repo: Id -> RepoAnswer, calls: seq<Lookup>, call: Lookup)
    requires call.valid && call.ctx.Background?
    ensures var response := Serve(ServeAll(maxSize, repo, calls), maxSize, repo, call).1;
      match repo(call.id)
      case Got(m) => response == Ok(Some(m))
      case Nil => response == Ok(None)
      case NotFound => response == RepoError
  {
    CachedEqualsUncached(maxSize, repo, calls, call);
  }

  /** An entry that does not decode is gone after the call that meets it, replaced if the repository has a market. */
  lemma BadEntryIsDropped(list: Recency, maxSize: int, repo: Id -> RepoAnswer, call: Lookup, e: Entry)
    requires WellFormed(list, maxSize) && call.valid && call.ctx.Background?
    requires e in list && e.key == call.id && call.getAt <= e.expiresAt && Decode(e.value).None?
    ensures var (after, response) := Serve(list, maxSize, repo, call);
      && response == FromRepo(repo(call.id), true)
      && forall d :: d in after && d.key == call.id ==> Decode(d.value).Some?
  {
    var i := Find(list, call.id);
    HasMeans(list, call.id);
    var j :| 0 <= j < |list| && list[j] == e;
    assert list[i] == e;
    BadEntryIsDeleted(list, maxSize, call, i);
    var rest := S.Delete(S.Get(list, call.id, call.getAt).0, call.id);
    var answer := repo(call.id);
    if answer.Got? && answer.market.marshals {
      OperationsAddNothingElse(
        rest, maxSize, call.id, Encode(answer.market).value, ExpiresAt(TTL_SECONDS, call.setAt), 0);
    }
  }

  lemma BadEntryIsDeleted(list: Recency, maxSize: int, call: Lookup, i: nat)
    requires WellFormed(list, maxSize) && i == Find(list, call.id) < |list| && call.getAt <= list[i].expiresAt
    ensures var got := S.Get(list, call.id, call.getAt);
      && got.1 == Some(list[i].value) && WellFormed(S.Delete(got.0, call.id), maxSize)
      && forall d :: d in S.Delete(got.0, call.id) ==> d.key != call.id
  {
    var front := S.Get(list, call.id, call.getAt).0;
    OperationsKeepWellFormed(list, maxSize, call.id, Opaque(""), 0, call.getAt);
    OperationsKeepWellFormed(front, maxSize, call.id, Opaque(""), 0, 0);
    assert Find(front, call.id) == 0;
    CutEntries(front, 0);
  }
}
