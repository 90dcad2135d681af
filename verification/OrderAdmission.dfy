/**
 * Admission of orders: the in-memory order repository, and CreateOrder as a machine of any
 * number of calls, each of which counts, asks the market client and saves in separate steps.
 */
module OrderAdmission {
  import opened Common

  const MAX_OPEN_ORDERS_PER_USER := 500

  /** An order as far as admission looks at it. Order ids are uuids, that is, numbers. */
  datatype Order = Order(orderId: nat, userId: Id, marketId: Id)

  function OrdersOf(orders: map<nat, Order>, userId: Id): set<nat> {
    set k | k in orders && orders[k].userId == userId
  }

  // ----- The repository object -----

  class Repository {
    var orders: map<nat, Order>

    constructor ()
      ensures orders == map[]
    {
      orders := map[];
    }

    method Save(live: bool, order: Order) returns (ok: bool)
      modifies this
      ensures ok == live
      ensures orders == if live then old(orders)[order.orderId := order] else old(orders)
    {
      if live {
        orders := orders[order.orderId := order];
      }
      return live;
    }

    /** Go ranges over the map in an arbitrary order. */
    method ListByUser(live: bool, userId: Id) returns (result: Option<seq<Order>>)
      ensures result.Some? <==> live
      ensures live ==> IsListing(orders, userId, result.value)
    {
      if !live {
        return None;
      }
      var list: seq<Order> := [];
      var todo := orders.Keys;
      ghost var keys: seq<nat> := [];
      while todo != {}
        invariant todo <= orders.Keys
        invariant Lists(orders, keys, list) && Elements(keys) == OrdersOf(orders, userId) - todo
        decreases todo
      {
        var k :| k in todo;
        ghost var seen := OrdersOf(orders, userId) - todo;
        todo := todo - {k};
        if orders[k].userId == userId {
          list := list + [orders[k]];
          assert Elements(keys + [k]) == Elements(keys) + {k} == seen + {k};
          assert k !in Elements(keys);
          keys := keys + [k];
        }
      }
      assert Lists(orders, keys, list) && Elements(keys) == OrdersOf(orders, userId);
      return Some(list);
    }

    method CountByUser(live: bool, userId: Id) returns (result: Option<nat>)
      ensures result == if live then Some(|OrdersOf(orders, userId)|) else None
    {
      if !live {
        return None;
      }
      var count := 0;
      var todo := orders.Keys;
      assert OrdersOf(orders, userId) - todo == {};
      while todo != {}
        invariant todo <= orders.Keys
        invariant count == |OrdersOf(orders, userId) - todo|
        decreases todo
      {
        var k :| k in todo;
        ghost var seen := OrdersOf(orders, userId) - todo;
        todo := todo - {k};
        if orders[k].userId == userId {
          count := count + 1;
          assert OrdersOf(orders, userId) - todo == seen + {k};
        } else {
          assert OrdersOf(orders, userId) - todo == seen;
        }
      }
      assert OrdersOf(orders, userId) - todo == OrdersOf(orders, userId);
      return Some(count);
    }
  }

  /** `list` holds the orders stored under `keys`, which are distinct. */
  ghost predicate Lists(orders: map<nat, Order>, keys: seq<nat>, list: seq<Order>) {
    && Distinct(keys) && |list| == |keys|
    && forall i :: 0 <= i < |keys| ==> keys[i] in orders && list[i] == orders[keys[i]]
  }

  /** `list` enumerates the user's orders, each once, in some order. */
  ghost predicate IsListing(orders: map<nat, Order>, userId: Id, list: seq<Order>) {
    exists keys: seq<nat> :: Lists(orders, keys, list) && Elements(keys) == OrdersOf(orders, userId)
  }

  /** CountByUser is the length of ListByUser. */
  lemma ListingLength(orders: map<nat, Order>, userId: Id, list: seq<Order>)
    requires IsListing(orders, userId, list)
    ensures |list| == |OrdersOf(orders, userId)|
    ensures forall o :: o in list ==> o.userId == userId
  {
    var keys: seq<nat> :| Lists(orders, keys, list) && Elements(keys) == OrdersOf(orders, userId);
    DistinctCardinality(keys);
    forall o | o in list ensures o.userId == userId {
      var i :| 0 <= i < |list| && list[i] == o;
      assert keys[i] in Elements(keys);
    }
  }

  // ----- CreateOrder -----

  datatype Outcome = Created(order: Order) | TooManyOrders | InvalidMarket | Failed

  /** A call before its count, its market check and its save. */
  datatype Pc =
    | Count(userId: Id, marketId: Id)
    | CheckMarket(userId: Id, marketId: Id)
    | Save(order: Order)
    | Done(outcome: Outcome)

  /** What the market client says: active, not active, or an error, which is only logged (as is having no client). */
  datatype Market = Active | Inactive | Unknown

  /** The program, with nothing else running: `look` numbers the context checks of the calls it makes. */
  class OrderService {
    const repo: Repository

    constructor (repo: Repository)
      ensures this.repo == repo
    {
      this.repo := repo;
    }

    method CreateOrder(ctx: Ctx, validIds: bool, userId: Id, marketId: Id, market: Market, orderId: nat)
      returns (outcome: Outcome)
      modifies repo
      ensures (repo.orders, outcome) == Create(old(repo.orders), ctx, validIds, userId, marketId, market, orderId)
      ensures |OrdersOf(old(repo.orders), userId)| <= MAX_OPEN_ORDERS_PER_USER ==>
        |OrdersOf(repo.orders, userId)| <= MAX_OPEN_ORDERS_PER_USER
    {
      if !validIds || !ctx.Live(0) {
        return Failed;
      }
      var count := repo.CountByUser(ctx.Live(1), userId);
      if count.None? {
        return Failed;
      }
      if count.value >= MAX_OPEN_ORDERS_PER_USER {
        return TooManyOrders;
      }
      if market.Inactive? {
        return InvalidMarket;
      }
      var order := Order(orderId, userId, marketId);
      var ok := repo.Save(ctx.Live(2), order);
      SubsetCardinality(OrdersOf(repo.orders, userId), OrdersOf(old(repo.orders), userId) + {orderId});
      return if ok then Created(order) else Failed;
    }
  }

  /** What CreateOrder does when nothing else runs. */
  function Create(orders: map<nat, Order>, ctx: Ctx, validIds: bool, userId: Id, marketId: Id, market: Market,
                  orderId: nat): (map<nat, Order>, Outcome)
  {
    var order := Order(orderId, userId, marketId);
    if !validIds || !ctx.Live(0) || !ctx.Live(1) then (orders, Failed)
    else if |OrdersOf(orders, userId)| >= MAX_OPEN_ORDERS_PER_USER then (orders, TooManyOrders)
    else if market.Inactive? then (orders, InvalidMarket)
    else if !ctx.Live(2) then (orders, Failed)
    else (orders[orderId := order], Created(order))
  }

  datatype State = State(orders: map<nat, Order>, calls: map<nat, Pc>)

  datatype Action =
    | Begin(c: nat, userId: Id, marketId: Id)
    | Advance(c: nat, live: bool, market: Market, orderId: nat)

  function Step(s: State, a: Action): State {
    match a
    case Begin(c, userId, marketId) =>
      if c in s.calls then s else s.(calls := s.calls[c := Count(userId, marketId)])
    case Advance(c, live, market, orderId) =>
      if c !in s.calls then s
      else match s.calls[c]
        case Count(userId, marketId) =>
          var next :=
            if !live then Done(Failed)
            else if |OrdersOf(s.orders, userId)| >= MAX_OPEN_ORDERS_PER_USER then Done(TooManyOrders)
            else CheckMarket(userId, marketId);
          s.(calls := s.calls[c := next])
        case CheckMarket(userId, marketId) =>
          var next := if market.Inactive? then Done(InvalidMarket) else Save(Order(orderId, userId, marketId));
          s.(calls := s.calls[c := next])
        case Save(order) =>
          if live then State(s.orders[order.orderId := order], s.calls[c := Done(Created(order))])
          else s.(calls := s.calls[c := Done(Failed)])
        case Done(_) => s
  }

  function Run(s: State, trace: seq<Action>): State {
    if trace == [] then s else Step(Run(s, trace[..|trace| - 1]), trace[|trace| - 1])
  }

  const EMPTY := State(map[], map[])

  /** A lone call creates its order exactly when nothing is against it, and tells apart what is. */
  lemma CreateMeans(
    orders: map<nat, Order>, ctx: Ctx, validIds: bool, userId: Id, marketId: Id, market: Market, orderId: nat)
    ensures var (after, outcome) := Create(orders, ctx, validIds, userId, marketId, market, orderId);
      var count := |set k | k in orders && orders[k].userId == userId|;
      && (outcome.Created? <==> validIds && ctx.Live(2) && count < 500 && market != Inactive)
      && (outcome.TooManyOrders? <==> validIds && ctx.Live(1) && count >= 500)
      && (outcome.InvalidMarket? <==> validIds && ctx.Live(1) && count < 500 && market == Inactive)
      && (outcome.Created? ==>
            outcome.order == Order(orderId, userId, marketId) && after == orders[orderId := outcome.order])
      && (!outcome.Created? ==> after == orders)
  {
    assert OrdersOf(orders, userId) == set k | k in orders && orders[k].userId == userId;
  }

  /** In the machine a call passes its market check, and saves, exactly when the market is not said to be inactive. */
  lemma InactiveMarketIsRefused(s: State, a: Action)
    requires a.Advance? && a.c in s.calls && s.calls[a.c].CheckMarket?
    ensures var (t, pc) := (Step(s, a), s.calls[a.c]);
      && t.orders == s.orders
      && t.calls[a.c] == if a.market == Inactive then Done(InvalidMarket)
                         else Save(Order(a.orderId, pc.userId, pc.marketId))
  {
  }

  lemma RunFour(s: State, a: Action, b: Action, c: Action, d: Action)
    ensures Run(s, [a, b, c, d]) == Step(Step(Step(Step(s, a), b), c), d)
  {
    var trace := [a, b, c, d];
    assert trace[..3][..2] == trace[..2] && trace[..2][..1] == trace[..1] && trace[..1][..0] == [];
    assert Run(s, trace[..1]) == Step(s, a);
    assert Run(s, trace[..2]) == Step(Step(s, a), b);
    assert Run(s, trace[..3]) == Step(Step(Step(s, a), b), c);
    assert trace[..|trace| - 1] == trace[..3];
  }

  /** CreateOrder is a lone run of the machine: a call begun and advanced three times. */
  lemma CreateIsLoneRun(s: State, c: nat, ctx: Ctx, userId: Id, marketId: Id, market: Market, orderId: nat)
    requires c !in s.calls && ctx.Live(0)
    ensures var (orders, outcome) := Create(s.orders, ctx, true, userId, marketId, market, orderId);
      Run(s, [Begin(c, userId, marketId), Advance(c, ctx.Live(1), market, orderId),
              Advance(c, ctx.Live(1), market, orderId), Advance(c, ctx.Live(2), market, orderId)])
        == State(orders, s.calls[c := Done(outcome)])
  {
    RunFour(s, Begin(c, userId, marketId), Advance(c, ctx.Live(1), market, orderId),
            Advance(c, ctx.Live(1), market, orderId), Advance(c, ctx.Live(2), market, orderId));
  }

  function UserOf(pc: Pc): Option<Id> {
    match pc
    case Count(u, _) => Some(u)
    case CheckMarket(u, _) => Some(u)
    case Save(o) => Some(o.userId)
    case Done(_) => None
  }

  /** The calls for a user that have not returned. */
  function InFlight(s: State, userId: Id): set<nat> {
    set c | c in s.calls && UserOf(s.calls[c]) == Some(userId)
  }

  /** Those of them that have been admitted. */
  function PastCheck(s: State, userId: Id): set<nat> {
    set c | c in s.calls && UserOf(s.calls[c]) == Some(userId) && !s.calls[c].Count?
  }

  /** Never more than `n` calls for the user are in flight along the trace. */
  predicate AtMost(n: nat, userId: Id, trace: seq<Action>) {
    |InFlight(Run(EMPTY, trace), userId)| <= n && (trace == [] || AtMost(n, userId, trace[..|trace| - 1]))
  }

  /** The call saves an order of this user in this step. */
  predicate Saves(s: State, a: Action, userId: Id) {
    a.Advance? && a.live && a.c in s.calls && s.calls[a.c].Save? && s.calls[a.c].order.userId == userId
  }

  /** A step admits a call only after a count below the limit, and saves only an admitted call's order. */
  lemma StepCounts(s: State, a: Action, userId: Id)
    ensures var t := Step(s, a);
      if Saves(s, a, userId) then
        && a.c in PastCheck(s, userId) && PastCheck(t, userId) == PastCheck(s, userId) - {a.c}
        && OrdersOf(t.orders, userId) == OrdersOf(s.orders, userId) + {s.calls[a.c].order.orderId}
      else
        && OrdersOf(t.orders, userId) <= OrdersOf(s.orders, userId)
        && (PastCheck(t, userId) <= PastCheck(s, userId) || |OrdersOf(s.orders, userId)| < MAX_OPEN_ORDERS_PER_USER)
  {
  }

  lemma StepKeepsLimit(s: State, a: Action, userId: Id, n: nat)
    requires |OrdersOf(s.orders, userId)| + |PastCheck(s, userId)| <= MAX_OPEN_ORDERS_PER_USER + n - 1
    requires n >= 1 && |InFlight(Step(s, a), userId)| <= n
    ensures var t := Step(s, a);
      |OrdersOf(t.orders, userId)| + |PastCheck(t, userId)| <= MAX_OPEN_ORDERS_PER_USER + n - 1
  {
    var t := Step(s, a);
    StepCounts(s, a, userId);
    var saved, past := OrdersOf(s.orders, userId), PastCheck(s, userId);
    if Saves(s, a, userId) {
      var k := s.calls[a.c].order.orderId;
      assert |saved + {k}| <= |saved| + 1;
    } else {
      SubsetCardinality(OrdersOf(t.orders, userId), saved);
      if PastCheck(t, userId) <= past {
        SubsetCardinality(PastCheck(t, userId), past);
      } else {
        assert PastCheck(t, userId) <= InFlight(t, userId);
        SubsetCardinality(PastCheck(t, userId), InFlight(t, userId));
      }
    }
  }

  /**
   * The order limit under concurrency: with at most n calls for a user in flight, the saved
   * orders and the admitted calls together never exceed MaxOpenOrdersPerUser + n - 1.
   */
  lemma {:induction false} OrderLimit(trace: seq<Action>, userId: Id, n: nat)
    requires n >= 1 && AtMost(n, userId, trace)
    ensures var s := Run(EMPTY, trace);
      |OrdersOf(s.orders, userId)| + |PastCheck(s, userId)| <= 500 + n - 1
  {
    if trace == [] {
      assert OrdersOf(map[], userId) == {} && PastCheck(EMPTY, userId) == {};
    } else {
      OrderLimit(trace[..|trace| - 1], userId, n);
      StepKeepsLimit(Run(EMPTY, trace[..|trace| - 1]), trace[|trace| - 1], userId, n);
    }
  }

  // ----- The bound is reached -----

  /** `k` orders saved, and `j` further calls admitted, of one user. */
  ghost predicate Crowd(s: State, userId: Id, k: nat, j: nat) {
    && (forall i: nat :: i in s.orders <==> i < k)
    && (forall i: nat :: i in s.orders ==> s.orders[i].userId == userId)
    && (forall c: nat :: c in s.calls <==> c < k + j)
    && (forall c: nat :: c in s.calls ==> if c < k then s.calls[c].Done? else s.calls[c] == CheckMarket(userId, ""))
  }

  function Range(lo: nat, hi: nat): (r: set<nat>)
    requires lo <= hi
    ensures |r| == hi - lo && forall i: nat :: i in r <==> lo <= i < hi
  {
    if lo == hi then {} else Range(lo, hi - 1) + {(hi - 1) as nat}
  }

  lemma CrowdCounts(s: State, userId: Id, k: nat, j: nat)
    requires Crowd(s, userId, k, j)
    ensures |OrdersOf(s.orders, userId)| == k
    ensures |InFlight(s, userId)| == j
  {
    assert OrdersOf(s.orders, userId) == Range(0, k);
    assert InFlight(s, userId) == Range(k, k + j);
  }

  lemma Extend(n: nat, userId: Id, trace: seq<Action>, a: Action)
    requires AtMost(n, userId, trace) && |InFlight(Step(Run(EMPTY, trace), a), userId)| <= n
    ensures AtMost(n, userId, trace + [a]) && Run(EMPTY, trace + [a]) == Step(Run(EMPTY, trace), a)
  {
    assert (trace + [a])[..|trace|] == trace;
  }

  /** A trace that never has more than `n` calls in flight and ends in a crowd. */
  ghost predicate Stands(n: nat, userId: Id, trace: seq<Action>, k: nat, j: nat) {
    AtMost(n, userId, trace) && Crowd(Run(EMPTY, trace), userId, k, j)
  }

  /** One more call is begun and admitted. */
  lemma Admit(n: nat, userId: Id, trace: seq<Action>, k: nat, j: nat) returns (longer: seq<Action>)
    requires Stands(n, userId, trace, k, j)
    requires k < MAX_OPEN_ORDERS_PER_USER && j < n
    ensures Stands(n, userId, longer, k, j + 1)
  {
    var (b, a) := (Begin(k + j, userId, ""), Advance(k + j, true, Active, 0));
    AdmitSteps(Run(EMPTY, trace), userId, k, j);
    Extend(n, userId, trace, b);
    Extend(n, userId, trace + [b], a);
    longer := trace + [b] + [a];
  }

  lemma AdmitSteps(s: State, userId: Id, k: nat, j: nat)
    requires Crowd(s, userId, k, j) && k < MAX_OPEN_ORDERS_PER_USER
    ensures var t := Step(s, Begin(k + j, userId, ""));
      var u := Step(t, Advance(k + j, true, Active, 0));
      |InFlight(t, userId)| == |InFlight(u, userId)| == j + 1 && Crowd(u, userId, k, j + 1)
  {
    var t := Step(s, Begin(k + j, userId, ""));
    var u := Step(t, Advance(k + j, true, Active, 0));
    CrowdCounts(s, userId, k, j);
    assert u == s.(calls := s.calls[k + j := CheckMarket(userId, "")]);
    CrowdCounts(u, userId, k, j + 1);
    assert InFlight(t, userId) == InFlight(u, userId);
  }

  /** The longest admitted call passes its market check and saves. */
  lemma Finish(n: nat, userId: Id, trace: seq<Action>, k: nat, j: nat) returns (longer: seq<Action>)
    requires Stands(n, userId, trace, k, j) && 0 < j <= n
    ensures Stands(n, userId, longer, k + 1, j - 1)
  {
    var a := Advance(k, true, Active, k);
    FinishSteps(Run(EMPTY, trace), userId, k, j);
    Extend(n, userId, trace, a);
    Extend(n, userId, trace + [a], a);
    longer := trace + [a] + [a];
  }

  lemma FinishSteps(s: State, userId: Id, k: nat, j: nat)
    requires j > 0 && Crowd(s, userId, k, j)
    ensures var (t, u) := (Step(s, Advance(k, true, Active, k)),
                           Step(Step(s, Advance(k, true, Active, k)), Advance(k, true, Active, k)));
      |InFlight(t, userId)| == j && |InFlight(u, userId)| == j - 1 && Crowd(u, userId, k + 1, j - 1)
  {
    var (order, a) := (Order(k, userId, ""), Advance(k, true, Active, k));
    var t := Step(s, a);
    assert t == s.(calls := s.calls[k := Save(order)]);
    assert Step(t, a) == State(s.orders[k := order], t.calls[k := Done(Created(order))]);
    CrowdCounts(s, userId, k, j);
    assert InFlight(t, userId) == InFlight(s, userId);
    CrowdCounts(Step(t, a), userId, k + 1, j - 1);
  }

  lemma NoCrowd(n: nat, userId: Id)
    ensures Stands(n, userId, [], 0, 0)
  {
    assert InFlight(EMPTY, userId) == {};
  }

  lemma AdmitAndFinish(n: nat, userId: Id, trace: seq<Action>, k: nat) returns (longer: seq<Action>)
    requires n >= 1 && k < MAX_OPEN_ORDERS_PER_USER && Stands(n, userId, trace, k, 0)
    ensures Stands(n, userId, longer, k + 1, 0)
  {
    longer := Admit(n, userId, trace, k, 0);
    longer := Finish(n, userId, longer, k, 1);
  }

  /** `k` calls one after the other. */
  lemma {:induction false} OneByOne(n: nat, userId: Id, k: nat) returns (trace: seq<Action>)
    requires n >= 1 && k < MAX_OPEN_ORDERS_PER_USER
    ensures Stands(n, userId, trace, k, 0)
  {
    if k == 0 {
      trace := [];
      NoCrowd(n, userId);
    } else {
      var shorter := OneByOne(n, userId, k - 1);
      trace := AdmitAndFinish(n, userId, shorter, k - 1);
    }
  }

  /** Then `j` calls that are all admitted before any of them saves. */
  lemma {:induction false} AllAtOnce(n: nat, userId: Id, j: nat) returns (trace: seq<Action>)
    requires j <= n && n >= 1
    ensures Stands(n, userId, trace, MAX_OPEN_ORDERS_PER_USER - 1, j)
  {
    if j == 0 {
      trace := OneByOne(n, userId, MAX_OPEN_ORDERS_PER_USER - 1);
    } else {
      trace := AllAtOnce(n, userId, j - 1);
      trace := Admit(n, userId, trace, MAX_OPEN_ORDERS_PER_USER - 1, j - 1);
    }
  }

  lemma {:induction false} AllSave(n: nat, userId: Id, i: nat) returns (trace: seq<Action>)
    requires i <= n && n >= 1
    ensures Stands(n, userId, trace, MAX_OPEN_ORDERS_PER_USER - 1 + i, n - i)
  {
    if i == 0 {
      trace := AllAtOnce(n, userId, n);
    } else {
      trace := AllSave(n, userId, i - 1);
      trace := Finish(n, userId, trace, MAX_OPEN_ORDERS_PER_USER - 2 + i, n - i + 1);
    }
  }

  /** For every n the bound of OrderLimit is reached, by a run that never has more than n calls in flight. */
  lemma LimitIsReached(userId: Id, n: nat) returns (trace: seq<Action>)
    requires n >= 1
    ensures AtMost(n, userId, trace)
    ensures |OrdersOf(Run(EMPTY, trace).orders, userId)| == 500 + n - 1
  {
    trace := AllSave(n, userId, n);
    CrowdCounts(Run(EMPTY, trace), userId, MAX_OPEN_ORDERS_PER_USER - 1 + n, 0);
  }
}
