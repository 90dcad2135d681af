/**
 * The Postgres repository's Save: one transaction that debits the user's balance under a
 * guard and inserts the order. Money is in units of the smallest decimal of the columns.
 */
module OrderLedger {
  import opened Common

  datatype Row = Row(userId: Id, price: int)

  /** The two tables: users(user_id, balance) and orders(order_id primary key, user_id, price). */
  datatype Tables = Tables(balances: map<Id, int>, orders: map<Id, Row>)

  /** Where the context, the connection or the server makes a Save fail. */
  datatype Fault = NoFault | AtContext | AtBegin | AtUpdate | AtInsert | AtCommit

  datatype Outcome = Saved | ContextError | BeginError | UpdateError | Insufficient | InsertError | CommitError

  class Database {
    var tables: Tables

    constructor (tables: Tables)
      ensures this.tables == tables
    {
      this.tables := tables;
    }
  }

  class Repository {
    const db: Database

    constructor (db: Database)
      ensures this.db == db
    {
      this.db := db;
    }

    /** The transaction works on its own copy of the tables until it commits. */
    method Save(orderId: Id, userId: Id, price: int, fault: Fault) returns (outcome: Outcome)
      modifies db
      ensures outcome.Saved? <==>
        && fault.NoFault? && orderId !in old(db.tables).orders
        && userId in old(db.tables).balances && old(db.tables).balances[userId] >= price
      ensures !outcome.Saved? ==> db.tables == old(db.tables)
      ensures outcome.Saved? ==> Debited(old(db.tables), db.tables, orderId, userId, price)
    {
      if fault.AtContext? {
        return ContextError;
      }
      if fault.AtBegin? {
        return BeginError;
      }
      var tx := db.tables;
      if fault.AtUpdate? {
        return UpdateError;
      }
      var rowsAffected := 0;
      if userId in tx.balances && tx.balances[userId] >= price {
        tx := tx.(balances := tx.balances[userId := tx.balances[userId] - price]);
        rowsAffected := 1;
      }
      if rowsAffected == 0 {
        return Insufficient;
      }
      if fault.AtInsert? || orderId in tx.orders {
        return InsertError;
      }
      tx := tx.(orders := tx.orders[orderId := Row(userId, price)]);
      if fault.AtCommit? {
        return CommitError;
      }
      db.tables := tx;
      return Saved;
    }
  }

  /** The order is new, its price has moved from the balance to the orders, and nothing else has changed. */
  ghost predicate Debited(before: Tables, after: Tables, orderId: Id, userId: Id, price: int) {
    && orderId !in before.orders && after.orders == before.orders[orderId := Row(userId, price)]
    && userId in before.balances && before.balances[userId] >= price
    && after.balances == before.balances[userId := before.balances[userId] - price]
  }

  function Share(row: Row, userId: Id): int {
    if row.userId == userId then row.price else 0
  }

  /** The sum of the prices of a user's stored orders. */
  ghost function Spent(orders: map<Id, Row>, userId: Id): int
    decreases |orders|
  {
    if orders == map[] then 0
    else
      var k :| k in orders;
      Share(orders[k], userId) + Spent(orders - {k}, userId)
  }

  /** The sum does not depend on the order in which it is taken. */
  lemma {:induction false} SpentWithout(orders: map<Id, Row>, userId: Id, k: Id)
    requires k in orders
    ensures Spent(orders, userId) == Share(orders[k], userId) + Spent(orders - {k}, userId)
    decreases |orders|
  {
    var j :| j in orders &&
      Spent(orders, userId) == Share(orders[j], userId) + Spent(orders - {j}, userId);
    if j != k {
      SpentWithout(orders - {j}, userId, k);
      SpentWithout(orders - {k}, userId, j);
      assert orders - {j} - {k} == orders - {k} - {j};
    }
  }

  /** What a user owns: the balance and the orders it paid for. */
  ghost function Total(t: Tables, userId: Id): int {
    (if userId in t.balances then t.balances[userId] else 0) + Spent(t.orders, userId)
  }

  ghost predicate Solvent(t: Tables) {
    forall u :: u in t.balances ==> t.balances[u] >= 0
  }

  lemma DebitConserves(before: Tables, after: Tables, orderId: Id, userId: Id, price: int, u: Id)
    requires Debited(before, after, orderId, userId, price)
    ensures Total(after, u) == Total(before, u)
    ensures Solvent(before) ==> Solvent(after)
  {
    SpentWithout(after.orders, u, orderId);
    assert after.orders - {orderId} == before.orders;
  }

  datatype Call = Call(orderId: Id, userId: Id, price: int, fault: Fault)

  /** The order of call `i` was saved, and is stored as the call has it; it was not there before. */
  ghost predicate Entered(before: Tables, after: Tables, calls: seq<Call>, i: nat)
    requires i < |calls|
  {
    var Call(orderId, userId, price, _) := calls[i];
    orderId !in before.orders && orderId in after.orders && after.orders[orderId] == Row(userId, price)
  }

  /** The stored orders are those that were there, unchanged, and those of the calls that answered Saved, each once. */
  ghost predicate Accounted(before: Tables, after: Tables, calls: seq<Call>, outcomes: seq<Outcome>) {
    && |outcomes| == |calls|
    && (forall k :: k in before.orders ==> k in after.orders && after.orders[k] == before.orders[k])
    && (forall i: nat :: i < |calls| && outcomes[i].Saved? ==> Entered(before, after, calls, i))
    && (forall i, j :: 0 <= i < j < |calls| && outcomes[i].Saved? && outcomes[j].Saved? ==>
          calls[i].orderId != calls[j].orderId)
    && (forall k :: k in after.orders && k !in before.orders ==>
          exists i :: 0 <= i < |calls| && outcomes[i].Saved? && calls[i].orderId == k)
  }

  lemma AccountOne(
    before: Tables, middle: Tables, after: Tables,
    calls: seq<Call>, outcomes: seq<Outcome>, call: Call, outcome: Outcome)
    requires Accounted(before, middle, calls, outcomes)
    requires if outcome.Saved? then Debited(middle, after, call.orderId, call.userId, call.price) else after == middle
    ensures Accounted(before, after, calls + [call], outcomes + [outcome])
  {
    var (calls', outcomes') := (calls + [call], outcomes + [outcome]);
    forall i: nat | i < |calls'| && outcomes'[i].Saved? ensures Entered(before, after, calls', i) {
      if i < |calls| {
        assert Entered(before, middle, calls, i);
      }
    }
    forall i, j | 0 <= i < j < |calls'| && outcomes'[i].Saved? && outcomes'[j].Saved?
      ensures calls'[i].orderId != calls'[j].orderId
    {
      assert Entered(before, middle, calls, i);
    }
    forall k | k in after.orders && k !in before.orders
      ensures exists i :: 0 <= i < |calls'| && outcomes'[i].Saved? && calls'[i].orderId == k
    {
      if k in middle.orders {
        var i :| 0 <= i < |calls| && outcomes[i].Saved? && calls[i].orderId == k;
        assert outcomes'[i].Saved? && calls'[i].orderId == k;
      } else {
        assert outcomes'[|calls|].Saved? && calls'[|calls|].orderId == k;
      }
    }
  }

  /** Every user's balance plus spending is the same, and no balance has gone negative. */
  ghost predicate Conserved(before: Tables, after: Tables) {
    && (forall u :: Total(after, u) == Total(before, u))
    && (Solvent(before) ==> Solvent(after))
    && after.balances.Keys == before.balances.Keys
  }

  lemma SaveConserves(before: Tables, after: Tables, orderId: Id, userId: Id, price: int)
    requires Debited(before, after, orderId, userId, price)
    ensures Conserved(before, after)
  {
    forall u ensures Total(after, u) == Total(before, u) {
      DebitConserves(before, after, orderId, userId, price, u);
    }
    DebitConserves(before, after, orderId, userId, price, userId);
  }

  /**
   * Conservation over any run of saves, successful or failed at any stage: every user's balance
   * plus the prices of the user's stored orders is what it was, no balance has gone negative, and
   * the orders there are more than before are exactly those of the calls that answered Saved.
   */
  method SaveAll(repo: Repository, calls: seq<Call>) returns (outcomes: seq<Outcome>)
    modifies repo.db
    ensures Conserved(old(repo.db.tables), repo.db.tables)
    ensures Accounted(old(repo.db.tables), repo.db.tables, calls, outcomes)
  {
    outcomes := [];
    for i := 0 to |calls|
      invariant Conserved(old(repo.db.tables), repo.db.tables)
      invariant Accounted(old(repo.db.tables), repo.db.tables, calls[..i], outcomes)
    {
      ghost var before := repo.db.tables;
      var Call(orderId, userId, price, fault) := calls[i];
      var outcome := repo.Save(orderId, userId, price, fault);
      if outcome.Saved? {
        SaveConserves(before, repo.db.tables, orderId, userId, price);
      }
      AccountOne(old(repo.db.tables), before, repo.db.tables, calls[..i], outcomes, calls[i], outcome);
      assert calls[..i] + [calls[i]] == calls[..i + 1];
      outcomes := outcomes + [outcome];
    }
    assert calls[..|calls|] == calls;
  }
}
