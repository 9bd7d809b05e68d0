/** The in-memory store of the server (`transactions` and
    `transactionIdCounter`) and its five route handlers. Each handler returns
    the response it would send, as an `Outcome`. */
module Server {
  import opened Ledger
  import opened Aggregates

  /** A handler's response: the payload of a 2xx reply, or the error reply. */
  datatype Outcome =
    | Listed(items: seq<Txn>)
    | Report(stats: Stats)
    | Created(txn: Txn, stats: Stats)
    | Updated(txn: Txn, stats: Stats)
    | Deleted(stats: Stats)
    | BadRequest(error: string, message: Option<string>)
    | NotFound

  /** The HTTP status code of a response. */
  function Status(o: Outcome): (code: int)
    ensures code == 201 <==> o.Created?
    ensures code == 400 <==> o.BadRequest?
    ensures code == 404 <==> o.NotFound?
    ensures code == 200 <==> o.Listed? || o.Report? || o.Updated? || o.Deleted?
  {
    match o
    case Created(_, _) => 201
    case BadRequest(_, _) => 400
    case NotFound => 404
    case _ => 200
  }

  class Store {
    /** The records, in insertion order. */
    var transactions: seq<Txn>
    /** The id the next POST assigns. */
    var nextId: nat
    /** Every id ever assigned, including those of deleted records. */
    ghost var issued: set<int>

    /** Ids are increasing in array order and each was issued; every issued
        id is at least 1 and below the counter. */
    ghost predicate Valid()
      reads this
    {
      Consistent(transactions, nextId, issued)
    }

    /** The state at process start: no records, the counter at 1. */
    constructor ()
      ensures Valid()
      ensures transactions == [] && nextId == 1 && issued == {}
    {
      transactions := [];
      nextId := 1;
      issued := {};
    }

    /** GET /api/transactions?type=filter */
    method List(filter: Option<string>) returns (o: Outcome)
      requires Valid()
      ensures o.Listed? && o.items == Select(transactions, filter)
      ensures IdsIncreasing(o.items)
    {
      SelectKeepsOrder(transactions, filter);
      o := Listed(Select(transactions, filter));
    }

    /** GET /api/transactions/stats */
    method GetStats() returns (o: Outcome)
      ensures o == Report(StatsOf(transactions))
      ensures o.stats.balance == o.stats.creditTotal - o.stats.debitTotal
    {
      o := Report(StatsOf(transactions));
    }

    /** POST /api/transactions: validate, take the next id, stamp the date,
        append, and report the record with the new stats. */
    method Add(body: Body, now: Timestamp) returns (o: Outcome)
      requires Valid()
      modifies this
      ensures Valid()
      ensures nextId >= old(nextId)
      ensures !CheckNew(body).Accepted? ==>
        && o == BadRequest(ValidationError, Some(CheckNew(body).message))
        && transactions == old(transactions) && nextId == old(nextId) && issued == old(issued)
      ensures CheckNew(body).Accepted? ==>
        && o.Created?
        && o.txn == NewTxn(old(nextId), body, now)
        && o.txn.id !in old(issued)
        && IdsBelow(old(transactions), o.txn.id)
        && transactions == old(transactions) + [o.txn]
        && nextId == old(nextId) + 1
        && issued == old(issued) + {o.txn.id}
        && o.stats == StatsOf(transactions)
    {
      var check := CheckNew(body);
      if check.Rejected? {
        o := BadRequest(ValidationError, Some(check.message));
        return;
      }
      var t := NewTxn(nextId, body, now);
      AppendKeepsIds(transactions, t, nextId, issued);
      transactions, nextId, issued := transactions + [t], nextId + 1, issued + {t.id};
      o := Created(t, StatsOf(transactions));
    }

    /** PUT /api/transactions/:id: an unknown id is 404 before the body is
        looked at; then the required fields are checked (but not the sign of
        the amount), and the record is replaced in place, keeping its id. */
    method Update(id: Option<int>, body: Body, now: Timestamp) returns (o: Outcome)
      requires Valid()
      modifies this
      ensures Valid()
      ensures nextId == old(nextId) && issued == old(issued)
      ensures |transactions| == |old(transactions)|
      ensures FindIndex(old(transactions), id) < 0 ==>
        o == NotFound && transactions == old(transactions)
      ensures 0 <= FindIndex(old(transactions), id) && !HasRequired(body) ==>
        o == BadRequest(RequiredMessage, None) && transactions == old(transactions)
      ensures 0 <= FindIndex(old(transactions), id) && HasRequired(body) ==>
        var i := FindIndex(old(transactions), id);
        && transactions == old(transactions)[i := Revise(old(transactions)[i], body, now)]
        && transactions[i].id == id.value
        && o == Updated(transactions[i], StatsOf(transactions))
    {
      var i := FindIndex(transactions, id);
      if i < 0 {
        o := NotFound;
        return;
      }
      if !HasRequired(body) {
        o := BadRequest(RequiredMessage, None);
        return;
      }
      var revised := Revise(transactions[i], body, now);
      ReplaceKeepsIds(transactions, i, revised, nextId, issued);
      transactions := transactions[i := revised];
      o := Updated(transactions[i], StatsOf(transactions));
    }

    /** DELETE /api/transactions/:id: an unknown id is 404; otherwise the list
        is replaced by its filter without that id. */
    method Delete(id: Option<int>) returns (o: Outcome)
      requires Valid()
      modifies this
      ensures Valid()
      ensures nextId == old(nextId) && issued == old(issued)
      ensures FindIndex(old(transactions), id) < 0 ==>
        o == NotFound && transactions == old(transactions)
      ensures 0 <= FindIndex(old(transactions), id) ==>
        var i := FindIndex(old(transactions), id);
        && transactions == old(transactions)[..i] + old(transactions)[i + 1..]
        && (forall t :: t in transactions ==> t.id != id.value)
        && o == Deleted(StatsOf(transactions))
    {
      var i := FindIndex(transactions, id);
      if i < 0 {
        o := NotFound;
        return;
      }
      WithoutAt(transactions, i);
      WithoutKeepsIds(transactions, id.value, nextId, issued);
      transactions := Without(transactions, id.value);
      o := Deleted(StatsOf(transactions));
    }
  }

  /** A POST of a valid body followed by a DELETE of the id it returned leaves
      the store's records as they were and reports the stats of before. */
  method AddThenDelete(store: Store, body: Body, now: Timestamp) returns (created: Outcome, deleted: Outcome)
    requires store.Valid() && CheckNew(body).Accepted?
    modifies store
    ensures store.Valid()
    ensures created.Created? && Status(created) == 201
    ensures store.transactions == old(store.transactions)
    ensures deleted == Deleted(StatsOf(old(store.transactions)))
    ensures store.nextId == old(store.nextId) + 1
  {
    ghost var before := store.transactions;
    created := store.Add(body, now);
    FindAppended(before, created.txn);
    deleted := store.Delete(Some(created.txn.id));
  }

  /** The two request bodies of `CreditThenDebit`. */
  const Salary := Body(Some(100), Some(Credit), Some("salary"), None)
  const Food := Body(Some(50), Some(Debit), Some("food"), None)

  /** Both bodies pass POST's validation, and the list holding the record
      built from each (ids 1 and 2) filters to the credit and totals to
      100, 50 and 50. */
  lemma CreditThenDebitList(now: Timestamp)
    ensures CheckNew(Salary).Accepted? && CheckNew(Food).Accepted?
    ensures var c, d := NewTxn(1, Salary, now), NewTxn(2, Food, now);
      && Select([] + [c] + [d], Some(Credit)) == [c]
      && StatsOf([] + [c] + [d]) == Stats(100, 50, 50)
  {
    var c, d := NewTxn(1, Salary, now), NewTxn(2, Food, now);
    assert [] + [c] + [d] == [c, d];
    CreditAndDebit(c, d);
  }

  /** A fresh store given a credit of 100 and a debit of 50: listing with
      `type=credit` answers the credit alone, and the stats are 100, 50, 50. */
  method CreditThenDebit(now: Timestamp) returns (listed: Outcome, report: Outcome)
    ensures listed.Listed? && |listed.items| == 1
    ensures listed.items[0].kind == Credit && listed.items[0].amount == 100 && listed.items[0].id == 1
    ensures report == Report(Stats(100, 50, 50))
  {
    CreditThenDebitList(now);
    var store := new Store();
    var credit := store.Add(Salary, now);
    var debit := store.Add(Food, now);
    listed := store.List(Some(Credit));
    report := store.GetStats();
  }
}
