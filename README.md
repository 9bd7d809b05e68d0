# Expense-tracker ledger, modelled in Dafny

The expense-tracker server keeps every transaction in memory. It holds a
module-level array `transactions` and an id counter `transactionIdCounter`,
which starts at 1. It answers five routes under `/api/transactions`:

- GET list, with an optional `type` filter;
- GET stats: credit total, debit total and balance;
- POST a new transaction;
- PUT a new version of a transaction, by id;
- DELETE a transaction, by id.

This project models that store and those handlers. It proves what each
handler returns and how it changes the store.

- `ledger.dfy`, module `Ledger`:
  - the record `Txn` and the parsed request `Body`;
  - the validation of POST and PUT;
  - the record built by POST and the one built by PUT;
  - `Filter`, which is `Array.prototype.filter` over records, and its
    instances for the type filter and for delete;
  - `FindIndex`, which is `findIndex` by id;
  - the invariants of the stored list and the lemmas that keep them.
- `stats.dfy`, module `Aggregates`: the `filter`/`reduce` totals, the stats
  record, and how each mutation moves the totals.
- `server.dfy`, module `Server`:
  - the class `Store` with the two state variables;
  - one method per route, each returning an `Outcome`, which is the response
    and its status code;
  - two client methods, built only from the handlers' contracts.

Modelling choices:

- The record field `type` is called `kind`, because `type` is a Dafny
  keyword.
- Amounts are integers in minor currency units.
- A request field that is absent is `None`. JavaScript truthiness is written
  out: an amount is falsy when absent or 0, and a string when absent or
  empty.
- The path id is the already-parsed `Option<int>`. `None` stands for
  `parseInt` giving NaN, which never equals a stored id.
- The clock is a `Timestamp` parameter.

Store invariant (`Store.Valid`, which is `Ledger.Consistent` over the three fields):

- ids strictly increase in array order, so they are unique;
- every id lies in `[1, nextId)`;
- a ghost set `issued` records every id ever handed out, deleted ones
  included, and stays below the counter. POST proves that its new id is not
  in `issued`, so ids are never reused.

Points where `server.js` is looser or narrower than its routes suggest, and the
model follows `server.js`:

- PUT checks only that amount, type and category are present (not falsy).
  It does not check that the amount is positive. A PUT with amount -5 is
  accepted and stored.
- `type` is not restricted to `credit`/`debit`. A record of any other type
  is stored, listed, and left out of both totals.
- There is no `GET /api/transactions/:id` route, so none is modelled.
- The replies have different shapes. POST answers `{success, data:
  {transaction, stats}}` with status 201. PUT answers `{transaction, stats}`.
  DELETE answers `{stats}`. POST's 400 carries `error: "Validation Error"`
  and a `message`. PUT's 400 carries the message text as `error`.
  `Outcome.BadRequest(error, message)` keeps each of these.

## Model

| member | source | states |
|---|---|---|
| `Ledger.HasRequired` | server.js:64 | the required fields are present exactly when the amount is neither absent nor 0, and type and category are neither absent nor empty (the same test guards PUT at server.js:131) |
| `Ledger.DescriptionOrEmpty` | server.js:83 | a present, non-empty description is kept; an absent or empty one defaults to the empty string |
| `Ledger.CheckNew` | server.js:64-76 | POST accepts exactly when amount > 0 and type and category are non-empty. Required-fields message exactly when a field is missing or falsy (amount 0 included). Positive-number message exactly when the fields are present and the amount is negative |
| `Ledger.NewTxn` | server.js:78-85 | the created record has the given id and date, the body's amount, type and category, and the defaulted description |
| `Ledger.Revise` | server.js:135-142 | the revised record keeps the old id and takes the new date. It equals the record POST would build from the same body with that id, so every field but the id is replaced |
| `Ledger.AppendKeepsIds` | server.js:79-87 | appending a record whose id is the counter keeps the store invariant with the counter incremented and the id added to the issued ids. That id is above every stored id and was never issued before |
| `Ledger.ReplaceKeepsIds` | server.js:135-142 | replacing the record at an index by one with the same id keeps the store invariant, counter and issued ids unchanged |
| `Ledger.Filter` | server.js:27 | the result is no longer than the input and holds exactly the input's records that the predicate accepts |
| `Ledger.OfType` | server.js:27 | holds exactly the records whose type equals the given one |
| `Ledger.Without` | server.js:179 | holds exactly the records whose id differs from the given one |
| `Ledger.ShowsAll` | server.js:26 | the whole list is shown exactly when the `type` value is absent, empty or `all` |
| `Ledger.Select` | server.js:23-28 | an absent, empty or `all` filter returns the whole list; any other filter returns exactly the records of that type |
| `Ledger.FilterAppend` | server.js:27 | filtering distributes over concatenation, so the records come out in their original relative order |
| `Ledger.FilterKeepsAll` | server.js:179 | a filter that accepts every record returns the list unchanged |
| `Ledger.HeadBelowFilteredTail` | server.js:27 | in a list with increasing ids, the first id is below every id that survives filtering the rest |
| `Ledger.FilterKeepsOrder` | server.js:27 | filtering a list with increasing ids gives a list with increasing ids |
| `Ledger.SelectKeepsOrder` | server.js:24-27 | the list route keeps the stored order: its answer has increasing ids |
| `Ledger.FilterDropsSingle` | server.js:179 | filtering a one-record list whose record is rejected gives the empty list |
| `Ledger.FilterDropsOne` | server.js:179 | a filter that rejects one record and keeps all the others returns the list without that record, the rest in order |
| `Ledger.WithoutAt` | server.js:173-179 | with unique, increasing ids, removing the id at index i gives exactly the records before i followed by those after i |
| `Ledger.WithoutAbsent` | server.js:179 | removing an id that no record carries changes nothing |
| `Ledger.WithoutKeepsIds` | server.js:179 | removing the records with an id keeps the store invariant, counter and issued ids unchanged |
| `Ledger.FindIndex` | server.js:125 | -1 exactly when the id did not parse or no record carries it. Otherwise an in-range index whose record has that id, with no earlier record having it |
| `Ledger.FindAppended` | server.js:173 | a record appended with an id above all stored ones is found at the last index, and removing that index gives back the list before the append |
| `Aggregates.Sum` | server.js:41 | the reduce of an empty list is its initial value 0; with positive amounts the sum is at least the number of records |
| `Aggregates.Total` | server.js:39-45 | with positive amounts the total of a type is never negative; `TotalIsSumOfContributions` proves it equal to the running sum of contributions |
| `Aggregates.StatsOf` | server.js:39-47 | balance is creditTotal minus debitTotal |
| `Aggregates.SumAppend` | server.js:41 | the reduce sum is additive over concatenation |
| `Aggregates.TotalAppend` | server.js:39-45 | the total of a type is additive over concatenation |
| `Aggregates.TotalSingle` | server.js:39-41 | a one-record list totals to that record's amount if its type matches, else 0 |
| `Aggregates.TotalIsSumOfContributions` | server.js:39-45 | on every list, the filter-then-reduce total equals the reference definition `SumOfContributions`, which adds each record's contribution (its amount if its type matches, else 0) in one pass, without filtering |
| `Aggregates.TotalAfterAppend` | server.js:87-97 | appending a record raises the total of its type by its amount and leaves the other totals |
| `Aggregates.TotalAfterRemove` | server.js:179-189 | removing the record at i lowers the total of its type by its amount |
| `Aggregates.TotalAfterReplace` | server.js:135-152 | replacing the record at i removes its old contribution and adds the new one |
| `Aggregates.StatsAfterAppend` | server.js:87-99 | after a POST, creditTotal grows by a credit's amount and debitTotal by a debit's. A record of any other type leaves the stats unchanged |
| `Aggregates.StatsAfterRemove` | server.js:179-191 | after a DELETE, each total drops by the removed record's contribution |
| `Aggregates.StatsAfterReplace` | server.js:135-154 | after a PUT, each total changes by the new contribution minus the old |
| `Aggregates.TotalSign` | server.js:39-45 | when every amount is positive, each total is non-negative and is 0 exactly when no record has that type |
| `Aggregates.AddThenDeleteRestores` | server.js:170-191 | deleting a record just appended with an id above all others gives back the previous list, and so the previous stats |
| `Aggregates.CreditAndDebit` | server.js:26-47 | for a credit followed by a debit, `type=credit` selects the credit alone, and the stats are the credit's amount, the debit's amount and their difference |
| `Server.Status` | server.js:101 | 201 exactly for a creation (server.js:101); 400 exactly for a validation failure (server.js:65, 132); 404 exactly for an unknown id (server.js:128, 176); 200 exactly for the list, stats, update and delete replies, which use `res.json` (server.js:30, 49, 156, 193) |
| `Server.Store.constructor` | server.js:16-18 | the store starts empty with the counter at 1 |
| `Server.Store.List` | server.js:21-35 | answers 200 with `Select` of the current list, which has increasing ids |
| `Server.Store.GetStats` | server.js:37-58 | answers the stats of the current list, whose balance is credit minus debit |
| `Server.Store.Add` | server.js:60-119 | 400 leaves the store unchanged; 201 appends one record with id = old counter (above all stored ids, never issued before), counter + 1, new stats; invariant kept |
| `Server.Store.Update` | server.js:121-168 | 404 for an unknown id whatever the body, then 400 for missing fields, both with the store unchanged; otherwise only the found record is replaced by its revision, keeping id and position; counter unchanged |
| `Server.Store.Delete` | server.js:170-204 | 404 for an unknown id with the store unchanged; otherwise the records before and after the found index, none with that id, and the new stats; counter unchanged |
| `Server.AddThenDelete` | server.js:170-199 | a valid POST followed by a DELETE of the returned id restores the records and reports the stats of before, while the counter stays advanced |
| `Server.CreditThenDebitList` | server.js:60-111 | a credit body of 100 and a debit body of 50 both pass POST's validation, and the list of the records built from them with ids 1 and 2 selects to the credit under `type=credit` and has stats 100/50/50 |
| `Server.CreditThenDebit` | server.js:60-111 | after POSTing a credit of 100 and a debit of 50 on a fresh store, `type=credit` lists only the credit (id 1) and the stats are 100/50/50 |

In more detail, the three mutating handlers promise:

- `Server.Store.Add`:
  - A rejected body gives 400 with the validation message. The records, the
    counter and the issued ids are unchanged.
  - An accepted body appends exactly one record and leaves the earlier
    records as they were.
  - The new record's id is the old counter. It is above every stored id
    and was never issued before.
  - The counter goes up by exactly one.
  - The reply carries the new stats.
  - The invariant is kept.
- `Server.Store.Update`:
  - An unknown id gives 404 with the store unchanged, whatever the body.
  - A known id with missing fields gives 400 with the store unchanged.
  - Otherwise only the record at the found index is replaced by its
    revision. It keeps its id and its position.
  - The counter is unchanged and the invariant is kept.
- `Server.Store.Delete`:
  - An unknown id gives 404 with the store unchanged.
  - Otherwise the list becomes the records before the found index followed
    by those after it. No remaining record has that id.
  - The counter is unchanged, the reply carries the new stats, and the
    invariant is kept.

## Left out

- `saveData()` (server.js:88, 143, 180) is called but is not defined in the
  file. At run time it would throw after the mutation, and the catch block
  would answer 500 while the change stands. Persistence is not modelled, so
  this failure path is not either.
- The try/catch 500 replies and `console.error` logging (server.js:31-34,
  54-57, 112-118, 164-167, 200-203) are left out. They are generic
  internal-failure handling.
- JavaScript number semantics are left out:
  - floating-point amounts and their rounding in the sums;
  - `parseFloat` and `isNaN` on string amounts;
  - truthiness of non-string values;
  - `parseInt` of the path id.

  The model takes already-parsed values: an integer amount or `None`, and an
  `Option<int>` id.
- `CheckNew`: an amount given as a non-numeric string (truthy, and rejected
  by `isNaN`) is not representable in `Body`. Neither is such a string on
  PUT, where it would be stored as `parseFloat`'s result.
- `new Date().toISOString()` is a `Timestamp` parameter, not a clock.
- Express, CORS, JSON middleware, static file serving and `app.listen`
  (server.js:1-14, 206-212) are framework plumbing. JSON serialisation of
  the replies is replaced by the `Outcome` datatype.
- A `type` query value given more than once (which Express parses to an
  array) is not representable in the `Option<string>` filter.
- `app.js` is browser DOM and `fetch` code. That includes its fallback stats
  computation, which repeats the server's reduction, and a request for a
  single transaction, which the server does not serve. It is not part of
  this model.
- Concurrency is left out. The server runs each handler to completion on one
  thread, and the model's methods are sequential.
