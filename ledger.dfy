/** Transaction records of the expense-tracker server, the request bodies that
    create and revise them, the checks the handlers apply to those bodies,
    and the array operations the handlers use on the list of records
    (`filter` and `findIndex`). */
module Ledger {

  datatype Option<T> = None | Some(value: T)

  /** The ISO-8601 text of `new Date().toISOString()`; the clock is a parameter. */
  type Timestamp = string

  const Credit: string := "credit"
  const Debit: string := "debit"
  /** The list filter value that selects every record. */
  const All: string := "all"

  const ValidationError: string := "Validation Error"
  const RequiredMessage: string := "Amount, type, and category are required"
  const PositiveMessage: string := "Amount must be a positive number"

  /** One stored transaction. `kind` is the record's `type` field; `amount` is
      in minor currency units. */
  datatype Txn = Txn(
    id: int,
    amount: int,
    kind: string,
    category: string,
    description: string,
    date: Timestamp)

  /** A parsed JSON request body of POST and PUT. A field that is absent is
      `None`; `amount` holds the number already parsed. */
  datatype Body = Body(
    amount: Option<int>,
    kind: Option<string>,
    category: Option<string>,
    description: Option<string>)

  /** JavaScript truthiness of an optional string: present and not empty. */
  predicate Truthy(s: Option<string>)
  {
    s.Some? && s.value != ""
  }

  /** The test `!amount || !type || !category` that both POST and PUT apply,
      negated: 0 and an absent amount are falsy. */
  predicate HasRequired(b: Body)
    ensures HasRequired(b) <==>
      && b.amount !in {None, Some(0)}
      && b.kind !in {None, Some("")}
      && b.category !in {None, Some("")}
  {
    b.amount.Some? && b.amount.value != 0 && Truthy(b.kind) && Truthy(b.category)
  }

  /** `description || ''` */
  function DescriptionOrEmpty(d: Option<string>): (r: string)
    ensures Truthy(d) ==> r == d.value
    ensures !Truthy(d) ==> r == ""
  {
    if d.Some? then d.value else ""
  }

  /** Outcome of validating a body. */
  datatype Check = Accepted | Rejected(message: string)

  /** The two validation steps of POST: required fields first, then a
      positive amount. */
  function CheckNew(b: Body): (c: Check)
    ensures c.Accepted? <==>
      b.amount.Some? && b.amount.value > 0 && Truthy(b.kind) && Truthy(b.category)
    ensures c == Rejected(RequiredMessage) <==> !HasRequired(b)
    ensures c == Rejected(PositiveMessage) <==> HasRequired(b) && b.amount.value < 0
  {
    if !HasRequired(b) then Rejected(RequiredMessage)
    else if b.amount.value <= 0 then Rejected(PositiveMessage)
    else Accepted
  }

  /** The record POST appends: the given fields, the next id and the clock. */
  function NewTxn(id: int, b: Body, now: Timestamp): (t: Txn)
    requires HasRequired(b)
    ensures t.id == id && t.date == now
    ensures t.amount == b.amount.value && t.kind == b.kind.value && t.category == b.category.value
    ensures t.description == DescriptionOrEmpty(b.description)
  {
    Txn(id, b.amount.value, b.kind.value, b.category.value, DescriptionOrEmpty(b.description), now)
  }

  /** The record PUT stores: `{...old, amount, type, category, description, date}`,
      so every field but the id is replaced. */
  function Revise(prev: Txn, b: Body, now: Timestamp): (t: Txn)
    requires HasRequired(b)
    ensures t.id == prev.id && t.date == now
    ensures t == NewTxn(prev.id, b, now)
  {
    prev.(amount := b.amount.value, kind := b.kind.value, category := b.category.value,
          description := DescriptionOrEmpty(b.description), date := now)
  }

  // ---------------------------------------------------------------------------
  // Invariants of the stored list

  /** Ids strictly increase in array order (hence they are unique). */
  ghost predicate IdsIncreasing(s: seq<Txn>)
  {
    forall i, j :: 0 <= i < j < |s| ==> s[i].id < s[j].id
  }

  /** Every id lies in [1, bound). */
  ghost predicate IdsBelow(s: seq<Txn>, bound: int)
  {
    forall t :: t in s ==> 1 <= t.id < bound
  }

  /** Every id belongs to the given set of issued ids. */
  ghost predicate IdsIn(s: seq<Txn>, ids: set<int>)
  {
    forall t :: t in s ==> t.id in ids
  }

  ghost predicate AllPositive(s: seq<Txn>)
  {
    forall t :: t in s ==> t.amount > 0
  }

  /** The store's invariant over its list, its id counter `next` and the
      set of ids ever issued: ids increase, each lies in [1, next) and was
      issued, and every issued id lies in [1, next). */
  ghost predicate Consistent(s: seq<Txn>, next: int, ids: set<int>)
  {
    && 1 <= next
    && IdsIncreasing(s)
    && IdsBelow(s, next)
    && IdsIn(s, ids)
    && forall id :: id in ids ==> 1 <= id < next
  }

  /** Appending a record whose id is the counter (POST) keeps the invariant
      with the counter incremented and the id issued; that id is above every
      stored one and was never issued before. */
  lemma AppendKeepsIds(s: seq<Txn>, t: Txn, next: int, ids: set<int>)
    requires Consistent(s, next, ids) && t.id == next
    ensures Consistent(s + [t], next + 1, ids + {t.id})
    ensures IdsBelow(s, t.id) && t.id !in ids
  {
  }

  /** Replacing a record by one with the same id (PUT) keeps the
      invariant. */
  lemma ReplaceKeepsIds(s: seq<Txn>, i: int, t: Txn, bound: int, ids: set<int>)
    requires 0 <= i < |s| && t.id == s[i].id
    requires Consistent(s, bound, ids)
    ensures Consistent(s[i := t], bound, ids)
  {
    assert s[i] in s;
    forall u | u in s[i := t] ensures 1 <= u.id < bound && u.id in ids {
      var k :| 0 <= k < |s| && s[i := t][k] == u;
      assert k != i ==> s[k] in s;
    }
  }

  // ---------------------------------------------------------------------------
  // Array.prototype.filter

  /** `s.filter(keep)`: the records `keep` accepts, in their order. */
  function Filter(s: seq<Txn>, keep: Txn -> bool): (r: seq<Txn>)
    ensures |r| <= |s|
    ensures forall t :: t in r <==> t in s && keep(t)
  {
    if s == [] then []
    else (if keep(s[0]) then [s[0]] else []) + Filter(s[1..], keep)
  }

  /** `t => t.type === kind` */
  function KindIs(kind: string): (keep: Txn -> bool)
  {
    (t: Txn) => t.kind == kind
  }

  /** `t => t.id !== id` */
  function IdIsNot(id: int): (keep: Txn -> bool)
  {
    (t: Txn) => t.id != id
  }

  /** The records of one type, in their order. */
  function OfType(s: seq<Txn>, kind: string): (r: seq<Txn>)
    ensures forall t :: t in r <==> t in s && t.kind == kind
  {
    Filter(s, KindIs(kind))
  }

  /** The list without the records carrying `id`. */
  function Without(s: seq<Txn>, id: int): (r: seq<Txn>)
    ensures forall t :: t in r <==> t in s && t.id != id
  {
    Filter(s, IdIsNot(id))
  }

  /** True unless the list filter selects one type: absent, empty or "all". */
  predicate ShowsAll(filter: Option<string>)
    ensures ShowsAll(filter) <==> filter in {None, Some(""), Some(All)}
  {
    !Truthy(filter) || filter.value == All
  }

  /** The records GET /api/transactions returns for the `type` query value. */
  function Select(s: seq<Txn>, filter: Option<string>): (r: seq<Txn>)
    ensures ShowsAll(filter) ==> r == s
    ensures !ShowsAll(filter) ==> forall t :: t in r <==> t in s && t.kind == filter.value
  {
    if ShowsAll(filter) then s else OfType(s, filter.value)
  }

  lemma {:induction false} FilterAppend(a: seq<Txn>, b: seq<Txn>, keep: Txn -> bool)
    ensures Filter(a + b, keep) == Filter(a, keep) + Filter(b, keep)
  {
    if a == [] {
      assert a + b == b;
    } else {
      assert (a + b)[0] == a[0];
      assert (a + b)[1..] == a[1..] + b;
      FilterAppend(a[1..], b, keep);
    }
  }

  /** A filter that keeps every record returns the list itself. */
  lemma {:induction false} FilterKeepsAll(s: seq<Txn>, keep: Txn -> bool)
    requires forall k :: 0 <= k < |s| ==> keep(s[k])
    ensures Filter(s, keep) == s
  {
    if s != [] {
      assert keep(s[0]);
      FilterKeepsAll(s[1..], keep);
      assert [s[0]] + s[1..] == s;
    }
  }

  /** Every record a filter returns comes from the list, so with increasing
      ids the head's id is below all of them. */
  lemma HeadBelowFilteredTail(s: seq<Txn>, keep: Txn -> bool)
    requires IdsIncreasing(s) && s != []
    ensures forall t :: t in Filter(s[1..], keep) ==> s[0].id < t.id
  {
    forall t | t in Filter(s[1..], keep) ensures s[0].id < t.id {
      var k :| 0 <= k < |s[1..]| && s[1..][k] == t;
      assert s[k + 1] == t;
    }
  }

  /** Filtering keeps the relative order: increasing ids stay increasing. */
  lemma {:induction false} FilterKeepsOrder(s: seq<Txn>, keep: Txn -> bool)
    requires IdsIncreasing(s)
    ensures IdsIncreasing(Filter(s, keep))
  {
    if s != [] {
      var rest := Filter(s[1..], keep);
      FilterKeepsOrder(s[1..], keep);
      HeadBelowFilteredTail(s, keep);
      var r := Filter(s, keep);
      if keep(s[0]) {
        assert r == [s[0]] + rest;
        forall i, j | 0 <= i < j < |r| ensures r[i].id < r[j].id {
          assert r[j] == rest[j - 1] && rest[j - 1] in rest;
          if 0 < i {
            assert r[i] == rest[i - 1];
          }
        }
      } else {
        assert r == rest;
      }
    }
  }

  /** The list filter keeps the original order of the records it returns. */
  lemma SelectKeepsOrder(s: seq<Txn>, filter: Option<string>)
    requires IdsIncreasing(s)
    ensures IdsIncreasing(Select(s, filter))
  {
    if !ShowsAll(filter) {
      FilterKeepsOrder(s, KindIs(filter.value));
    }
  }

  /** A filter that rejects exactly one record in the middle of a list. */
  lemma FilterDropsOne(before: seq<Txn>, x: Txn, after: seq<Txn>, keep: Txn -> bool)
    requires forall k :: 0 <= k < |before| ==> keep(before[k])
    requires forall k :: 0 <= k < |after| ==> keep(after[k])
    requires !keep(x)
    ensures Filter(before + [x] + after, keep) == before + after
  {
    var withX := before + [x];
    FilterAppend(withX, after, keep);
    FilterAppend(before, [x], keep);
    FilterKeepsAll(before, keep);
    FilterKeepsAll(after, keep);
    FilterDropsSingle(x, keep);
    assert Filter(withX, keep) == before;
  }

  lemma FilterDropsSingle(x: Txn, keep: Txn -> bool)
    requires !keep(x)
    ensures Filter([x], keep) == []
  {
  }

  /** Removing the one record with a given id leaves the others, in order:
      what `transactions.filter(t => t.id !== id)` does to a list of unique ids. */
  lemma WithoutAt(s: seq<Txn>, i: int)
    requires IdsIncreasing(s) && 0 <= i < |s|
    ensures Without(s, s[i].id) == s[..i] + s[i + 1..]
  {
    var id := s[i].id;
    var before, after := s[..i], s[i + 1..];
    assert s == before + [s[i]] + after;
    forall k | 0 <= k < |before| ensures IdIsNot(id)(before[k]) {
      assert before[k] == s[k];
    }
    forall k | 0 <= k < |after| ensures IdIsNot(id)(after[k]) {
      assert after[k] == s[i + 1 + k];
    }
    FilterDropsOne(before, s[i], after, IdIsNot(id));
  }

  /** Removing an id that no record carries changes nothing. */
  lemma WithoutAbsent(s: seq<Txn>, id: int)
    requires forall t :: t in s ==> t.id != id
    ensures Without(s, id) == s
  {
    assert forall k :: 0 <= k < |s| ==> s[k] in s;
    FilterKeepsAll(s, IdIsNot(id));
  }

  /** Removing the records with an id (DELETE) keeps the invariant. */
  lemma WithoutKeepsIds(s: seq<Txn>, id: int, bound: int, ids: set<int>)
    requires Consistent(s, bound, ids)
    ensures Consistent(Without(s, id), bound, ids)
  {
    FilterKeepsOrder(s, IdIsNot(id));
  }

  // ---------------------------------------------------------------------------
  // Array.prototype.findIndex

  /** `transactions.findIndex(t => t.id === id)`: the first position holding
      the id, or -1. An id that did not parse (`None`, JavaScript's NaN) is
      never found. */
  function FindIndex(s: seq<Txn>, id: Option<int>): (r: int)
    ensures -1 <= r < |s|
    ensures r == -1 <==> id.None? || forall t :: t in s ==> t.id != id.value
    ensures 0 <= r ==> id.Some? && s[r].id == id.value
    ensures 0 <= r ==> forall j :: 0 <= j < r ==> s[j].id != id.value
  {
    if id.None? || s == [] then -1
    else if s[0].id == id.value then 0
    else
      var k := FindIndex(s[1..], id);
      assert forall t :: t in s ==> t == s[0] || t in s[1..];
      if k < 0 then -1 else k + 1
  }

  /** A record appended with an id above every stored one is found at the
      end, and removing that index gives back the list before the append. */
  lemma FindAppended(s: seq<Txn>, t: Txn)
    requires IdsBelow(s, t.id)
    ensures FindIndex(s + [t], Some(t.id)) == |s|
    ensures (s + [t])[..|s|] + (s + [t])[|s| + 1..] == s
  {
    var r := s + [t];
    forall j | 0 <= j < |s| ensures r[j].id != t.id {
      assert r[j] == s[j] && s[j] in s;
    }
    assert r[|s| + 1..] == [] && r[..|s|] == s;
  }
}
