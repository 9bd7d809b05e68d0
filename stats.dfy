/** The totals the server reports: for each type, the sum of the amounts of
    the records of that type (`filter` then `reduce`), and the balance. */
module Aggregates {
  import opened Ledger

  datatype Stats = Stats(creditTotal: int, debitTotal: int, balance: int)

  /** `s.reduce((sum, t) => sum + t.amount, 0)`: 0 for no records, and with
      positive amounts at least one unit per record. */
  function Sum(s: seq<Txn>): (r: int)
    ensures s == [] ==> r == 0
    ensures AllPositive(s) ==> r >= |s|
  {
    if s == [] then 0
    else
      assert forall t :: t in s[1..] ==> t in s;
      s[0].amount + Sum(s[1..])
  }

  /** What one record adds to the total of a type. */
  function Contribution(t: Txn, kind: string): (c: int)
  {
    if t.kind == kind then t.amount else 0
  }

  /** Reference definition of a total: the contributions of the records,
      added record by record over the whole list. */
  function SumOfContributions(s: seq<Txn>, kind: string): (r: int)
  {
    if s == [] then 0 else Contribution(s[0], kind) + SumOfContributions(s[1..], kind)
  }

  /** The sum of the amounts of the records of one type (`filter` then
      `reduce`); never negative while every amount is positive.
      `TotalIsSumOfContributions` ties it to the reference sum. */
  function Total(s: seq<Txn>, kind: string): (r: int)
    ensures AllPositive(s) ==> r >= 0
  {
    var matching := OfType(s, kind);
    assert AllPositive(s) ==> AllPositive(matching);
    Sum(matching)
  }

  /** Filtering by type and then summing adds up exactly the contributions:
      the total agrees with the reference definition on every list. */
  lemma {:induction false} TotalIsSumOfContributions(s: seq<Txn>, kind: string)
    ensures Total(s, kind) == SumOfContributions(s, kind)
  {
    if s != [] {
      TotalIsSumOfContributions(s[1..], kind);
      var rest := OfType(s[1..], kind);
      var head := if s[0].kind == kind then [s[0]] else [];
      assert OfType(s, kind) == head + rest;
      if s[0].kind == kind {
        assert (head + rest)[1..] == rest;
      } else {
        assert head + rest == rest;
      }
    }
  }

  /** The stats of GET /api/transactions/stats and of every mutating reply. */
  function StatsOf(s: seq<Txn>): (st: Stats)
    ensures st.balance == st.creditTotal - st.debitTotal
  {
    var credit := Total(s, Credit);
    var debit := Total(s, Debit);
    Stats(credit, debit, credit - debit)
  }

  lemma {:induction false} SumAppend(a: seq<Txn>, b: seq<Txn>)
    ensures Sum(a + b) == Sum(a) + Sum(b)
  {
    if a == [] {
      assert a + b == b;
    } else {
      assert (a + b)[1..] == a[1..] + b;
      SumAppend(a[1..], b);
    }
  }

  /** Totals are additive over concatenation. */
  lemma TotalAppend(a: seq<Txn>, b: seq<Txn>, kind: string)
    ensures Total(a + b, kind) == Total(a, kind) + Total(b, kind)
  {
    FilterAppend(a, b, KindIs(kind));
    SumAppend(OfType(a, kind), OfType(b, kind));
  }

  /** A one-record list totals to that record's contribution. */
  lemma TotalSingle(t: Txn, kind: string)
    ensures Total([t], kind) == Contribution(t, kind)
  {
    assert [t][1..] == [];
    var r := OfType([t], kind);
    assert r == (if KindIs(kind)(t) then [t] else []) + Filter([], KindIs(kind));
    if t.kind == kind {
      assert r == [t];
      assert Sum(r) == t.amount + Sum([t][1..]);
    } else {
      assert r == [];
    }
  }

  /** Appending a record (POST) moves each total by that record's contribution. */
  lemma TotalAfterAppend(s: seq<Txn>, t: Txn, kind: string)
    ensures Total(s + [t], kind) == Total(s, kind) + Contribution(t, kind)
  {
    TotalAppend(s, [t], kind);
    TotalSingle(t, kind);
  }

  /** Removing the record at i (DELETE) takes its contribution back out. */
  lemma TotalAfterRemove(s: seq<Txn>, i: int, kind: string)
    requires 0 <= i < |s|
    ensures Total(s[..i] + s[i + 1..], kind) == Total(s, kind) - Contribution(s[i], kind)
  {
    var before, after := s[..i], s[i + 1..];
    var withI := before + [s[i]];
    assert s == withI + after;
    TotalAppend(withI, after, kind);
    TotalAfterAppend(before, s[i], kind);
    TotalAppend(before, after, kind);
  }

  /** Replacing the record at i (PUT) swaps its contribution for the new one's. */
  lemma TotalAfterReplace(s: seq<Txn>, i: int, t: Txn, kind: string)
    requires 0 <= i < |s|
    ensures Total(s[i := t], kind) == Total(s, kind) - Contribution(s[i], kind) + Contribution(t, kind)
  {
    var before, after := s[..i], s[i + 1..];
    var withT := before + [t];
    assert s[i := t] == withT + after;
    TotalAppend(withT, after, kind);
    TotalAfterAppend(before, t, kind);
    TotalAfterRemove(s, i, kind);
    TotalAppend(before, after, kind);
  }

  /** The effect of a POST on the stats: the credit total grows by a credit's
      amount, the debit total by a debit's, and a record of any other type
      changes nothing. */
  lemma StatsAfterAppend(s: seq<Txn>, t: Txn)
    ensures StatsOf(s + [t]).creditTotal == StatsOf(s).creditTotal + Contribution(t, Credit)
    ensures StatsOf(s + [t]).debitTotal == StatsOf(s).debitTotal + Contribution(t, Debit)
    ensures t.kind != Credit && t.kind != Debit ==> StatsOf(s + [t]) == StatsOf(s)
  {
    TotalAfterAppend(s, t, Credit);
    TotalAfterAppend(s, t, Debit);
  }

  /** The effect of a DELETE of the record at i on the stats. */
  lemma StatsAfterRemove(s: seq<Txn>, i: int)
    requires 0 <= i < |s|
    ensures StatsOf(s[..i] + s[i + 1..]).creditTotal == StatsOf(s).creditTotal - Contribution(s[i], Credit)
    ensures StatsOf(s[..i] + s[i + 1..]).debitTotal == StatsOf(s).debitTotal - Contribution(s[i], Debit)
  {
    TotalAfterRemove(s, i, Credit);
    TotalAfterRemove(s, i, Debit);
  }

  /** The effect of a PUT that replaces the record at i on the stats. */
  lemma StatsAfterReplace(s: seq<Txn>, i: int, t: Txn)
    requires 0 <= i < |s|
    ensures StatsOf(s[i := t]).creditTotal
         == StatsOf(s).creditTotal - Contribution(s[i], Credit) + Contribution(t, Credit)
    ensures StatsOf(s[i := t]).debitTotal
         == StatsOf(s).debitTotal - Contribution(s[i], Debit) + Contribution(t, Debit)
  {
    TotalAfterReplace(s, i, t, Credit);
    TotalAfterReplace(s, i, t, Debit);
  }

  /** With positive amounts every total is non-negative, and it is zero
      exactly when no record has that type. */
  lemma {:induction false} TotalSign(s: seq<Txn>, kind: string)
    requires AllPositive(s)
    ensures Total(s, kind) >= 0
    ensures Total(s, kind) == 0 <==> forall t :: t in s ==> t.kind != kind
  {
    if s != [] {
      assert s[0] in s;
      assert forall t :: t in s[1..] ==> t in s;
      TotalSign(s[1..], kind);
      TotalIsSumOfContributions(s, kind);
      TotalIsSumOfContributions(s[1..], kind);
      assert forall t :: t in s ==> t == s[0] || t in s[1..];
    }
  }

  /** Adding a record and then deleting it restores the list, so GET stats
      answers as it did before the POST. */
  lemma AddThenDeleteRestores(s: seq<Txn>, t: Txn)
    requires forall u :: u in s ==> u.id < t.id
    ensures Without(s + [t], t.id) == s
    ensures StatsOf(Without(s + [t], t.id)) == StatsOf(s)
  {
    var keep := IdIsNot(t.id);
    FilterAppend(s, [t], keep);
    WithoutAbsent(s, t.id);
    FilterDropsSingle(t, keep);
    assert s + [] == s;
  }

  /** A credit followed by a debit: filtering by `credit` keeps the credit
      alone, and the stats are the credit, the debit and their difference. */
  lemma CreditAndDebit(c: Txn, d: Txn)
    requires c.kind == Credit && d.kind == Debit
    ensures Select([c, d], Some(Credit)) == [c]
    ensures StatsOf([c, d]) == Stats(c.amount, d.amount, c.amount - d.amount)
  {
    assert [c, d] == [c] + [d];
    FilterAppend([c], [d], KindIs(Credit));
    assert Filter([c], KindIs(Credit)) == [c] + Filter([], KindIs(Credit));
    assert Filter([d], KindIs(Credit)) == [] + Filter([], KindIs(Credit));
    TotalIsSumOfContributions([c, d], Credit);
    TotalIsSumOfContributions([c, d], Debit);
    assert [c, d][1..] == [d] && [d][1..] == [];
  }
}
