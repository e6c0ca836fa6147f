/**
 The row filters behind `findFrom`, `findMonthly` and `findFull`, over an
 in-memory table. Each keeps the matching rows in table order.
 */
module Queries {
  import opened Transactions

  /** The rows of `rows` that satisfy `keep`, in their original order. */
  function Filter<T(!new)>(rows: seq<T>, keep: T -> bool): (r: seq<T>)
    ensures |r| <= |rows|
    ensures forall i :: 0 <= i < |r| ==> keep(r[i])
    ensures forall x :: x in r <==> x in rows && keep(x)
  {
    if |rows| == 0 then []
    else (if keep(rows[0]) then [rows[0]] else []) + Filter(rows[1..], keep)
  }

  /** Filtering keeps every occurrence of a kept value and drops every
      occurrence of any other. */
  lemma {:induction false} FilterCounts<T(!new)>(rows: seq<T>, keep: T -> bool)
    ensures forall x :: multiset(Filter(rows, keep))[x] == if keep(x) then multiset(rows)[x] else 0
  {
    if |rows| > 0 {
      assert rows == [rows[0]] + rows[1..];
      FilterCounts(rows[1..], keep);
    }
  }

  /** Filtering distributes over concatenation, so the selection keeps table order. */
  lemma {:induction false} FilterConcat<T(!new)>(a: seq<T>, b: seq<T>, keep: T -> bool)
    ensures Filter(a + b, keep) == Filter(a, keep) + Filter(b, keep)
  {
    if |a| == 0 {
      assert a + b == b;
    } else {
      var head := if keep(a[0]) then [a[0]] else [];
      var restA, restB := Filter(a[1..], keep), Filter(b, keep);
      assert (a + b)[0] == a[0];
      assert (a + b)[1..] == a[1..] + b;
      FilterConcat(a[1..], b, keep);
      assert Filter(a + b, keep) == head + (restA + restB);
      assert head + (restA + restB) == (head + restA) + restB;
    }
  }

  /** Rows of which no element is kept filter to nothing; rows of which every
      element is kept filter to themselves. */
  lemma {:induction false} FilterAllOrNothing<T(!new)>(rows: seq<T>, keep: T -> bool)
    ensures (forall i :: 0 <= i < |rows| ==> !keep(rows[i])) ==> Filter(rows, keep) == []
    ensures (forall i :: 0 <= i < |rows| ==> keep(rows[i])) ==> Filter(rows, keep) == rows
  {
    if |rows| > 0 {
      FilterAllOrNothing(rows[1..], keep);
    }
  }

  /** The `findFrom` condition: the account is the source, or it is the
      destination of a transfer. */
  predicate InvolvesAccount(t: Transaction, account: Id) {
    t.sourceAccountId == Some(account)
    || (t.destinationAccountId == Some(account) && t.kind == "transfer")
  }

  /** The `findFull` condition: the row's id is one of the requested ids. */
  predicate HasIdIn(t: Transaction, ids: seq<Id>) {
    t.id.Some? && t.id.value in ids
  }

  /** `findFrom(accountId)`. */
  function FindFrom(rows: seq<Transaction>, account: Id): (r: seq<Transaction>)
    ensures forall t :: t in r <==> t in rows && InvolvesAccount(t, account)
    ensures forall t :: multiset(r)[t] == if InvolvesAccount(t, account) then multiset(rows)[t] else 0
  {
    var keep := (t: Transaction) => InvolvesAccount(t, account);
    FilterCounts(rows, keep);
    Filter(rows, keep)
  }

  /** The `findMonthly` condition: the row is a recurring template. */
  predicate IsRecurring(t: Transaction) {
    t.isMonthly
  }

  /** `findMonthly`: the recurring templates. */
  function FindMonthly(rows: seq<Transaction>): (r: seq<Transaction>)
    ensures forall t :: t in r <==> t in rows && t.isMonthly
    ensures forall t :: multiset(r)[t] == if t.isMonthly then multiset(rows)[t] else 0
  {
    FilterCounts(rows, IsRecurring);
    Filter(rows, IsRecurring)
  }

  /** `findFull(ids)`: the rows whose id was requested; an empty request
      selects nothing. */
  function FindFull(rows: seq<Transaction>, ids: seq<Id>): (r: seq<Transaction>)
    ensures forall t :: t in r <==> t in rows && HasIdIn(t, ids)
    ensures forall t :: multiset(r)[t] == if HasIdIn(t, ids) then multiset(rows)[t] else 0
    ensures ids == [] ==> r == []
  {
    var keep := (t: Transaction) => HasIdIn(t, ids);
    FilterCounts(rows, keep);
    Filter(rows, keep)
  }
}
