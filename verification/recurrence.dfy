/**
 The write plans of `TransactionProxy.create` and `TransactionProxy.update`.

 A recurring draft whose anchor month lies in the past is expanded into one
 row per elapsed month: the first write (an insert on create, an update of the
 caller's row on update) keeps the anchor date as a one-off, every computed
 date gets a fresh insert without an id, and only the insert at the last date
 keeps the recurring flag. Each write carries a freshly built record; the
 caller's draft, which `TransactionProxy` mutates and shares between writes,
 is not modelled.
 */
module Recurrence {
  import opened Dates
  import opened Transactions
  import opened Queries

  /** The draft with the recurring flag cleared: the same row at the same
      date, no longer a template. */
  function OneOff(t: Transaction): (r: Transaction)
    ensures !r.isMonthly
    ensures r.id == t.id && r.date == t.date && SameContent(r, t)
  {
    t.(isMonthly := false)
  }

  /** `createIn`: the draft without its id, moved to `date`, flag untouched. */
  function CreateIn(t: Transaction, date: CalendarDate): (r: Transaction)
    ensures r.id == None && r.date == date
    ensures SameContent(r, t) && r.isMonthly == t.isMonthly
  {
    t.(id := None, date := date)
  }

  /** `createMonthlyIn`: as `createIn`, with the recurring flag set. */
  function CreateMonthlyIn(t: Transaction, date: CalendarDate): (r: Transaction)
    ensures r.id == None && r.date == date
    ensures SameContent(r, t) && r.isMonthly
  {
    CreateIn(t, date).(isMonthly := true)
  }

  /** What a correct expansion writes after its first write: one insert per
      date, in date order, of the draft's content without an id, flagged as
      recurring exactly at the last date. */
  predicate ClonesAt(writes: seq<Write>, t: Transaction, dates: seq<CalendarDate>) {
    |writes| == |dates|
    && forall k :: 0 <= k < |writes| ==>
         && writes[k].Insert?
         && writes[k].record.id == None
         && writes[k].record.date == dates[k]
         && SameContent(writes[k].record, t)
         && (writes[k].record.isMonthly <==> k == |dates| - 1)
  }

  /** The `dates.map(...)` step: `createIn` for every date but the last,
      `createMonthlyIn` for the last. Intermediate inserts keep the draft's
      flag, so they are one-offs exactly when the draft already is one. */
  function CloneInserts(t: Transaction, dates: seq<CalendarDate>): (writes: seq<Write>)
    ensures |writes| == |dates|
    ensures forall k :: 0 <= k < |writes| ==>
              && writes[k].Insert?
              && writes[k].record.id == None
              && writes[k].record.date == dates[k]
              && SameContent(writes[k].record, t)
              && (writes[k].record.isMonthly <==> t.isMonthly || k == |dates| - 1)
    ensures !t.isMonthly ==> ClonesAt(writes, t, dates)
  {
    seq(|dates|, i requires 0 <= i < |dates| =>
      if i < |dates| - 1 then Insert(CreateIn(t, dates[i])) else Insert(CreateMonthlyIn(t, dates[i])))
  }

  /** `createAndCloneOnce`: the draft inserted as a one-off at its own date,
      and one recurring insert at `date`. */
  function CreateAndCloneOnce(t: Transaction, date: CalendarDate): (plan: seq<Write>)
    ensures |plan| == 2
    ensures plan[0] == Insert(t.(isMonthly := false))
    ensures ClonesAt(plan[1..], t, [date])
  {
    [Insert(OneOff(t)), Insert(CreateMonthlyIn(OneOff(t), date))]
  }

  /** `createAndCloneManyTimes`: the draft inserted as a one-off at its own
      date, then the clones at `dates`. */
  function CreateAndCloneManyTimes(t: Transaction, dates: seq<CalendarDate>): (plan: seq<Write>)
    ensures |plan| == |dates| + 1
    ensures plan[0] == Insert(t.(isMonthly := false))
    ensures ClonesAt(plan[1..], t, dates)
  {
    [Insert(OneOff(t))] + CloneInserts(OneOff(t), dates)
  }

  /** `updateAndCloneOnce`: row `id` updated to the draft as a one-off, and
      one recurring insert at `date`. */
  function UpdateAndCloneOnce(t: Transaction, id: Id, date: CalendarDate): (plan: seq<Write>)
    ensures |plan| == 2
    ensures plan[0] == Update(id, t.(isMonthly := false))
    ensures ClonesAt(plan[1..], t, [date])
  {
    [Update(id, OneOff(t)), Insert(CreateMonthlyIn(OneOff(t), date))]
  }

  /** `updateAndCloneManyTimes`: row `id` updated to the draft as a one-off,
      then the clones at `dates`. */
  function UpdateAndCloneManyTimes(t: Transaction, id: Id, dates: seq<CalendarDate>): (plan: seq<Write>)
    ensures |plan| == |dates| + 1
    ensures plan[0] == Update(id, t.(isMonthly := false))
    ensures ClonesAt(plan[1..], t, dates)
  {
    [Update(id, OneOff(t))] + CloneInserts(OneOff(t), dates)
  }

  /** `createMonthly`: the first write inserts the draft as a one-off at its
      own date (keeping any id it carries), then the clones follow. With no
      dates only the one-off insert is left. */
  function CreateMonthly(t: Transaction, dates: seq<CalendarDate>): (plan: seq<Write>)
    ensures |plan| == |dates| + 1
    ensures plan[0] == Insert(t.(isMonthly := false))
    ensures ClonesAt(plan[1..], t, dates)
  {
    if |dates| == 1 then CreateAndCloneOnce(t, dates[0]) else CreateAndCloneManyTimes(t, dates)
  }

  /** `updateMonthly`: the first write updates row `id` to the draft as a
      one-off at its own date, then the clones follow. */
  function UpdateMonthly(t: Transaction, id: Id, dates: seq<CalendarDate>): (plan: seq<Write>)
    ensures |plan| == |dates| + 1
    ensures plan[0] == Update(id, t.(isMonthly := false))
    ensures ClonesAt(plan[1..], t, dates)
  {
    if |dates| == 1 then UpdateAndCloneOnce(t, id, dates[0]) else UpdateAndCloneManyTimes(t, id, dates)
  }

  /** Whether a draft is expanded: it is recurring and at least one month has
      elapsed since its date. */
  predicate Expands(t: Transaction, monthsElapsed: int) {
    t.isMonthly && monthsElapsed > 0
  }

  /** `create`: the writes for a new transaction, given the number of whole
      months between its date and now. */
  function CreateWrites(t: Transaction, monthsElapsed: int): (plan: seq<Write>)
    ensures |plan| == if Expands(t, monthsElapsed) then monthsElapsed + 1 else 1
    ensures forall i :: 0 <= i < |plan| ==> plan[i].Insert?
  {
    if t.isMonthly then
      var dates := Occurrences(t.date, monthsElapsed);
      if |dates| > 0 then CreateMonthly(t, dates) else [Insert(t)]
    else
      [Insert(t)]
  }

  /** `update`: the writes for an edit of row `id`. */
  function UpdateWrites(t: Transaction, id: Id, monthsElapsed: int): (plan: seq<Write>)
    ensures |plan| == if Expands(t, monthsElapsed) then monthsElapsed + 1 else 1
    ensures plan[0].Update? && plan[0].id == id
    ensures forall i :: 1 <= i < |plan| ==> plan[i].Insert?
  {
    if t.isMonthly then
      var dates := Occurrences(t.date, monthsElapsed);
      if |dates| > 0 then UpdateMonthly(t, id, dates) else [Update(id, t)]
    else
      [Update(id, t)]
  }

  /** A draft that is not expanded is inserted exactly as given, recurring
      flag included. */
  lemma PlainCreate(t: Transaction, monthsElapsed: int)
    requires !Expands(t, monthsElapsed)
    ensures CreateWrites(t, monthsElapsed) == [Insert(t)]
  {
  }

  /** An edit that is not expanded updates row `id` to the draft exactly as
      given: a recurring draft with no elapsed month stays recurring. */
  lemma PlainUpdate(t: Transaction, id: Id, monthsElapsed: int)
    requires !Expands(t, monthsElapsed)
    ensures UpdateWrites(t, id, monthsElapsed) == [Update(id, t)]
  {
  }

  /** An expanded create: a one-off insert at the anchor date, then one
      insert per occurrence date. */
  lemma CreateExpansion(t: Transaction, monthsElapsed: int)
    requires Expands(t, monthsElapsed)
    ensures var plan := CreateWrites(t, monthsElapsed);
      && |plan| == monthsElapsed + 1
      && plan[0] == Insert(t.(isMonthly := false))
      && ClonesAt(plan[1..], t, Occurrences(t.date, monthsElapsed))
  {
  }

  /** An expanded update: row `id` becomes a one-off at the anchor date, then
      one insert per occurrence date. */
  lemma UpdateExpansion(t: Transaction, id: Id, monthsElapsed: int)
    requires Expands(t, monthsElapsed)
    ensures var plan := UpdateWrites(t, id, monthsElapsed);
      && |plan| == monthsElapsed + 1
      && plan[0] == Update(id, t.(isMonthly := false))
      && ClonesAt(plan[1..], t, Occurrences(t.date, monthsElapsed))
  {
  }

  /** The special case for a single date writes what the general routine
      would write for a one-element date list. */
  lemma CloneOnceIsCloneManyTimes(t: Transaction, id: Id, date: CalendarDate)
    ensures CreateAndCloneOnce(t, date) == CreateAndCloneManyTimes(t, [date])
    ensures UpdateAndCloneOnce(t, id, date) == UpdateAndCloneManyTimes(t, id, [date])
  {
    assert CloneInserts(OneOff(t), [date]) == [Insert(CreateMonthlyIn(OneOff(t), date))];
  }

  /** In an expansion the only recurring record written is the last one, and
      it sits at the last occurrence date. */
  lemma OneRecurringRecord(t: Transaction, dates: seq<CalendarDate>, plan: seq<Write>)
    requires |dates| > 0
    requires |plan| == |dates| + 1
    requires !plan[0].record.isMonthly
    requires ClonesAt(plan[1..], t, dates)
    ensures FindMonthly(Records(plan)) == [plan[|dates|].record]
    ensures plan[|dates|].record.date == dates[|dates| - 1]
  {
    var n := |dates|;
    var rows := Records(plan);
    var clones := plan[1..];
    assert clones[n - 1] == plan[n];
    forall i | 1 <= i < n
      ensures !rows[i].isMonthly
    {
      assert plan[i] == clones[i - 1];
    }
    var init, last := rows[..n], [rows[n]];
    assert forall i :: 0 <= i < |init| ==> !IsRecurring(init[i]);
    assert IsRecurring(rows[n]);
    assert rows == init + last;
    FilterAllOrNothing(init, IsRecurring);
    FilterAllOrNothing(last, IsRecurring);
    FilterConcat(init, last, IsRecurring);
    assert Filter(rows, IsRecurring) == [rows[n]];
    assert FindMonthly(rows) == Filter(rows, IsRecurring);
  }

  /** Exactly one recurring record in every expanded create: the last one,
      at the anchor stepped N times. */
  lemma CreateKeepsOneTemplate(t: Transaction, monthsElapsed: int)
    requires Expands(t, monthsElapsed)
    ensures FindMonthly(Records(CreateWrites(t, monthsElapsed))) == [CreateWrites(t, monthsElapsed)[monthsElapsed].record]
    ensures CreateWrites(t, monthsElapsed)[monthsElapsed].record.date == StepMonths(t.date, monthsElapsed)
  {
    OneRecurringRecord(t, Occurrences(t.date, monthsElapsed), CreateWrites(t, monthsElapsed));
    OccurrenceAt(t.date, monthsElapsed);
  }

  /** Exactly one recurring record in every expanded update: the last one,
      at the anchor stepped N times. */
  lemma UpdateKeepsOneTemplate(t: Transaction, id: Id, monthsElapsed: int)
    requires Expands(t, monthsElapsed)
    ensures FindMonthly(Records(UpdateWrites(t, id, monthsElapsed))) == [UpdateWrites(t, id, monthsElapsed)[monthsElapsed].record]
    ensures UpdateWrites(t, id, monthsElapsed)[monthsElapsed].record.date == StepMonths(t.date, monthsElapsed)
  {
    OneRecurringRecord(t, Occurrences(t.date, monthsElapsed), UpdateWrites(t, id, monthsElapsed));
    OccurrenceAt(t.date, monthsElapsed);
  }

  /** A plan whose first write is at the anchor and whose clones follow an
      increasing date list after the anchor writes in increasing date order. */
  lemma PlanInDateOrder(t: Transaction, dates: seq<CalendarDate>, plan: seq<Write>)
    requires |plan| == |dates| + 1
    requires ClonesAt(plan[1..], t, dates)
    requires forall k :: 0 <= k < |dates| ==> Before(plan[0].record.date, dates[k])
    requires forall i, j :: 0 <= i < j < |dates| ==> Before(dates[i], dates[j])
    ensures forall i, j :: 0 <= i < j < |plan| ==> Before(plan[i].record.date, plan[j].record.date)
  {
    forall k | 1 <= k < |plan|
      ensures plan[k].record.date == dates[k - 1]
    {
      assert plan[k] == plan[1..][k - 1];
    }
  }

  /** The records of an expansion are written in strictly increasing date
      order, so the recurring one is the latest. */
  lemma ExpansionChronological(t: Transaction, id: Id, monthsElapsed: int)
    requires Expands(t, monthsElapsed)
    ensures forall i, j :: 0 <= i < j < |CreateWrites(t, monthsElapsed)| ==>
              Before(CreateWrites(t, monthsElapsed)[i].record.date, CreateWrites(t, monthsElapsed)[j].record.date)
    ensures forall i, j :: 0 <= i < j < |UpdateWrites(t, id, monthsElapsed)| ==>
              Before(UpdateWrites(t, id, monthsElapsed)[i].record.date, UpdateWrites(t, id, monthsElapsed)[j].record.date)
  {
    var dates := Occurrences(t.date, monthsElapsed);
    OccurrencesIncreasing(t.date, monthsElapsed);
    PlanInDateOrder(t, dates, CreateWrites(t, monthsElapsed));
    PlanInDateOrder(t, dates, UpdateWrites(t, id, monthsElapsed));
  }

  /** The number of inserts in a plan: the rows storage assigns ids to. */
  function InsertCount(plan: seq<Write>): (n: nat)
    ensures n <= |plan|
  {
    if |plan| == 0 then 0
    else (if plan[0].Insert? then 1 else 0) + InsertCount(plan[1..])
  }

  /** The ids the call hands to `findFull`: an updated row keeps the caller's
      id, and each insert takes the next id storage assigned. */
  function ReturnedIds(plan: seq<Write>, newIds: seq<Id>): (ids: seq<Id>)
    requires |newIds| == InsertCount(plan)
    ensures |ids| == |plan|
    ensures forall i :: 0 <= i < |plan| && plan[i].Update? ==> ids[i] == plan[i].id
  {
    if |plan| == 0 then []
    else if plan[0].Update? then [plan[0].id] + ReturnedIds(plan[1..], newIds)
    else [newIds[0]] + ReturnedIds(plan[1..], newIds[1..])
  }

  /** In a plan of inserts only, every write gets an assigned id, in order. */
  lemma {:induction false} InsertsOnly(plan: seq<Write>, newIds: seq<Id>)
    requires forall i :: 0 <= i < |plan| ==> plan[i].Insert?
    requires |newIds| == |plan|
    ensures InsertCount(plan) == |plan|
    ensures ReturnedIds(plan, newIds) == newIds
  {
    if |plan| > 0 {
      InsertsOnly(plan[1..], newIds[1..]);
    }
  }

  /** `create` returns the ids of all the rows it inserted, one per write. */
  lemma CreateReturnsInsertedIds(t: Transaction, monthsElapsed: int, newIds: seq<Id>)
    requires |newIds| == |CreateWrites(t, monthsElapsed)|
    ensures InsertCount(CreateWrites(t, monthsElapsed)) == |newIds|
    ensures ReturnedIds(CreateWrites(t, monthsElapsed), newIds) == newIds
  {
    InsertsOnly(CreateWrites(t, monthsElapsed), newIds);
  }

  /** `update` returns the caller's id followed by the ids of the inserted
      rows, in order: N + 1 ids for N elapsed months, one when not expanded. */
  lemma UpdateReturnsIds(t: Transaction, id: Id, monthsElapsed: int, newIds: seq<Id>)
    requires |newIds| == |UpdateWrites(t, id, monthsElapsed)| - 1
    ensures InsertCount(UpdateWrites(t, id, monthsElapsed)) == |newIds|
    ensures ReturnedIds(UpdateWrites(t, id, monthsElapsed), newIds) == [id] + newIds
    ensures |[id] + newIds| == if Expands(t, monthsElapsed) then monthsElapsed + 1 else 1
  {
    var plan := UpdateWrites(t, id, monthsElapsed);
    InsertsOnly(plan[1..], newIds);
  }

  /** The rows a plan leaves in storage, each under the id the call returns:
      the written content, flag and date, keyed by the caller's id for an
      update and by the assigned id for an insert. */
  function Materialize(plan: seq<Write>, newIds: seq<Id>): (rows: seq<Transaction>)
    requires |newIds| == InsertCount(plan)
    ensures |rows| == |plan|
    ensures forall i :: 0 <= i < |plan| ==> SameContent(rows[i], plan[i].record)
    ensures forall i :: 0 <= i < |plan| ==> rows[i].isMonthly == plan[i].record.isMonthly
    ensures forall i :: 0 <= i < |plan| ==> rows[i].date == plan[i].record.date
    ensures forall i :: 0 <= i < |plan| ==> rows[i].id == Some(ReturnedIds(plan, newIds)[i])
  {
    var ids := ReturnedIds(plan, newIds);
    seq(|plan|, i requires 0 <= i < |plan| => plan[i].record.(id := Some(ids[i])))
  }

  /** `findFull` on the returned ids reloads exactly the rows the call wrote:
      every one of them, and none of the table's other rows. */
  lemma ReloadFindsEveryWrite(others: seq<Transaction>, plan: seq<Write>, newIds: seq<Id>)
    requires |newIds| == InsertCount(plan)
    requires forall j :: 0 <= j < |others| ==> !HasIdIn(others[j], ReturnedIds(plan, newIds))
    ensures FindFull(others + Materialize(plan, newIds), ReturnedIds(plan, newIds)) == Materialize(plan, newIds)
  {
    var ids := ReturnedIds(plan, newIds);
    var rows := Materialize(plan, newIds);
    var keep := (r: Transaction) => HasIdIn(r, ids);
    forall i | 0 <= i < |rows|
      ensures keep(rows[i])
    {
      assert rows[i].id == Some(ids[i]);
    }
    forall j | 0 <= j < |others|
      ensures !keep(others[j])
    {
    }
    FilterAllOrNothing(rows, keep);
    FilterAllOrNothing(others, keep);
    FilterConcat(others, rows, keep);
  }

  /** `findFull` on the returned ids reloads exactly the rows the call wrote,
      wherever they sit in the table: the edited row may keep its place among
      the other rows, and the table's order is not fixed. */
  lemma ReloadFindsExactlyTheWrites(table: seq<Transaction>, others: seq<Transaction>, plan: seq<Write>, newIds: seq<Id>)
    requires |newIds| == InsertCount(plan)
    requires forall j :: 0 <= j < |others| ==> !HasIdIn(others[j], ReturnedIds(plan, newIds))
    requires multiset(table) == multiset(others) + multiset(Materialize(plan, newIds))
    ensures multiset(FindFull(table, ReturnedIds(plan, newIds))) == multiset(Materialize(plan, newIds))
  {
    var ids := ReturnedIds(plan, newIds);
    var rows := Materialize(plan, newIds);
    var found := FindFull(table, ids);
    forall i | 0 <= i < |rows|
      ensures HasIdIn(rows[i], ids)
    {
      assert rows[i].id == Some(ids[i]);
    }
    forall x
      ensures multiset(found)[x] == multiset(rows)[x]
    {
      if HasIdIn(x, ids) {
        assert x !in others;
      } else {
        assert x !in rows;
      }
    }
  }
}
