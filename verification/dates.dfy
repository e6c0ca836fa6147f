/**
 Calendar dates, the one-month step and the list of monthly occurrences that
 `getRemainingMonths` produces for a recurring transaction.

 The month step follows the date library's rule for adding one month: move to
 the next calendar month and clamp the day to the last day of that month.
 Occurrences are produced by applying that step to the running date, not to
 the anchor, so a day clamped once stays clamped.
 */
module Dates {

  /** A calendar date of the proleptic Gregorian calendar; `month` is 1-based. */
  datatype Date = Date(year: int, month: int, day: int)

  /** Gregorian leap-year rule. Only divisibility is tested, so the sign
      convention of `%` on negative years does not matter. */
  predicate IsLeapYear(year: int) {
    (year % 4 == 0 && year % 100 != 0) || year % 400 == 0
  }

  function DaysInMonth(year: int, month: int): (n: int)
    requires 1 <= month <= 12
    ensures 28 <= n <= 31
    ensures month == 2 ==> (n == 29 <==> IsLeapYear(year))
  {
    if month == 2 then (if IsLeapYear(year) then 29 else 28)
    else if month == 4 || month == 6 || month == 9 || month == 11 then 30
    else 31
  }

  predicate Valid(d: Date) {
    1 <= d.month <= 12 && 1 <= d.day <= DaysInMonth(d.year, d.month)
  }

  /** A date the date library can hold: every date it produces is a real day. */
  type CalendarDate = d: Date | Valid(d) witness Date(1970, 1, 1)

  /** Strict chronological order. */
  predicate Before(a: Date, b: Date) {
    a.year < b.year
    || (a.year == b.year && (a.month < b.month || (a.month == b.month && a.day < b.day)))
  }

  /** The number of whole calendar months since month 1 of year 0. */
  function MonthNumber(d: Date): (n: int) {
    d.year * 12 + d.month - 1
  }

  /** Adding one month: the next calendar month, with the day clamped to that
      month's last day (31 January becomes 28 or 29 February). */
  function AddOneMonth(d: CalendarDate): (r: CalendarDate)
    ensures MonthNumber(r) == MonthNumber(d) + 1
    ensures r.day <= d.day
    ensures r.day == d.day || r.day == DaysInMonth(r.year, r.month)
    ensures Before(d, r)
  {
    var year := if d.month == 12 then d.year + 1 else d.year;
    var month := if d.month == 12 then 1 else d.month + 1;
    var last := DaysInMonth(year, month);
    Date(year, month, if d.day <= last then d.day else last)
  }

  /** The date after `n` successive one-month steps from `d`. */
  function StepMonths(d: CalendarDate, n: nat): (r: CalendarDate)
    ensures MonthNumber(r) == MonthNumber(d) + n
    ensures r.day <= d.day
  {
    if n == 0 then d else AddOneMonth(StepMonths(d, n - 1))
  }

  /** The occurrence list: the anchor stepped once, twice, ... `count` times.
      A non-positive count yields no dates. */
  function Occurrences(anchor: CalendarDate, count: int): (dates: seq<CalendarDate>)
    ensures |dates| == if count > 0 then count else 0
    decreases count
  {
    if count <= 0 then [] else Occurrences(anchor, count - 1) + [StepMonths(anchor, count)]
  }

  /** `getRemainingMonths`: the elapsed-month count is a parameter; the loop
      steps one running date and records a copy after every step. */
  method GetRemainingMonths(anchor: CalendarDate, monthsElapsed: int) returns (dates: seq<CalendarDate>)
    ensures |dates| == if monthsElapsed > 0 then monthsElapsed else 0
    ensures forall k :: 0 <= k < |dates| ==> dates[k] == StepMonths(anchor, k + 1)
    ensures dates == Occurrences(anchor, monthsElapsed)
  {
    var current := anchor;
    dates := [];
    var i := 0;
    while i < monthsElapsed
      invariant 0 <= i
      invariant monthsElapsed > 0 ==> i <= monthsElapsed
      invariant monthsElapsed <= 0 ==> i == 0
      invariant current == StepMonths(anchor, i)
      invariant dates == Occurrences(anchor, i)
      decreases monthsElapsed - i
    {
      current := AddOneMonth(current);
      dates := dates + [current];
      i := i + 1;
    }
    OccurrenceAt(anchor, monthsElapsed);
  }

  /** Element k of the occurrence list is the anchor stepped k + 1 times. */
  lemma {:induction false} OccurrenceAt(anchor: CalendarDate, count: int)
    ensures forall k :: 0 <= k < |Occurrences(anchor, count)| ==>
              Occurrences(anchor, count)[k] == StepMonths(anchor, k + 1)
    decreases count
  {
    if count > 0 {
      OccurrenceAt(anchor, count - 1);
    }
  }

  /** The first occurrence is one step from the anchor, and each later one is
      one step from its predecessor. */
  lemma OccurrencesChain(anchor: CalendarDate, count: int)
    ensures count > 0 ==> Occurrences(anchor, count)[0] == AddOneMonth(anchor)
    ensures forall k :: 0 < k < |Occurrences(anchor, count)| ==>
              Occurrences(anchor, count)[k] == AddOneMonth(Occurrences(anchor, count)[k - 1])
  {
    OccurrenceAt(anchor, count);
    assert StepMonths(anchor, 1) == AddOneMonth(StepMonths(anchor, 0));
  }

  /** Occurrence k falls in the (k + 1)-th calendar month after the anchor's:
      no month is skipped and none is repeated. */
  lemma OccurrenceMonths(anchor: CalendarDate, count: int)
    ensures forall k :: 0 <= k < |Occurrences(anchor, count)| ==>
              MonthNumber(Occurrences(anchor, count)[k]) == MonthNumber(anchor) + k + 1
  {
    OccurrenceAt(anchor, count);
  }

  /** A later month number means a later date. */
  lemma MonthNumberOrder(a: CalendarDate, b: CalendarDate)
    requires MonthNumber(a) < MonthNumber(b)
    ensures Before(a, b)
  {
  }

  /** The occurrence list is strictly increasing and every element is later
      than the anchor. */
  lemma OccurrencesIncreasing(anchor: CalendarDate, count: int)
    ensures forall k :: 0 <= k < |Occurrences(anchor, count)| ==>
              Before(anchor, Occurrences(anchor, count)[k])
    ensures forall i, j :: 0 <= i < j < |Occurrences(anchor, count)| ==>
              Before(Occurrences(anchor, count)[i], Occurrences(anchor, count)[j])
  {
    var dates := Occurrences(anchor, count);
    OccurrenceMonths(anchor, count);
    forall k | 0 <= k < |dates|
      ensures Before(anchor, dates[k])
    {
      MonthNumberOrder(anchor, dates[k]);
    }
    forall i, j | 0 <= i < j < |dates|
      ensures Before(dates[i], dates[j])
    {
      MonthNumberOrder(dates[i], dates[j]);
    }
  }

  /** An anchor on day 28 or earlier keeps its day in every occurrence. */
  lemma {:induction false} StableDay(anchor: CalendarDate, n: nat)
    requires anchor.day <= 28
    ensures StepMonths(anchor, n).day == anchor.day
  {
    if n > 0 {
      StableDay(anchor, n - 1);
    }
  }

  /** Once an occurrence is clamped to a short month, later occurrences keep
      the clamped day: 31 January steps to 28 February, then 28 March. */
  lemma DayDrift()
    ensures Occurrences(Date(2023, 1, 31), 3) == [Date(2023, 2, 28), Date(2023, 3, 28), Date(2023, 4, 28)]
  {
    OccurrenceAt(Date(2023, 1, 31), 3);
  }

  /** Three elapsed months from 15 January give the 15th of the next three months. */
  lemma MidMonthExample()
    ensures Occurrences(Date(2023, 1, 15), 3) == [Date(2023, 2, 15), Date(2023, 3, 15), Date(2023, 4, 15)]
  {
    OccurrenceAt(Date(2023, 1, 15), 3);
  }
}
