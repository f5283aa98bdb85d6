/**
  Windows of whole months over contract end dates (backend/dgate/expiring.py).
 */
module Months {
  import opened Wrappers

  const MIN_YEAR := 1
  const MAX_YEAR := 9999

  datatype Date = Date(year: int, month: int, day: int)

  predicate Leap(year: int) {
    year % 4 == 0 && (year % 100 != 0 || year % 400 == 0)
  }

  /** The days of a month of the proleptic Gregorian calendar. */
  function MonthLength(year: int, month: int): int {
    if month == 2 then (if Leap(year) then 29 else 28)
    else if month == 4 || month == 6 || month == 9 || month == 11 then 30
    else 31
  }

  /** The calendar: a leap day every fourth year, but of the hundreds only every fourth, so 97 in four hundred years. */
  lemma MonthLengthExact(year: int, month: int)
    requires 1 <= month <= 12
    ensures MonthLength(year, month)
            == match month
               case 2 => (if year % 400 == 0 || (year % 4 == 0 && year % 100 != 0) then 29 else 28)
               case 4 | 6 | 9 | 11 => 30
               case _ => 31
  {
  }

  predicate Valid(d: Date) {
    MIN_YEAR <= d.year <= MAX_YEAR && 1 <= d.month <= 12 && 1 <= d.day <= MonthLength(d.year, d.month)
  }

  predicate NotAfter(d: Date, e: Date) {
    d.year < e.year || (d.year == e.year && (d.month < e.month || (d.month == e.month && d.day <= e.day)))
  }

  lemma ValidExact(d: Date)
    ensures Valid(d) <==> 1 <= d.year <= 9999 && 1 <= d.month <= 12 && 1 <= d.day <= MonthLength(d.year, d.month)
  {
  }

  /** A number for each date, with room for 32 days a month. */
  function NumberOf(d: Date): int {
    (d.year * 12 + d.month) * 32 + d.day
  }

  /** Dates are in order as their numbers are. */
  lemma NotAfterExact(d: Date, e: Date)
    requires Valid(d) && Valid(e)
    ensures NotAfter(d, e) <==> NumberOf(d) <= NumberOf(e)
    ensures NumberOf(d) == NumberOf(e) ==> d == e
  {
  }

  /** The months before `d`, counted from year 0. */
  function MonthIndex(d: Date): int {
    d.year * 12 + d.month - 1
  }

  function Smaller(x: int, y: int): int {
    if x < y then x else y
  }

  /** `add_months`: None where the year leaves the calendar and the date cannot be built. */
  function AddMonths(d: Date, n: int): (r: Option<Date>)
    requires Valid(d)
    ensures r.Some? ==> Valid(r.value) && MonthIndex(r.value) == MonthIndex(d) + n
    ensures r.None? <==> !(MIN_YEAR * 12 <= MonthIndex(d) + n < (MAX_YEAR + 1) * 12)
  {
    var y, m := (d.month - 1 + n) / 12, (d.month - 1 + n) % 12;
    var year := d.year + y;
    if MIN_YEAR <= year <= MAX_YEAR
    then Some(Date(year, m + 1, Smaller(d.day, MonthLength(year, m + 1))))
    else None
  }

  /** The day is kept where the month has it, and is the month's last where it does not. */
  lemma AddMonthsDay(d: Date, n: int)
    requires Valid(d) && AddMonths(d, n).Some?
    ensures var r := AddMonths(d, n).value;
            r.day == if d.day <= MonthLength(r.year, r.month) then d.day else MonthLength(r.year, r.month)
  {
  }

  lemma AddMonthsMonotone(d: Date, e: Date, n: int)
    requires Valid(d) && Valid(e) && NotAfter(d, e)
    requires AddMonths(d, n).Some? && AddMonths(e, n).Some?
    ensures NotAfter(AddMonths(d, n).value, AddMonths(e, n).value)
  {
  }

  /** Forward and back never lands later, and lands on the day itself exactly when the month between has it. */
  lemma ThereAndBack(d: Date, n: int)
    requires Valid(d) && AddMonths(d, n).Some?
    ensures var there := AddMonths(d, n).value;
            var back := AddMonths(there, -n);
            && back.Some? && NotAfter(back.value, d)
            && (back.value == d <==> d.day <= MonthLength(there.year, there.month))
  {
  }

  // ------------------------------------------------------------------ contracts ending within a window

  /** A contract is listed when it ends between today and today plus `within` months. */
  predicate Listed(end: Date, today: Date, within: int)
    requires Valid(today)
  {
    var until := AddMonths(today, within);
    until.Some? && NotAfter(today, end) && NotAfter(end, until.value)
  }

  lemma ListedExact(end: Date, today: Date, within: int)
    requires Valid(end) && Valid(today)
    ensures Listed(end, today, within)
            <==> AddMonths(today, within).Some?
                 && NumberOf(today) <= NumberOf(end) && NumberOf(end) <= NumberOf(AddMonths(today, within).value)
  {
  }

  /** The day a contract's end came within the window. */
  function Crossing(end: Date, within: int): Option<Date>
    requires Valid(end)
  {
    AddMonths(end, -within)
  }

  /** Every listed contract crossed into the window by today. */
  lemma ListedHasCrossed(end: Date, today: Date, within: int)
    requires Valid(end) && Valid(today) && Listed(end, today, within) && Crossing(end, within).Some?
    ensures NotAfter(Crossing(end, within).value, today)
  {
  }

  /** A contract that crossed and has not ended is missing from the list exactly when today is the last day
      of a month shorter than the contract's last day: it ends in the limit's month, after the limit. */
  lemma CrossedButNotListedExact(end: Date, today: Date, within: int)
    requires Valid(end) && Valid(today) && AddMonths(today, within).Some? && Crossing(end, within).Some?
    requires NotAfter(Crossing(end, within).value, today) && NotAfter(today, end)
    ensures var until := AddMonths(today, within).value;
            !Listed(end, today, within) <==>
            && end.year == until.year && end.month == until.month
            && today.day == MonthLength(today.year, today.month) && end.day > today.day
  {
  }

  /** Such a contract ends at most three days past the limit. */
  lemma CrossedEndsAtMostThreeDaysLate(end: Date, today: Date, within: int)
    requires Valid(end) && Valid(today) && AddMonths(today, within).Some? && Crossing(end, within).Some?
    requires NotAfter(Crossing(end, within).value, today) && NotAfter(today, end) && !Listed(end, today, within)
    ensures var until := AddMonths(today, within).value;
            end.year == until.year && end.month == until.month && until.day < end.day <= until.day + 3
  {
  }

  /** The three days are reached: on 28 February, a contract that ends on 31 August crossed today. */
  lemma ThreeDaysLate()
    ensures var end, today := Date(2026, 8, 31), Date(2026, 2, 28);
            && Crossing(end, 6) == Some(today) && AddMonths(today, 6) == Some(Date(2026, 8, 28))
            && !Listed(end, today, 6)
  {
  }

  // ------------------------------------------------------------------ when a contract entered

  datatype Instant = Instant(date: Date, second: nat)

  predicate NoLater(s: Instant, t: Instant) {
    (s.date != t.date && NotAfter(s.date, t.date)) || (s.date == t.date && s.second <= t.second)
  }

  lemma NoLaterExact(s: Instant, t: Instant)
    requires Valid(s.date) && Valid(t.date)
    ensures NoLater(s, t) <==> NumberOf(s.date) < NumberOf(t.date) || (NumberOf(s.date) == NumberOf(t.date) && s.second <= t.second)
  {
  }

  /** `entered_at`: the start of the day the end came that close, or the first time the notice was seen if
      that is later. */
  function EnteredAt(end: Date, within: int, firstSeen: Option<Instant>): Option<Instant>
    requires Valid(end)
  {
    match Crossing(end, within)
    case None => None
    case Some(day) =>
      var crossed := Instant(day, 0);
      if firstSeen.Some? && !NoLater(firstSeen.value, crossed) then firstSeen else Some(crossed)
  }

  /** No listed contract is said to have entered in the future. */
  lemma EnteredByNow(end: Date, within: int, firstSeen: Option<Instant>, now: Instant)
    requires Valid(end) && Valid(now.date) && Listed(end, now.date, within) && Crossing(end, within).Some?
    requires firstSeen.Some? ==> Valid(firstSeen.value.date) && NoLater(firstSeen.value, now)
    ensures EnteredAt(end, within, firstSeen).Some? && NoLater(EnteredAt(end, within, firstSeen).value, now)
    ensures firstSeen.Some? ==> NoLater(firstSeen.value, EnteredAt(end, within, firstSeen).value)
  {
  }

  /** With a wider window a contract entered no later, whenever the notice was first seen. */
  lemma WiderWindowEntersEarlier(end: Date, narrow: int, wide: int, firstSeen: Option<Instant>)
    requires Valid(end) && 0 <= narrow <= wide && Crossing(end, wide).Some?
    ensures Crossing(end, narrow).Some? && NotAfter(Crossing(end, wide).value, Crossing(end, narrow).value)
    ensures NoLater(EnteredAt(end, wide, firstSeen).value, EnteredAt(end, narrow, firstSeen).value)
  {
  }

  /** A contract enters at the start of the day it came that close, or when its notice was first seen, whichever is later. */
  lemma EnteredExact(end: Date, within: int, firstSeen: Option<Instant>)
    requires Valid(end)
    ensures var entered := EnteredAt(end, within, firstSeen);
            && (entered.None? <==> AddMonths(end, -within).None?)
            && (entered.Some? ==>
                  var start := Instant(AddMonths(end, -within).value, 0);
                  && (Some(entered.value) == firstSeen || entered.value == start)
                  && (firstSeen.Some? && NoLater(firstSeen.value, start) ==> entered.value == start)
                  && NoLater(start, entered.value) && (firstSeen.Some? ==> NoLater(firstSeen.value, entered.value)))
  {
  }
}
