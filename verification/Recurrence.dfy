/**
 Maintenance recurrence on the calendar of ECMA-262, section 21.4.1, in UTC: setDate, setMonth and setFullYear
 keep the other components and let an overflowing day run into the next month.
 */
module Recurrence {
  import opened Wrappers

  const MS_PER_DAY := 86_400_000

  // ---------- The calendar ----------

  predicate IsLeap(y: int) {
    (y % 4 == 0 && y % 100 != 0) || y % 400 == 0
  }

  function YearLength(y: int): int {
    if IsLeap(y) then 366 else 365
  }

  /** The day on which a year begins, counted from 1970-01-01. */
  function DayFromYear(y: int): int {
    365 * (y - 1970) + (y - 1969) / 4 - (y - 1901) / 100 + (y - 1601) / 400
  }

  lemma YearsAdjoin(y: int)
    ensures DayFromYear(y + 1) == DayFromYear(y) + YearLength(y)
  {
    Fourth(y);
    Hundredth(y);
    FourHundredth(y);
    Multiples(y);
    LeapSum(y, (y - 1969) / 4, (y - 1968) / 4, (y - 1901) / 100, (y - 1900) / 100, (y - 1601) / 400, (y - 1600) / 400);
  }

  lemma LeapSum(y: int, a: int, a': int, b: int, b': int, c: int, c': int)
    requires a' == a + (if y % 4 == 0 then 1 else 0)
    requires b' == b + (if y % 100 == 0 then 1 else 0)
    requires c' == c + (if y % 400 == 0 then 1 else 0)
    requires y % 400 == 0 ==> y % 100 == 0
    requires y % 100 == 0 ==> y % 4 == 0
    ensures 365 * (y + 1 - 1970) + a' - b' + c' == 365 * (y - 1970) + a - b + c + YearLength(y)
  {
  }

  lemma Multiples(y: int)
    ensures y % 400 == 0 ==> y % 100 == 0
    ensures y % 100 == 0 ==> y % 4 == 0
  {
  }

  lemma Fourth(y: int)
    ensures (y - 1968) / 4 == (y - 1969) / 4 + (if y % 4 == 0 then 1 else 0)
  {
  }

  lemma Hundredth(y: int)
    ensures (y - 1900) / 100 == (y - 1901) / 100 + (if y % 100 == 0 then 1 else 0)
  {
  }

  lemma FourHundredth(y: int)
    ensures (y - 1600) / 400 == (y - 1601) / 400 + (if y % 400 == 0 then 1 else 0)
  {
  }

  /** Days of the year before a month; months count from 0. */
  function DaysBefore(m: int, leap: bool): int
    requires 0 <= m <= 12
  {
    [0, 31, 59, 90, 120, 151, 181, 212, 243, 273, 304, 334, 365][m] + (if leap && m >= 2 then 1 else 0)
  }

  function MonthLength(y: int, m: int): (days: int)
    requires 0 <= m < 12
    ensures 28 <= days <= 31
  {
    DaysBefore(m + 1, IsLeap(y)) - DaysBefore(m, IsLeap(y))
  }

  /** The month may lie outside 0..11 and the date outside the month. */
  function MakeDay(y: int, m: int, d: int): int {
    var year := y + m / 12;
    DayFromYear(year) + DaysBefore(m % 12, IsLeap(year)) + d - 1
  }

  lemma {:induction false} YearsGrow(a: int, b: int)
    requires a <= b
    ensures DayFromYear(b) >= DayFromYear(a) + 365 * (b - a) && DayFromYear(b) <= DayFromYear(a) + 366 * (b - a)
    decreases b - a
  {
    hide DayFromYear;
    if a < b {
      YearsAdjoin(b - 1);
      YearsGrow(a, b - 1);
    }
  }

  /** The last year that begins no later than `day`, searched upwards. */
  function YearSearch(day: int, from: int): (y: int)
    requires DayFromYear(from) <= day
    ensures DayFromYear(y) <= day < DayFromYear(y + 1)
    decreases day - DayFromYear(from)
  {
    YearsAdjoin(from);
    if day < DayFromYear(from + 1) then from else YearSearch(day, from + 1)
  }

  lemma SearchStart(day: int)
    ensures DayFromYear(1970 + (if day >= 0 then day / 366 else day / 365)) <= day
  {
    assert DayFromYear(1970) == 0;
    if day >= 0 {
      YearsGrow(1970, 1970 + day / 366);
    } else {
      YearsGrow(1970 + day / 365, 1970);
    }
  }

  function YearFromDay(day: int): (y: int)
    ensures DayFromYear(y) <= day < DayFromYear(y + 1)
  {
    SearchStart(day);
    YearSearch(day, 1970 + (if day >= 0 then day / 366 else day / 365))
  }

  function MonthSearch(inYear: int, leap: bool, m: int): (found: int)
    requires 0 <= m < 12 && DaysBefore(m, leap) <= inYear < DaysBefore(12, leap)
    ensures 0 <= found < 12 && DaysBefore(found, leap) <= inYear < DaysBefore(found + 1, leap)
    decreases 12 - m
  {
    if inYear < DaysBefore(m + 1, leap) then m else MonthSearch(inYear, leap, m + 1)
  }

  lemma WithinYear(day: int, y: int)
    requires DayFromYear(y) <= day < DayFromYear(y + 1)
    ensures DaysBefore(0, IsLeap(y)) <= day - DayFromYear(y) < DaysBefore(12, IsLeap(y))
  {
    hide DayFromYear, IsLeap;
    YearsAdjoin(y);
  }

  function MonthFromDay(day: int): (m: int)
    ensures 0 <= m < 12
    ensures
      var y := YearFromDay(day);
      DaysBefore(m, IsLeap(y)) <= day - DayFromYear(y) < DaysBefore(m + 1, IsLeap(y))
  {
    var y := YearFromDay(day);
    WithinYear(day, y);
    MonthSearch(day - DayFromYear(y), IsLeap(y), 0)
  }

  function DateFromDay(day: int): (d: int)
    ensures 1 <= d <= MonthLength(YearFromDay(day), MonthFromDay(day))
  {
    var y := YearFromDay(day);
    day - DayFromYear(y) - DaysBefore(MonthFromDay(day), IsLeap(y)) + 1
  }

  /** Year, month and date of a day, and the day made of them. */
  lemma DayOfItsParts(day: int)
    ensures MakeDay(YearFromDay(day), MonthFromDay(day), DateFromDay(day)) == day
  {
    hide DayFromYear, YearFromDay, MonthFromDay;
  }

  lemma PartsOfMadeDay(y: int, m: int, d: int)
    requires 0 <= m < 12 && 1 <= d <= MonthLength(y, m)
    ensures
      var day := MakeDay(y, m, d);
      YearFromDay(day) == y && MonthFromDay(day) == m && DateFromDay(day) == d
  {
    hide DayFromYear, YearFromDay, MonthFromDay;
    var day := MakeDay(y, m, d);
    YearsAdjoin(y);
    YearIsUnique(day, YearFromDay(day), y);
    MonthIsUnique(day - DayFromYear(y), IsLeap(y), MonthFromDay(day), m);
  }

  lemma YearIsUnique(day: int, a: int, b: int)
    requires DayFromYear(a) <= day < DayFromYear(a + 1) && DayFromYear(b) <= day < DayFromYear(b + 1)
    ensures a == b
  {
    hide DayFromYear;
    if a < b {
      YearsGrow(a + 1, b);
    } else if b < a {
      YearsGrow(b + 1, a);
    }
  }

  lemma MonthIsUnique(inYear: int, leap: bool, a: int, b: int)
    requires 0 <= a < 12 && DaysBefore(a, leap) <= inYear < DaysBefore(a + 1, leap)
    requires 0 <= b < 12 && DaysBefore(b, leap) <= inYear < DaysBefore(b + 1, leap)
    ensures a == b
  {
  }

  /** The lengths of the months written out. */
  lemma CalendarIsGregorian(y: int)
    ensures MonthLength(y, 1) == (if y % 4 == 0 && (y % 100 != 0 || y % 400 == 0) then 29 else 28)
    ensures forall m | m in {0, 2, 4, 6, 7, 9, 11} :: MonthLength(y, m) == 31
    ensures forall m | m in {3, 5, 8, 10} :: MonthLength(y, m) == 30
  {
    Multiples(y);
    hide *;
    MonthLengthIs(y, 1);
    forall m | m in {0, 2, 4, 6, 7, 9, 11} ensures MonthLength(y, m) == 31 {
      MonthLengthIs(y, m);
    }
    forall m | m in {3, 5, 8, 10} ensures MonthLength(y, m) == 30 {
      MonthLengthIs(y, m);
    }
  }

  lemma MonthLengthIs(y: int, m: int)
    requires 0 <= m < 12
    ensures
      MonthLength(y, m) ==
        if m == 1 then (if (y % 4 == 0 && y % 100 != 0) || y % 400 == 0 then 29 else 28)
        else if m in {3, 5, 8, 10} then 30 else 31
  {
  }

  /** Days are counted from 1970-01-01 and last 86,400,000 milliseconds. */
  lemma EpochAndDay(time: int)
    ensures MakeDay(1970, 0, 1) == 0
    ensures 86_400_000 * Day(time) <= time < 86_400_000 * (Day(time) + 1)
  {
  }

  // ---------- Dates that are set in place ----------

  function Day(time: int): int {
    time / MS_PER_DAY
  }

  function OnDay(time: int, day: int): int {
    day * MS_PER_DAY + time % MS_PER_DAY
  }

  class JsDate {
    var time: int

    constructor (time: int)
      ensures this.time == time
    {
      this.time := time;
    }

    method SetDate(d: int)
      modifies this
      ensures time == OnDay(old(time), MakeDay(YearFromDay(Day(old(time))), MonthFromDay(Day(old(time))), d))
    {
      var day := Day(time);
      time := OnDay(time, MakeDay(YearFromDay(day), MonthFromDay(day), d));
    }

    method SetMonth(m: int)
      modifies this
      ensures time == OnDay(old(time), MakeDay(YearFromDay(Day(old(time))), m, DateFromDay(Day(old(time)))))
    {
      var day := Day(time);
      time := OnDay(time, MakeDay(YearFromDay(day), m, DateFromDay(day)));
    }

    method SetFullYear(y: int)
      modifies this
      ensures time == OnDay(old(time), MakeDay(y, MonthFromDay(Day(old(time))), DateFromDay(Day(old(time)))))
    {
      var day := Day(time);
      time := OnDay(time, MakeDay(y, MonthFromDay(day), DateFromDay(day)));
    }
  }

  function CustomDays(intervalDays: int): (days: int)
    ensures days >= 1
  {
    if intervalDays == 0 then 30 else if intervalDays < 1 then 1 else intervalDays
  }

  /** The configured days, thirty without any, and never less than one. */
  lemma CustomExactly(day: int, frequency: string, intervalDays: int)
    requires frequency !in {"WEEKLY", "MONTHLY", "QUARTERLY", "SEMI_ANNUAL", "ANNUAL"}
    ensures intervalDays >= 1 ==> Advance(day, frequency, intervalDays) == intervalDays
    ensures intervalDays == 0 ==> Advance(day, frequency, intervalDays) == 30
    ensures intervalDays < 0 ==> Advance(day, frequency, intervalDays) == 1
  {
  }

  /** How many days a frequency adds to a base day. */
  function Advance(day: int, frequency: string, intervalDays: int): int {
    var y, m := YearFromDay(day), MonthFromDay(day);
    match frequency
    case "WEEKLY" => 7
    case "MONTHLY" => DaysOfMonths(y, m, 1)
    case "QUARTERLY" => DaysOfMonths(y, m, 3)
    case "SEMI_ANNUAL" => DaysOfMonths(y, m, 6)
    case "ANNUAL" => if (IsLeap(y) && m <= 1) || (IsLeap(y + 1) && m >= 2) then 366 else 365
    case _ => CustomDays(intervalDays)
  }

  /** The lengths of `count` months in a row, from month `m` of year `y`. */
  function DaysOfMonths(y: int, m: int, count: nat): int
    requires 0 <= m < 12
    decreases count
  {
    if count == 0 then 0
    else MonthLength(y, m) + (if m == 11 then DaysOfMonths(y + 1, 0, count - 1) else DaysOfMonths(y, m + 1, count - 1))
  }

  /** The first of a later month is the lengths of the months between away. */
  lemma {:induction false} MonthsAdjoin(y: int, m: int, count: nat, d: int)
    requires 0 <= m < 12 && count <= 12
    ensures MakeDay(y, m + count, d) == MakeDay(y, m, d) + DaysOfMonths(y, m, count)
    decreases count
  {
    hide MakeDay, MonthLength;
    if count > 0 {
      if m == 11 {
        MonthsAdjoin(y + 1, 0, count - 1, d);
        NextJanuary(y, count, d);
      } else {
        MonthsAdjoin(y, m + 1, count - 1, d);
        NextMonth(y, m, d);
      }
    }
  }

  lemma NextMonth(y: int, m: int, d: int)
    requires 0 <= m < 11
    ensures MakeDay(y, m + 1, d) == MakeDay(y, m, d) + MonthLength(y, m)
  {
    hide DayFromYear, IsLeap;
  }

  lemma NextJanuary(y: int, count: int, d: int)
    requires 1 <= count <= 12
    ensures MakeDay(y, 11 + count, d) == MakeDay(y + 1, count - 1, d)
    ensures MakeDay(y + 1, 0, d) == MakeDay(y, 11, d) + MonthLength(y, 11)
  {
    hide DayFromYear;
    YearsAdjoin(y);
  }

  lemma YearLater(y: int, m: int, d: int)
    requires 0 <= m < 12
    ensures MakeDay(y + 1, m, d) ==
            MakeDay(y, m, d) + (if (IsLeap(y) && m <= 1) || (IsLeap(y + 1) && m >= 2) then 366 else 365)
  {
    hide DayFromYear;
    YearsAdjoin(y);
    LeapYearsApart(y);
  }

  lemma LeapYearsApart(y: int)
    ensures !(IsLeap(y) && IsLeap(y + 1))
  {
  }

  lemma OnLaterDay(time: int, days: int)
    ensures OnDay(time, Day(time) + days) == time + days * MS_PER_DAY
  {
  }

  /** `nextDueDate`: a copy of the base is moved, the base stays. */
  method NextDueDate(base: JsDate, frequency: string, intervalDays: int) returns (next: JsDate)
    ensures fresh(next)
    ensures next.time == base.time + Advance(Day(base.time), frequency, intervalDays) * 86_400_000
  {
    hide DayFromYear, YearFromDay, MonthFromDay, DateFromDay, MakeDay, OnDay, Day, DaysOfMonths;
    next := new JsDate(base.time);
    ghost var day := Day(base.time);
    ghost var y, m, d := YearFromDay(day), MonthFromDay(day), DateFromDay(day);
    DayOfItsParts(day);
    OnLaterDay(base.time, Advance(day, frequency, intervalDays));
    if frequency == "WEEKLY" {
      next.SetDate(DateFromDay(Day(next.time)) + 7);
      DateLater(y, m, d, 7);
    } else if frequency == "MONTHLY" {
      next.SetMonth(MonthFromDay(Day(next.time)) + 1);
      MonthsAdjoin(y, m, 1, d);
    } else if frequency == "QUARTERLY" {
      next.SetMonth(MonthFromDay(Day(next.time)) + 3);
      MonthsAdjoin(y, m, 3, d);
    } else if frequency == "SEMI_ANNUAL" {
      next.SetMonth(MonthFromDay(Day(next.time)) + 6);
      MonthsAdjoin(y, m, 6, d);
    } else if frequency == "ANNUAL" {
      next.SetFullYear(YearFromDay(Day(next.time)) + 1);
      YearLater(y, m, d);
    } else {
      next.SetDate(DateFromDay(Day(next.time)) + CustomDays(intervalDays));
      DateLater(y, m, d, CustomDays(intervalDays));
    }
  }

  lemma DateLater(y: int, m: int, d: int, days: int)
    ensures MakeDay(y, m, d + days) == MakeDay(y, m, d) + days
  {
    hide DayFromYear;
  }

  // ---------- Bounds ----------

  /** The bounds every frequency promises, for every base date. */
  lemma AdvanceBounds(day: int, intervalDays: int)
    ensures Advance(day, "WEEKLY", intervalDays) == 7
    ensures Advance(day, "MONTHLY", intervalDays) == MonthLength(YearFromDay(day), MonthFromDay(day))
    ensures 28 <= Advance(day, "MONTHLY", intervalDays) <= 31
    ensures 89 <= Advance(day, "QUARTERLY", intervalDays) <= 92
    ensures 181 <= Advance(day, "SEMI_ANNUAL", intervalDays) <= 184
    ensures 365 <= Advance(day, "ANNUAL", intervalDays) <= 366
    ensures Advance(day, "CUSTOM", intervalDays) >= 1
  {
    hide YearFromDay, MonthFromDay, IsLeap, DaysOfMonths, DaysBefore, MonthLength;
    var y, m := YearFromDay(day), MonthFromDay(day);
    MonthSpans(y, m);
  }

  lemma MonthSpans(y: int, m: int)
    requires 0 <= m < 12
    ensures DaysOfMonths(y, m, 1) == MonthLength(y, m)
    ensures 89 <= DaysOfMonths(y, m, 3) <= 92 && 181 <= DaysOfMonths(y, m, 6) <= 184
  {
    hide IsLeap, DaysOfMonths;
    MonthsAhead(y, m, 1);
    MonthsAhead(y, m, 3);
    MonthsAhead(y, m, 6);
    LeapYearsApart(y);
  }

  /** A few months ahead cross at most one year end, and each end of February once. */
  lemma MonthsAhead(y: int, m: int, count: nat)
    requires 0 <= m < 12 && count <= 6
    ensures DaysOfMonths(y, m, count) ==
      if m + count <= 12 then DaysBefore(m + count, IsLeap(y)) - DaysBefore(m, IsLeap(y))
      else DaysBefore(12, IsLeap(y)) - DaysBefore(m, IsLeap(y)) + DaysBefore(m + count - 12, IsLeap(y + 1))
    decreases count
  {
    hide IsLeap;
    if count > 0 {
      if m == 11 {
        MonthsAhead(y + 1, 0, count - 1);
      } else {
        MonthsAhead(y, m + 1, count - 1);
      }
    }
  }

  lemma AdvanceIsPositive(day: int, frequency: string, intervalDays: int)
    ensures Advance(day, frequency, intervalDays) >= 1
  {
    AdvanceBounds(day, intervalDays);
  }

  /** The target month of a move by whole months. */
  function TargetMonth(y: int, m: int, count: int): (int, int) {
    (y + (m + count) / 12, (m + count) % 12)
  }

  /**
   Moving by months keeps the day of the month exactly when the target month is long enough; otherwise the date
   lands in the month after, on the days left over.
   */
  lemma DayOfMonthKeptExactly(day: int, count: nat)
    requires 1 <= count <= 12
    ensures
      var d := DateFromDay(day);
      var (ty, tm) := TargetMonth(YearFromDay(day), MonthFromDay(day), count);
      var next := MakeDay(YearFromDay(day), MonthFromDay(day) + count, d);
      (DateFromDay(next) == d <==> d <= MonthLength(ty, tm)) &&
      (d <= MonthLength(ty, tm) ==> YearFromDay(next) == ty && MonthFromDay(next) == tm) &&
      (d > MonthLength(ty, tm) ==>
        DateFromDay(next) == d - MonthLength(ty, tm) && YearFromDay(next) == ty && MonthFromDay(next) == tm + 1)
  {
    hide DayFromYear, YearFromDay, MonthFromDay, DateFromDay, MakeDay, IsLeap;
    var y, m, d := YearFromDay(day), MonthFromDay(day), DateFromDay(day);
    var (ty, tm) := TargetMonth(y, m, count);
    SameDay(y, m + count, d);
    if d <= MonthLength(ty, tm) {
      PartsOfMadeDay(ty, tm, d);
    } else {
      var over := d - MonthLength(ty, tm);
      NextMonth(ty, tm, over);
      DateLater(ty, tm, over, MonthLength(ty, tm));
      PartsOfMadeDay(ty, tm + 1, over);
    }
  }

  lemma SameDay(y: int, m: int, d: int)
    ensures MakeDay(y, m, d) == MakeDay(y + m / 12, m % 12, d)
  {
    hide DayFromYear;
  }

  // ---------- Completing a plan ----------

  class MaintenancePlan {
    var frequency: string
    var intervalDays: int
    var lastCompletedAt: Option<int>
    var nextDueAt: int

    constructor (frequency: string, intervalDays: int, nextDueAt: int)
      ensures this.frequency == frequency && this.intervalDays == intervalDays
      ensures this.nextDueAt == nextDueAt && lastCompletedAt == None
    {
      this.frequency, this.intervalDays, this.nextDueAt, lastCompletedAt := frequency, intervalDays, nextDueAt, None;
    }

    /**
     Absent dates default to now and to the recurrence; without an explicit due date the plan is due later than it was
     done.
     */
    method CompletePlan(completedAt: Option<int>, dueAt: Option<int>, now: int)
      modifies this`lastCompletedAt, this`nextDueAt
      ensures
        var done := if completedAt.Some? then completedAt.value else now;
        lastCompletedAt == Some(done) &&
        nextDueAt == (if dueAt.Some? then dueAt.value
          else done + Advance(Day(done), frequency, intervalDays) * 86_400_000) &&
        (dueAt.None? ==> nextDueAt > done)
    {
      var done := if completedAt.Some? then completedAt.value else now;
      var next: int;
      if dueAt.Some? {
        next := dueAt.value;
      } else {
        var base := new JsDate(done);
        var date := NextDueDate(base, frequency, intervalDays);
        next := date.time;
        AdvanceIsPositive(Day(done), frequency, intervalDays);
      }
      lastCompletedAt, nextDueAt := Some(done), next;
    }
  }
}
