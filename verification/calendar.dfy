/** The proleptic Gregorian calendar as `java.time.LocalDate` uses it: leap years,
    month lengths, a day count and the ISO day of the week (`java.time.DayOfWeek`). */
module Calendar {

  datatype Weekday = Monday | Tuesday | Wednesday | Thursday | Friday | Saturday | Sunday

  /** `DayOfWeek.toString()`: the upper-case English constant name. */
  function WeekdayName(w: Weekday): string {
    match w
    case Monday => "MONDAY"
    case Tuesday => "TUESDAY"
    case Wednesday => "WEDNESDAY"
    case Thursday => "THURSDAY"
    case Friday => "FRIDAY"
    case Saturday => "SATURDAY"
    case Sunday => "SUNDAY"
  }

  /** `DayOfWeek.of(i + 1)`: index 0 is Monday, 6 is Sunday. */
  function WeekdayOfIndex(i: int): Weekday
    requires 0 <= i < 7
  {
    [Monday, Tuesday, Wednesday, Thursday, Friday, Saturday, Sunday][i]
  }

  function WeekdayIndex(w: Weekday): (i: nat)
    ensures i < 7 && WeekdayOfIndex(i) == w
  {
    match w
    case Monday => 0
    case Tuesday => 1
    case Wednesday => 2
    case Thursday => 3
    case Friday => 4
    case Saturday => 5
    case Sunday => 6
  }

  /** `DayOfWeek.plus(1)`. */
  function NextWeekday(w: Weekday): Weekday {
    WeekdayOfIndex((WeekdayIndex(w) + 1) % 7)
  }

  predicate IsLeap(year: int) {
    year % 4 == 0 && (year % 100 != 0 || year % 400 == 0)
  }

  function MonthLength(year: int, month: int): (n: int)
    requires 1 <= month <= 12
    ensures 28 <= n <= 31
  {
    if month == 2 then (if IsLeap(year) then 29 else 28)
    else if month in {4, 6, 9, 11} then 30
    else 31
  }

  function YearLength(year: int): int {
    if IsLeap(year) then 366 else 365
  }

  /** A date the restricted timestamp grammar accepts: year-of-era at least 1 and a
      day that exists in its month. */
  predicate ValidDate(year: int, month: int, day: int) {
    1 <= year && 1 <= month <= 12 && 1 <= day <= MonthLength(year, month)
  }

  /** Days in the years before `year`, counted from 1 January of year 1. */
  function DaysBeforeYear(year: int): int
    requires 1 <= year
  {
    var y := year - 1;
    365 * y + y / 4 - y / 100 + y / 400
  }

  /** Days in the months of `year` before `month`, by the usual cumulative table. */
  function DaysBeforeMonth(year: int, month: int): int
    requires 1 <= month <= 12
  {
    [0, 31, 59, 90, 120, 151, 181, 212, 243, 273, 304, 334][month - 1]
      + (if month > 2 && IsLeap(year) then 1 else 0)
  }

  /** `LocalDate.toEpochDay()`: days since 1970-01-01, which is day 0. */
  function EpochDay(year: int, month: int, day: int): int
    requires ValidDate(year, month, day)
  {
    DaysBeforeYear(year) + DaysBeforeMonth(year, month) + day - 1 - DaysBeforeYear(1970)
  }

  /** `LocalDate.getDayOfWeek()`: `floorMod(toEpochDay() + 3, 7)` indexes Monday..Sunday
      (Dafny's `%` with a positive divisor is the floor modulus). */
  function DayOfWeek(year: int, month: int, day: int): Weekday
    requires ValidDate(year, month, day)
  {
    WeekdayOfIndex((EpochDay(year, month, day) + 3) % 7)
  }

  /** The day after a valid date. */
  function NextDate(year: int, month: int, day: int): (r: (int, int, int))
    requires ValidDate(year, month, day)
    ensures ValidDate(r.0, r.1, r.2)
  {
    if day < MonthLength(year, month) then (year, month, day + 1)
    else if month < 12 then (year, month + 1, 1)
    else (year + 1, 1, 1)
  }

  /** The cumulative table agrees with the month lengths. */
  lemma {:induction false} DaysBeforeMonthStep(year: int, month: int)
    requires 1 <= month < 12
    ensures DaysBeforeMonth(year, month + 1) == DaysBeforeMonth(year, month) + MonthLength(year, month)
  {
  }

  lemma {:induction false} DaysBeforeYearStep(year: int)
    requires 1 <= year
    ensures DaysBeforeYear(year + 1) == DaysBeforeYear(year) + YearLength(year)
  {
    var y := year - 1;
    assert year / 4 - y / 4 == (if year % 4 == 0 then 1 else 0);
    assert year / 100 - y / 100 == (if year % 100 == 0 then 1 else 0);
    assert year / 400 - y / 400 == (if year % 400 == 0 then 1 else 0);
  }

  /** The day count advances by exactly one from a date to the next. */
  lemma {:induction false} EpochDayNext(year: int, month: int, day: int)
    requires ValidDate(year, month, day)
    ensures var n := NextDate(year, month, day);
            EpochDay(n.0, n.1, n.2) == EpochDay(year, month, day) + 1
  {
    if day == MonthLength(year, month) {
      if month < 12 {
        DaysBeforeMonthStep(year, month);
      } else {
        DaysBeforeYearStep(year);
      }
    }
  }

  lemma IndexOfWeekday(i: int)
    requires 0 <= i < 7
    ensures WeekdayIndex(WeekdayOfIndex(i)) == i
  {
    if i == 0 {} else if i == 1 {} else if i == 2 {} else if i == 3 {}
    else if i == 4 {} else if i == 5 {} else {}
  }

  /** The floor remainder by 7 steps by one, wrapping from 6 to 0. */
  lemma ModSevenSucc(x: int)
    ensures (x + 1) % 7 == (x % 7 + 1) % 7
  {
    var q, r := x / 7, x % 7;
    assert x == 7 * q + r;
    if r < 6 {
      assert x + 1 == 7 * q + (r + 1);
    } else {
      assert x + 1 == 7 * (q + 1);
    }
  }

  /** Consecutive dates fall on consecutive weekdays, Sunday wrapping to Monday. */
  lemma DayOfWeekNext(year: int, month: int, day: int)
    requires ValidDate(year, month, day)
    ensures var n := NextDate(year, month, day);
            DayOfWeek(n.0, n.1, n.2) == NextWeekday(DayOfWeek(year, month, day))
  {
    EpochDayNext(year, month, day);
    var e := EpochDay(year, month, day);
    ModSevenSucc(e + 3);
    IndexOfWeekday((e + 3) % 7);
  }

  /** Anchors: 1970-01-01 was a Thursday and 2024-01-15 a Monday. */
  lemma DayOfWeekAnchors()
    ensures DayOfWeek(1970, 1, 1) == Thursday
    ensures DayOfWeek(2024, 1, 15) == Monday
  {
    assert EpochDay(2024, 1, 15) == 19737;
  }
}
