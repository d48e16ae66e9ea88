/** Calendar days as the roster sees them through JavaScript's Date: a
    proleptic Gregorian year, month (1..12) and day of month, counted in UTC.
    Day numbers count from 1970-01-01, the origin of JavaScript time values. */
module Dates {

  datatype Date = Date(year: int, month: int, day: int)

  predicate IsLeapYear(y: int) {
    y % 4 == 0 && (y % 100 != 0 || y % 400 == 0)
  }

  function DaysInMonth(y: int, m: int): (n: int)
    requires 1 <= m <= 12
    ensures 28 <= n <= 31
    ensures n == 29 <==> m == 2 && IsLeapYear(y)
  {
    if m == 2 then (if IsLeapYear(y) then 29 else 28)
    else if m == 4 || m == 6 || m == 9 || m == 11 then 30
    else 31
  }

  predicate ValidDate(d: Date) {
    1 <= d.month <= 12 && 1 <= d.day <= DaysInMonth(d.year, d.month)
  }

  /** The calendar day of a JavaScript Date whose time value is not NaN. */
  type Day = d: Date | ValidDate(d) witness Date(1970, 1, 1)

  /** A JavaScript Date: a day, or the invalid date (time value NaN) that
      `new Date` yields for text it cannot parse. */
  datatype Dob = Invalid | Valid(date: Day)

  function YearLength(y: int): int {
    if IsLeapYear(y) then 366 else 365
  }

  /** Days in the months of year `y` before month `m`. */
  function DaysBeforeMonth(y: int, m: int): (n: int)
    requires 1 <= m <= 12
    ensures 0 <= n <= 335
  {
    (if m == 1 then 0 else if m == 2 then 31 else if m == 3 then 59
     else if m == 4 then 90 else if m == 5 then 120 else if m == 6 then 151
     else if m == 7 then 181 else if m == 8 then 212 else if m == 9 then 243
     else if m == 10 then 273 else if m == 11 then 304 else 334)
    + (if m > 2 && IsLeapYear(y) then 1 else 0)
  }

  /** The month table adds up: each month starts where the previous one ends,
      and December ends where the year does. */
  lemma MonthStarts(y: int, m: int)
    requires 1 <= m <= 12
    ensures m < 12 ==> DaysBeforeMonth(y, m + 1) == DaysBeforeMonth(y, m) + DaysInMonth(y, m)
    ensures m == 12 ==> DaysBeforeMonth(y, m) + DaysInMonth(y, m) == YearLength(y)
  {
  }

  lemma MonthStartsMonotone(y: int, m: int, m': int)
    requires 1 <= m < m' <= 12
    ensures DaysBeforeMonth(y, m) + DaysInMonth(y, m) <= DaysBeforeMonth(y, m')
  {
  }

  /** Days from 1970-01-01 to the first of January of year `y` (negative before 1970). */
  function DaysBeforeYear(y: int): int
    decreases if y < 1970 then 1970 - y else y - 1970
  {
    if y == 1970 then 0
    else if y > 1970 then DaysBeforeYear(y - 1) + YearLength(y - 1)
    else DaysBeforeYear(y + 1) - YearLength(y)
  }

  lemma YearStarts(y: int)
    ensures DaysBeforeYear(y + 1) == DaysBeforeYear(y) + YearLength(y)
  {
  }

  lemma {:induction false} YearStartsMonotone(y: int, y': int)
    requires y < y'
    ensures DaysBeforeYear(y) + YearLength(y) <= DaysBeforeYear(y')
    decreases y' - y
  {
    YearStarts(y);
    if y + 1 < y' {
      YearStartsMonotone(y + 1, y');
      YearStarts(y + 1);
    }
  }

  /** Leap years in 1..x (for x >= 0), counted by the Gregorian rule. */
  function LeapsThrough(x: int): int {
    x / 4 - x / 100 + x / 400
  }

  lemma DivStep(y: int, k: int)
    requires k == 4 || k == 100 || k == 400
    ensures y / k - (y - 1) / k == if y % k == 0 then 1 else 0
  {
    var q, r := (y - 1) / k, (y - 1) % k;
    assert y == q * k + r + 1;
    if r + 1 == k {
      assert y == (q + 1) * k;
    }
  }

  lemma LeapStep(y: int)
    ensures LeapsThrough(y) - LeapsThrough(y - 1) == if IsLeapYear(y) then 1 else 0
  {
    DivStep(y, 4);
    DivStep(y, 100);
    DivStep(y, 400);
    if y % 100 == 0 { CenturyIsLeapCandidate(y); }
    if y % 400 == 0 { assert y == 400 * (y / 400) == 100 * (4 * (y / 400)); }
  }

  lemma CenturyIsLeapCandidate(y: int)
    requires y % 100 == 0
    ensures y % 4 == 0
  {
    assert y == 100 * (y / 100) == 4 * (25 * (y / 100));
  }

  /** Closed form of DaysBeforeYear: 365 days a year plus one per leap year. */
  lemma {:induction false} DaysBeforeYearClosed(y: int)
    ensures DaysBeforeYear(y) == 365 * (y - 1970) + LeapsThrough(y - 1) - LeapsThrough(1969)
    decreases if y < 1970 then 1970 - y else y - 1970
  {
    if y > 1970 {
      DaysBeforeYearClosed(y - 1);
      LeapStep(y - 1);
    } else if y < 1970 {
      DaysBeforeYearClosed(y + 1);
      LeapStep(y);
    }
  }

  /** 2020 starts 18262 days after 1970: fifty years and twelve leap days. */
  lemma DaysBefore2020()
    ensures DaysBeforeYear(2020) == 18262
  {
    DaysBeforeYearClosed(2020);
    LeapDaysBefore2020();
  }

  /** Twelve leap years from 1970 to 2019: 1972, 1976, ..., 2016. */
  lemma LeapDaysBefore2020()
    ensures LeapsThrough(2019) - LeapsThrough(1969) == 12
  {
  }

  /** The day number of a date: days since 1970-01-01. */
  function EpochDay(d: Day): int {
    DaysBeforeYear(d.year) + DaysBeforeMonth(d.year, d.month) + d.day - 1
  }

  /** A day falls inside its own year. */
  lemma EpochDayInYear(d: Day)
    ensures DaysBeforeYear(d.year) <= EpochDay(d) < DaysBeforeYear(d.year) + YearLength(d.year)
  {
    MonthStarts(d.year, d.month);
    if d.month < 12 { MonthStartsMonotone(d.year, d.month, 12); MonthStarts(d.year, 12); }
  }

  /** Calendar order: strictly earlier by year, then month, then day. */
  predicate Before(a: Date, b: Date) {
    a.year < b.year ||
    (a.year == b.year && (a.month < b.month || (a.month == b.month && a.day < b.day)))
  }

  /** Day numbers follow calendar order. */
  lemma EpochDayMonotone(a: Day, b: Day)
    requires Before(a, b)
    ensures EpochDay(a) < EpochDay(b)
  {
    EpochDayInYear(a);
    EpochDayInYear(b);
    if a.year < b.year {
      YearStartsMonotone(a.year, b.year);
    } else if a.month < b.month {
      MonthStartsMonotone(a.year, a.month, b.month);
    }
  }

  /** Calendar order and day-number order agree, in both directions. */
  lemma EpochDayOrder(a: Day, b: Day)
    ensures Before(a, b) <==> EpochDay(a) < EpochDay(b)
    ensures a == b <==> EpochDay(a) == EpochDay(b)
  {
    if Before(a, b) { EpochDayMonotone(a, b); }
    else if Before(b, a) { EpochDayMonotone(b, a); }
  }

  /** The date `n` days into year `y`, searching the months from `m` on. */
  function MonthSearch(y: int, m: int, n: int): (d: Day)
    requires 1 <= m <= 12
    requires DaysBeforeMonth(y, m) <= n < YearLength(y)
    ensures d.year == y && m <= d.month
    ensures DaysBeforeMonth(y, d.month) + d.day - 1 == n
    decreases 12 - m
  {
    MonthStarts(y, m);
    if m == 12 || n < DaysBeforeMonth(y, m + 1) then
      Date(y, m, n - DaysBeforeMonth(y, m) + 1)
    else
      MonthSearch(y, m + 1, n)
  }

  /** The date `n >= 0` days after the first of January of year `y`. */
  function CountUp(y: int, n: int): (d: Day)
    requires n >= 0
    ensures EpochDay(d) == DaysBeforeYear(y) + n
    decreases n
  {
    YearStarts(y);
    if n < YearLength(y) then MonthSearch(y, 1, n)
    else CountUp(y + 1, n - YearLength(y))
  }

  /** The date `-n > 0` days before the first of January of year `y`. */
  function CountDown(y: int, n: int): (d: Day)
    requires n < 0
    ensures EpochDay(d) == DaysBeforeYear(y) + n
    decreases -n
  {
    YearStarts(y - 1);
    var k := n + YearLength(y - 1);
    if k >= 0 then MonthSearch(y - 1, 1, k)
    else CountDown(y - 1, k)
  }

  /** The day with day number `n`; what `new Date(n * 86400000)` denotes in UTC. */
  function FromEpochDay(n: int): (d: Day)
    ensures EpochDay(d) == n
  {
    if n >= 0 then CountUp(1970, n) else CountDown(1970, n)
  }

  /** FromEpochDay and EpochDay are inverse bijections between days and integers. */
  lemma FromEpochDayInverse(d: Day)
    ensures FromEpochDay(EpochDay(d)) == d
  {
    EpochDayOrder(d, FromEpochDay(EpochDay(d)));
  }

  /** Date.prototype.setFullYear(y) on a day: month and day are kept, and a
      day past the end of the month (29 February into a common year) rolls
      over into the next month. */
  function WithYear(d: Day, y: int): (r: Day)
    ensures r.year == y
    ensures d.day <= DaysInMonth(y, d.month) ==> r.month == d.month && r.day == d.day
    ensures d.day > DaysInMonth(y, d.month) ==> r == Date(y, 3, 1) && d.month == 2 && d.day == 29
  {
    if d.day <= DaysInMonth(y, d.month) then
      Date(y, d.month, d.day)
    else
      var n := DaysBeforeYear(y) + DaysBeforeMonth(y, d.month) + d.day - 1;
      assert n == EpochDay(Date(y, 3, 1)) by { MonthStarts(y, 2); }
      FromEpochDayInverse(Date(y, 3, 1));
      FromEpochDay(n)
  }
}
