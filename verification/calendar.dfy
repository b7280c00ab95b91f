/** Gregorian dates and date-times in .NET's range (years 1 to 9999), with
    the operations the pages use: `DateTime.Date`, day arithmetic
    (`AddDays`), and comparison of calendar days. */
module Calendar {
  import opened Wrappers
  import opened Clock

  datatype Date = Date(year: int, month: int, day: int)

  predicate IsLeapYear(y: int) {
    y % 4 == 0 && (y % 100 != 0 || y % 400 == 0)
  }

  function DaysInMonth(y: int, m: int): (n: int)
    requires 1 <= m <= 12
    ensures 28 <= n <= 31
  {
    if m == 2 then (if IsLeapYear(y) then 29 else 28)
    else if m == 4 || m == 6 || m == 9 || m == 11 then 30
    else 31
  }

  /** A date `System.DateTime` can represent. */
  predicate ValidDate(d: Date) {
    && 1 <= d.year <= 9999
    && 1 <= d.month <= 12
    && 1 <= d.day <= DaysInMonth(d.year, d.month)
  }

  const MaxDate: Date := Date(9999, 12, 31)

  /** Strictly earlier calendar day. */
  predicate Before(a: Date, b: Date) {
    || a.year < b.year
    || (a.year == b.year && a.month < b.month)
    || (a.year == b.year && a.month == b.month && a.day < b.day)
  }

  /** Days in the years before `y`, by the Gregorian rule: 365 each, plus
      one for each leap year among them. */
  function DaysBeforeYear(y: int): int
    requires y >= 1
  {
    var k := y - 1;
    365 * k + k / 4 - k / 100 + k / 400
  }

  /** Days in the months of `y` before month `m`. */
  function DaysBeforeMonth(y: int, m: int): int
    requires 1 <= m <= 12
  {
    var common :=
      if m == 1 then 0 else if m == 2 then 31 else if m == 3 then 59
      else if m == 4 then 90 else if m == 5 then 120 else if m == 6 then 151
      else if m == 7 then 181 else if m == 8 then 212 else if m == 9 then 243
      else if m == 10 then 273 else if m == 11 then 304 else 334;
    if m > 2 && IsLeapYear(y) then common + 1 else common
  }

  /** Reference numbering of the calendar: days since 1 January of year 1,
      which is day 0 (`DateTime.Ticks / TimeSpan.TicksPerDay`). */
  function DayNumber(d: Date): int
    requires ValidDate(d)
  {
    DaysBeforeYear(d.year) + DaysBeforeMonth(d.year, d.month) + d.day - 1
  }

  function YearLength(y: int): int {
    if IsLeapYear(y) then 366 else 365
  }

  /** A year holds 365 days, or 366 in a leap year. */
  lemma YearStep(y: int)
    requires y >= 1
    ensures DaysBeforeYear(y + 1) == DaysBeforeYear(y) + YearLength(y)
  {
    var k := y - 1;
    assert y / 4 == k / 4 + (if y % 4 == 0 then 1 else 0);
    assert y / 100 == k / 100 + (if y % 100 == 0 then 1 else 0);
    assert y / 400 == k / 400 + (if y % 400 == 0 then 1 else 0);
  }

  /** The months of a year follow on from each other and fill the year. */
  lemma MonthStep(y: int, m: int)
    requires 1 <= m <= 12
    ensures m < 12 ==> DaysBeforeMonth(y, m + 1) == DaysBeforeMonth(y, m) + DaysInMonth(y, m)
    ensures m == 12 ==> DaysBeforeMonth(y, m) + DaysInMonth(y, m) == YearLength(y)
  {
  }

  /** The calendar day that follows `d`; none after 31 December 9999. */
  function NextDay(d: Date): (r: Option<Date>)
    requires ValidDate(d)
    ensures r.None? <==> d == MaxDate
    ensures r.Some? ==> ValidDate(r.value) && Before(d, r.value)
    ensures r.Some? ==> DayNumber(r.value) == DayNumber(d) + 1
  {
    if d.day < DaysInMonth(d.year, d.month) then Some(Date(d.year, d.month, d.day + 1))
    else if d.month < 12 then
      MonthStep(d.year, d.month);
      Some(Date(d.year, d.month + 1, 1))
    else if d.year < 9999 then
      MonthStep(d.year, d.month);
      YearStep(d.year);
      Some(Date(d.year + 1, 1, 1))
    else None
  }

  /** `DateTime.AddDays(n)` on a date; none when the result would pass the
      last representable day (where .NET throws). The day reached is
      exactly `n` days on. */
  function AddDays(d: Date, n: nat): (r: Option<Date>)
    requires ValidDate(d)
    ensures r.Some? ==> ValidDate(r.value) && DayNumber(r.value) == DayNumber(d) + n
    ensures r.None? ==> DayNumber(d) + n > DayNumber(MaxDate)
    decreases n
  {
    if n == 0 then Some(d)
    else match NextDay(d)
      case None => None
      case Some(e) => AddDays(e, n - 1)
  }

  lemma BeforeTransitive(a: Date, b: Date, c: Date)
    requires Before(a, b) && Before(b, c)
    ensures Before(a, c)
  {
  }

  /** Moving forward a positive number of days lands strictly later. */
  lemma {:induction false} AddDaysIsLater(d: Date, n: nat)
    requires ValidDate(d) && n > 0 && AddDays(d, n).Some?
    ensures Before(d, AddDays(d, n).value)
    decreases n
  {
    var e := NextDay(d).value;
    if n > 1 {
      AddDaysIsLater(e, n - 1);
      BeforeTransitive(d, e, AddDays(e, n - 1).value);
    }
  }

  /** Each year is longer than the one before it begins: day numbers grow
      with the year. */
  lemma {:induction false} DaysBeforeYearGrows(y1: int, y2: int)
    requires 1 <= y1 < y2
    ensures DaysBeforeYear(y1) + YearLength(y1) <= DaysBeforeYear(y2)
    decreases y2 - y1
  {
    YearStep(y1);
    if y1 + 1 < y2 {
      DaysBeforeYearGrows(y1 + 1, y2);
    }
  }

  /** Within a year, a day's number lies before the start of the next year. */
  lemma DayOfYearBound(d: Date)
    requires ValidDate(d)
    ensures DaysBeforeYear(d.year) <= DayNumber(d) < DaysBeforeYear(d.year) + YearLength(d.year)
  {
    MonthStep(d.year, 12);
  }

  /** The day numbering agrees with the calendar order: an earlier day has
      a smaller number, and only equal days share one. */
  lemma DayNumberOrder(a: Date, b: Date)
    requires ValidDate(a) && ValidDate(b)
    ensures Before(a, b) <==> DayNumber(a) < DayNumber(b)
    ensures a == b <==> DayNumber(a) == DayNumber(b)
  {
    if a.year < b.year {
      DayOfYearBound(a);
      DayOfYearBound(b);
      DaysBeforeYearGrows(a.year, b.year);
    } else if b.year < a.year {
      DayOfYearBound(a);
      DayOfYearBound(b);
      DaysBeforeYearGrows(b.year, a.year);
    }
  }

  /** No valid day lies strictly between a day and the next one. */
  lemma NextDayImmediate(d: Date, e: Date)
    requires ValidDate(d) && ValidDate(e) && NextDay(d).Some?
    ensures !(Before(d, e) && Before(e, NextDay(d).value))
  {
    DayNumberOrder(d, e);
    DayNumberOrder(e, NextDay(d).value);
  }

  /** `AddDays` has a result exactly when the target day number is within
      the calendar, and then lands on that number. */
  lemma AddDaysInRange(d: Date, n: nat)
    requires ValidDate(d)
    ensures AddDays(d, n).Some? <==> DayNumber(d) + n <= DayNumber(MaxDate)
    ensures AddDays(d, n).Some? ==> DayNumber(AddDays(d, n).value) == DayNumber(d) + n
  {
    var r := AddDays(d, n);
    if r.Some? {
      DayNumberOrder(r.value, MaxDate);
    }
  }

  /** Calendar days are totally ordered: exactly one of earlier, same, later. */
  lemma Trichotomy(a: Date, b: Date)
    ensures Before(a, b) || a == b || Before(b, a)
    ensures !(Before(a, b) && Before(b, a))
    ensures !Before(a, a)
  {
  }

  /** A `System.DateTime`: a calendar day and a time of day in ticks. */
  datatype DateTime = DateTime(date: Date, timeOfDay: int)

  predicate ValidDateTime(t: DateTime) {
    ValidDate(t.date) && IsTimeOfDay(t.timeOfDay)
  }

  /** Midnight at the start of `d`, which is what `DateTime.Date` and
      `DateTime.Today` give. */
  function Midnight(d: Date): DateTime {
    DateTime(d, 0)
  }

  /** `DateTime.Date`: the same day at midnight. */
  function DatePart(t: DateTime): (r: DateTime)
    ensures r.date == t.date && r.timeOfDay == 0
  {
    Midnight(t.date)
  }

  /** The value truncated to the whole minute (seconds and ticks dropped). */
  function TruncateToMinute(t: DateTime): (r: DateTime)
    requires ValidDateTime(t)
    ensures ValidDateTime(r) && r.date == t.date
    ensures r.timeOfDay <= t.timeOfDay < r.timeOfDay + TicksPerMinute
    ensures r.timeOfDay % TicksPerMinute == 0
  {
    DateTime(t.date, (t.timeOfDay / TicksPerMinute) * TicksPerMinute)
  }
}
