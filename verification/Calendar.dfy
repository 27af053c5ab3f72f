/** Civil dates and times, and how many days and months lie between them. */
module Calendar {
  datatype Date = Date(year: int, month: int, day: int)

  /** A date, an hour of the day and the microseconds into that hour. */
  datatype DateTime = DateTime(date: Date, hour: int, micros: int)

  const MICROS_PER_HOUR := 3_600_000_000

  predicate Leap(y: int) {
    y % 4 == 0 && (y % 100 != 0 || y % 400 == 0)
  }

  function DaysIn(y: int, m: int): int {
    if m == 2 then if Leap(y) then 29 else 28
    else if m == 4 || m == 6 || m == 9 || m == 11 then 30
    else 31
  }

  predicate ValidDate(d: Date) {
    1 <= d.month <= 12 && 1 <= d.day <= DaysIn(d.year, d.month)
  }

  predicate Valid(t: DateTime) {
    ValidDate(t.date) && 0 <= t.hour < 24 && 0 <= t.micros < MICROS_PER_HOUR
  }

  // ---- the order of dates, field by field ----

  predicate DateBefore(a: Date, b: Date) {
    a.year < b.year || (a.year == b.year && (a.month < b.month || (a.month == b.month && a.day < b.day)))
  }

  predicate Before(a: DateTime, b: DateTime) {
    DateBefore(a.date, b.date) ||
    (a.date == b.date && (a.hour < b.hour || (a.hour == b.hour && a.micros < b.micros)))
  }

  predicate NotAfter(a: DateTime, b: DateTime) {
    a == b || Before(a, b)
  }

  // ---- day numbers ----

  function DaysBeforeYear(y: int): int {
    (y - 1) * 365 + (y - 1) / 4 - (y - 1) / 100 + (y - 1) / 400
  }

  function DaysBeforeMonth(y: int, m: int): int {
    (if m <= 1 then 0
    else if m == 2 then 31
    else if m == 3 then 59
    else if m == 4 then 90
    else if m == 5 then 120
    else if m == 6 then 151
    else if m == 7 then 181
    else if m == 8 then 212
    else if m == 9 then 243
    else if m == 10 then 273
    else if m == 11 then 304
    else 334) + if m > 2 && Leap(y) then 1 else 0
  }

  /** The number of the day, 1 January of the year 1 being day 1. */
  function Ordinal(d: Date): int {
    DaysBeforeYear(d.year) + DaysBeforeMonth(d.year, d.month) + d.day
  }

  lemma YearLength(y: int)
    ensures DaysBeforeYear(y + 1) == DaysBeforeYear(y) + DaysBeforeMonth(y, 12) + 31
  {
    QuotientSteps(y, 4);
    QuotientSteps(y, 100);
    QuotientSteps(y, 400);
    LeapParts(y);
  }

  lemma QuotientSteps(y: int, k: int)
    requires k == 4 || k == 100 || k == 400
    ensures y / k == (y - 1) / k + if y % k == 0 then 1 else 0
  {
  }

  lemma LeapParts(y: int)
    ensures y % 400 == 0 ==> y % 100 == 0
    ensures y % 100 == 0 ==> y % 4 == 0
  {
  }

  lemma MonthLength(y: int, m: int)
    requires 1 <= m < 12
    ensures DaysBeforeMonth(y, m + 1) == DaysBeforeMonth(y, m) + DaysIn(y, m)
  {
  }

  lemma {:induction false} YearsLater(y: int, z: int)
    requires y < z
    ensures DaysBeforeYear(y) + DaysBeforeMonth(y, 12) + 31 <= DaysBeforeYear(z)
    decreases z - y
  {
    YearLength(y);
    if y + 1 < z { YearsLater(y + 1, z); }
  }

  lemma {:induction false} MonthsLater(y: int, m: int, n: int)
    requires 1 <= m < n <= 12
    ensures DaysBeforeMonth(y, m) + DaysIn(y, m) <= DaysBeforeMonth(y, n)
    decreases n - m
  {
    MonthLength(y, m);
    if m + 1 < n { MonthsLater(y, m + 1, n); }
  }

  lemma WithinYear(y: int, m: int)
    requires 1 <= m <= 12
    ensures 0 <= DaysBeforeMonth(y, m) && DaysBeforeMonth(y, m) + DaysIn(y, m) <= DaysBeforeMonth(y, 12) + 31
  {
  }

  /** Day numbers follow the order of dates. */
  lemma LaterDate(a: Date, b: Date)
    requires ValidDate(a) && ValidDate(b) && DateBefore(a, b)
    ensures Ordinal(a) < Ordinal(b)
  {
    WithinYear(a.year, a.month);
    WithinYear(b.year, b.month);
    if a.year < b.year {
      YearsLater(a.year, b.year);
    } else if a.month < b.month {
      MonthsLater(a.year, a.month, b.month);
    }
  }

  lemma SameDay(a: Date, b: Date)
    requires ValidDate(a) && ValidDate(b)
    ensures Ordinal(a) == Ordinal(b) <==> a == b
    ensures Ordinal(a) < Ordinal(b) <==> DateBefore(a, b)
  {
    if DateBefore(a, b) { LaterDate(a, b); }
    if DateBefore(b, a) { LaterDate(b, a); }
  }

  // ---- adding days ----

  function NextDay(d: Date): Date {
    if d.day < DaysIn(d.year, d.month) then Date(d.year, d.month, d.day + 1)
    else if d.month < 12 then Date(d.year, d.month + 1, 1)
    else Date(d.year + 1, 1, 1)
  }

  function PreviousDay(d: Date): Date {
    if d.day > 1 then Date(d.year, d.month, d.day - 1)
    else if d.month > 1 then Date(d.year, d.month - 1, DaysIn(d.year, d.month - 1))
    else Date(d.year - 1, 12, 31)
  }

  /** Adding a number of days, which may be negative. */
  function AddDays(d: Date, n: int): Date
    decreases if n < 0 then -n else n
  {
    if n == 0 then d
    else if n > 0 then AddDays(NextDay(d), n - 1)
    else AddDays(PreviousDay(d), n + 1)
  }

  lemma NextDayNumber(d: Date)
    requires ValidDate(d)
    ensures ValidDate(NextDay(d)) && Ordinal(NextDay(d)) == Ordinal(d) + 1
  {
    if d.month < 12 { MonthLength(d.year, d.month); }
    YearLength(d.year);
  }

  lemma PreviousDayNumber(d: Date)
    requires ValidDate(d)
    ensures ValidDate(PreviousDay(d)) && Ordinal(PreviousDay(d)) == Ordinal(d) - 1
  {
    if d.month > 1 { MonthLength(d.year, d.month - 1); }
    YearLength(d.year - 1);
  }

  /** Across month lengths, leap days and year ends, adding days adds to the day number. */
  lemma {:induction false} AddDaysNumber(d: Date, n: int)
    requires ValidDate(d)
    ensures ValidDate(AddDays(d, n)) && Ordinal(AddDays(d, n)) == Ordinal(d) + n
    decreases if n < 0 then -n else n
  {
    if n > 0 {
      NextDayNumber(d);
      AddDaysNumber(NextDay(d), n - 1);
    } else if n < 0 {
      PreviousDayNumber(d);
      AddDaysNumber(PreviousDay(d), n + 1);
    }
  }

  /** Monday is 0. */
  function Weekday(d: Date): (w: int)
    ensures 0 <= w < 7
  {
    (Ordinal(d) + 6) % 7
  }
}
