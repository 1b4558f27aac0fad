/**
 * The proleptic Gregorian calendar of Python's `datetime` module: years 1 to 9999,
 * day ordinals counted from 0001-01-01, and instants counted in seconds.
 */
module Calendar {

  const MinYear := 1
  const MaxYear := 9999

  predicate IsLeapYear(year: int) {
    year % 4 == 0 && (year % 100 != 0 || year % 400 == 0)
  }

  function DaysInYear(year: int): int {
    if IsLeapYear(year) then 366 else 365
  }

  function DaysInMonth(year: int, month: int): int
    requires 1 <= month <= 12
  {
    if month == 2 then (if IsLeapYear(year) then 29 else 28)
    else if month == 4 || month == 6 || month == 9 || month == 11 then 30
    else 31
  }

  /** Days in the months of `year` that precede `month`. */
  function DaysBeforeMonth(year: int, month: int): int
    requires 1 <= month <= 12
  {
    var leap := if month > 2 && IsLeapYear(year) then 1 else 0;
    leap +
    (if month == 1 then 0 else if month == 2 then 31 else if month == 3 then 59
     else if month == 4 then 90 else if month == 5 then 120 else if month == 6 then 151
     else if month == 7 then 181 else if month == 8 then 212 else if month == 9 then 243
     else if month == 10 then 273 else if month == 11 then 304 else 334)
  }

  /** Days in the years 1 .. year - 1. */
  function DaysBeforeYear(year: int): int
    requires year >= MinYear
    decreases year
  {
    if year == MinYear then 0 else DaysBeforeYear(year - 1) + DaysInYear(year - 1)
  }

  predicate ValidDate(year: int, month: int, day: int) {
    MinYear <= year <= MaxYear && 1 <= month <= 12 && 1 <= day <= DaysInMonth(year, month)
  }

  /** A naive `datetime` without fractional seconds. */
  datatype DateTime = DateTime(year: int, month: int, day: int, hour: int, minute: int, second: int)

  /** The field ranges that Python's `datetime` constructor enforces. */
  predicate Valid(t: DateTime) {
    && ValidDate(t.year, t.month, t.day)
    && 0 <= t.hour < 24 && 0 <= t.minute < 60 && 0 <= t.second < 60
  }

  /** Day number of a date, 0001-01-01 being day 1 (as `date.toordinal`). */
  function Ordinal(year: int, month: int, day: int): int
    requires year >= MinYear && 1 <= month <= 12
  {
    DaysBeforeYear(year) + DaysBeforeMonth(year, month) + day
  }

  /** Seconds elapsed from 0001-01-01 00:00:00 to `t`. */
  function Instant(t: DateTime): int
    requires Valid(t)
  {
    (Ordinal(t.year, t.month, t.day) - 1) * 86400 + t.hour * 3600 + t.minute * 60 + t.second
  }

  /** The last representable second, `datetime.max` without microseconds. */
  const Last := DateTime(MaxYear, 12, 31, 23, 59, 59)

  /** The calendar day after the date of `t`, at the same time of day; its year may be MaxYear + 1. */
  function NextDay(t: DateTime): (r: DateTime)
    requires Valid(t)
    ensures r.year >= MinYear && 1 <= r.month <= 12
    ensures Ordinal(r.year, r.month, r.day) == Ordinal(t.year, t.month, t.day) + 1
    ensures r.year <= MaxYear ==> ValidDate(r.year, r.month, r.day)
    ensures r.year > MaxYear <==> t.year == MaxYear && t.month == 12 && t.day == 31
    ensures (r.hour, r.minute, r.second) == (t.hour, t.minute, t.second)
  {
    if t.day < DaysInMonth(t.year, t.month) then t.(day := t.day + 1)
    else if t.month < 12 then t.(month := t.month + 1, day := 1)
    else t.(year := t.year + 1, month := 1, day := 1)
  }

  lemma {:induction false} DaysBeforeYearMonotone(a: int, b: int)
    requires MinYear <= a <= b
    ensures DaysBeforeYear(a) + 365 * (b - a) <= DaysBeforeYear(b)
    decreases b - a
  {
    if a < b {
      DaysBeforeYearMonotone(a, b - 1);
    }
  }

  lemma DaysBeforeMonthMonotone(year: int, a: int, b: int)
    requires 1 <= a <= b <= 12
    ensures DaysBeforeMonth(year, a) + 28 * (b - a) <= DaysBeforeMonth(year, b)
  {
  }

  /** The day of the year of a valid date lies in 1 .. DaysInYear, after the days of earlier months. */
  lemma DayOfYearBounds(year: int, month: int, day: int)
    requires ValidDate(year, month, day)
    ensures 1 <= DaysBeforeMonth(year, month) + day <= DaysInYear(year)
    ensures month < 12 ==> DaysBeforeMonth(year, month) + day <= DaysBeforeMonth(year, month + 1)
  {
  }

  /** Distinct valid dates have distinct ordinals. */
  lemma OrdinalInjective(y1: int, m1: int, d1: int, y2: int, m2: int, d2: int)
    requires ValidDate(y1, m1, d1) && ValidDate(y2, m2, d2)
    requires Ordinal(y1, m1, d1) == Ordinal(y2, m2, d2)
    ensures y1 == y2 && m1 == m2 && d1 == d2
  {
    DayOfYearBounds(y1, m1, d1);
    DayOfYearBounds(y2, m2, d2);
    if y1 < y2 {
      DaysBeforeYearMonotone(y1 + 1, y2);
    } else if y2 < y1 {
      DaysBeforeYearMonotone(y2 + 1, y1);
    } else if m1 < m2 {
      DaysBeforeMonthMonotone(y1, m1 + 1, m2);
    } else if m2 < m1 {
      DaysBeforeMonthMonotone(y1, m2 + 1, m1);
    }
  }

  /** Distinct valid date-times denote distinct instants. */
  lemma InstantInjective(a: DateTime, b: DateTime)
    requires Valid(a) && Valid(b) && Instant(a) == Instant(b)
    ensures a == b
  {
    var oa, ob := Ordinal(a.year, a.month, a.day), Ordinal(b.year, b.month, b.day);
    assert oa == ob;
    OrdinalInjective(a.year, a.month, a.day, b.year, b.month, b.day);
  }

  /** Every valid date-time lies between 0001-01-01 00:00:00 and Last. */
  lemma InstantRange(t: DateTime)
    requires Valid(t)
    ensures 0 <= Instant(t) <= Instant(Last)
  {
    DayOfYearBounds(t.year, t.month, t.day);
    DaysBeforeYearMonotone(MinYear, t.year);
    DaysBeforeYearMonotone(t.year + 1 , MaxYear + 1);
    assert DaysBeforeYear(MaxYear + 1) == DaysBeforeYear(MaxYear) + DaysInYear(MaxYear);
  }
}
