/** Proleptic Gregorian calendar arithmetic and instants on the UTC time line.

    An instant is a count of nanoseconds since 1970-01-01T00:00:00Z, which is
    the resolution of Go's `time.Time`. */
module Civil {

  type Instant = int

  const Second: int := 1_000_000_000
  const Hour: int := 3600 * Second
  /** `24 * time.Hour` */
  const Day: int := 24 * Hour

  /** A calendar date as Go's `time.Parse("2006-01-02", ...)` yields it. */
  datatype Date = Date(year: int, month: int, day: int)

  /** The Gregorian leap-year rule: every fourth year, except centuries not divisible by 400. */
  predicate IsLeapYear(y: int) {
    y % 4 == 0 && (y % 100 != 0 || y % 400 == 0)
  }

  function DaysInMonth(y: int, m: int): (n: int)
    requires 1 <= m <= 12
    ensures 28 <= n <= 31
    ensures m == 2 ==> (n == 29 <==> IsLeapYear(y))
  {
    if m == 2 then (if IsLeapYear(y) then 29 else 28)
    else if m == 4 || m == 6 || m == 9 || m == 11 then 30
    else 31
  }

  predicate ValidDate(d: Date) {
    1 <= d.month <= 12 && 1 <= d.day <= DaysInMonth(d.year, d.month)
  }

  /** Number of leap years in 1..n (for n < 0 the same closed form, counted backwards). */
  function LeapsThrough(n: int): int {
    n / 4 - n / 100 + n / 400
  }

  /** Days from 1970-01-01 to January 1st of year y. */
  function DaysBeforeYear(y: int): int {
    365 * (y - 1970) + LeapsThrough(y - 1) - LeapsThrough(1969)
  }

  /** Days from January 1st to the first of month m in year y. */
  function DaysBeforeMonth(y: int, m: int): int
    requires 1 <= m <= 12
  {
    var cumulative := [0, 31, 59, 90, 120, 151, 181, 212, 243, 273, 304, 334];
    cumulative[m - 1] + (if m > 2 && IsLeapYear(y) then 1 else 0)
  }

  /** Day number of a date, counted from the Unix epoch (1970-01-01 is day 0). */
  function DaysFromCivil(d: Date): int
    requires ValidDate(d)
  {
    DaysBeforeYear(d.year) + DaysBeforeMonth(d.year, d.month) + d.day - 1
  }

  /** The calendar date after d. */
  function NextDate(d: Date): (r: Date)
    requires ValidDate(d)
    ensures ValidDate(r)
  {
    if d.day < DaysInMonth(d.year, d.month) then Date(d.year, d.month, d.day + 1)
    else if d.month < 12 then Date(d.year, d.month + 1, 1)
    else Date(d.year + 1, 1, 1)
  }

  /** 00:00:00 UTC of a date. */
  function StartOfDate(d: Date): Instant
    requires ValidDate(d)
  {
    DaysFromCivil(d) * Day
  }

  /** `time.Date(t.Year(), t.Month(), t.Day(), 0, 0, 0, 0, time.UTC)`: t truncated to its UTC midnight. */
  function UtcMidnightOf(t: Instant): Instant {
    (t / Day) * Day
  }

  predicate IsUtcMidnight(t: Instant) {
    t % Day == 0
  }

  /** Whole days divide back exactly. */
  lemma DayMultiple(k: int)
    ensures (k * Day) / Day == k && (k * Day) % Day == 0
  {
  }

  lemma LeapsStep(y: int)
    ensures LeapsThrough(y) - LeapsThrough(y - 1) == if IsLeapYear(y) then 1 else 0
  {
    var a, b, c := y / 4 - (y - 1) / 4, y / 100 - (y - 1) / 100, y / 400 - (y - 1) / 400;
    assert a == (if y % 4 == 0 then 1 else 0);
    assert b == (if y % 100 == 0 then 1 else 0);
    assert c == (if y % 400 == 0 then 1 else 0);
    assert y % 100 == 0 ==> y % 4 == 0;
    assert y % 400 == 0 ==> y % 100 == 0;
  }

  /** A year has 366 days exactly when the leap-year rule says so. */
  lemma YearLength(y: int)
    ensures DaysBeforeYear(y + 1) - DaysBeforeYear(y) == if IsLeapYear(y) then 366 else 365
  {
    LeapsStep(y);
  }

  /** The epoch is day 0. */
  lemma EpochIsDayZero()
    ensures DaysFromCivil(Date(1970, 1, 1)) == 0
  {
  }

  /** Consecutive dates have consecutive day numbers, across month and year ends. */
  lemma NextDateIsNextDay(d: Date)
    requires ValidDate(d)
    ensures DaysFromCivil(NextDate(d)) == DaysFromCivil(d) + 1
  {
    if d.day == DaysInMonth(d.year, d.month) && d.month == 12 {
      YearLength(d.year);
    }
  }

  /** Every date starts at a UTC midnight, and the next date starts exactly 24 hours later. */
  lemma StartOfNextDate(d: Date)
    requires ValidDate(d)
    ensures IsUtcMidnight(StartOfDate(d))
    ensures StartOfDate(NextDate(d)) == StartOfDate(d) + Day
  {
    NextDateIsNextDay(d);
    DayMultiple(DaysFromCivil(d));
  }

  /** A UTC midnight is its own truncation; any instant truncates to the latest midnight not after it. */
  lemma UtcMidnightOfSpec(t: Instant)
    ensures IsUtcMidnight(UtcMidnightOf(t))
    ensures UtcMidnightOf(t) <= t < UtcMidnightOf(t) + Day
    ensures IsUtcMidnight(t) ==> UtcMidnightOf(t) == t
  {
  }
}
