/**
 * The slice of Go's `time` package that the shard retention test relies on:
 * durations in nanoseconds held in an int64, the proleptic Gregorian calendar
 * with the month and day normalisation that `time.Date` applies, and
 * `Time.Sub`, which saturates instead of overflowing.
 *
 * Instants are nanoseconds since 1970-01-01T00:00:00Z.
 */
module Calendar {

  const Second: int := 1_000_000_000
  const Hour: int := 3600 * Second
  const Day: int := 24 * Hour

  /** The range of Go's `time.Duration`, an int64 count of nanoseconds. */
  const MinDuration: int := -0x8000_0000_0000_0000
  const MaxDuration: int := 0x7fff_ffff_ffff_ffff

  predicate IsDuration(d: int) {
    MinDuration <= d <= MaxDuration
  }

  predicate IsLeap(year: int) {
    year % 4 == 0 && (year % 100 != 0 || year % 400 == 0)
  }

  /** Days from 0000-01-01 to January 1st of `year`. */
  function DaysBeforeYear(year: int): int {
    365 * year + (year - 1) / 4 - (year - 1) / 100 + (year - 1) / 400 + 1
  }

  /** Days in the months of `year` before `month` (1..12). */
  function DaysBeforeMonth(year: int, month: int): int
    requires 1 <= month <= 12
  {
    var before := [0, 31, 59, 90, 120, 151, 181, 212, 243, 273, 304, 334][month - 1];
    if IsLeap(year) && month >= 3 then before + 1 else before
  }

  function DaysIn(year: int, month: int): int
    requires 1 <= month <= 12
  {
    if month == 2 then (if IsLeap(year) then 29 else 28)
    else if month in {4, 6, 9, 11} then 30
    else 31
  }

  /**
   * Days since 1970-01-01 of `time.Date(year, month, day, ...)`: a month
   * outside 1..12 carries into the year and a day outside the month carries
   * into the neighbouring months, exactly as Go normalises them.
   */
  function CivilDays(year: int, month: int, day: int): int {
    var y := year + (month - 1) / 12;
    var m := (month - 1) % 12 + 1;
    DaysBeforeYear(y) + DaysBeforeMonth(y, m) + (day - 1) - DaysBeforeYear(1970)
  }

  /** `time.Date(year, month, day, 0, 0, 0, 0, time.UTC)` as an instant. */
  function MidnightUtc(year: int, month: int, day: int): int {
    CivilDays(year, month, day) * Day
  }

  /** `now.Sub(then)`: the difference, clamped to the Duration range. */
  function Elapsed(now: int, since: int): (d: int)
    ensures IsDuration(d)
    ensures IsDuration(now - since) ==> d == now - since
    ensures now - since > MaxDuration ==> d == MaxDuration
    ensures now - since < MinDuration ==> d == MinDuration
  {
    if now - since > MaxDuration then MaxDuration
    else if now - since < MinDuration then MinDuration
    else now - since
  }

  /** `Elapsed` never decreases as `now` advances. */
  lemma ElapsedMonotone(now1: int, now2: int, since: int)
    requires now1 <= now2
    ensures Elapsed(now1, since) <= Elapsed(now2, since)
  {
  }

  /**
   * Against a threshold inside the Duration range, the clamped difference
   * exceeds it exactly when the true difference does: clamping never turns
   * an age test's answer around.
   */
  lemma ElapsedExceedsExactly(now: int, since: int, age: int)
    requires MinDuration <= age < MaxDuration
    ensures Elapsed(now, since) > age <==> now - since > age
  {
  }

  /** Stepping the dividend up to `b` raises the floor quotient exactly when `b` is a multiple of the divisor. */
  lemma QuotientStep(b: int, k: int)
    requires k in {4, 100, 400}
    ensures b / k - (b - 1) / k == if b % k == 0 then 1 else 0
  {
    var q, r := (b - 1) / k, (b - 1) % k;
    assert b - 1 == k * q + r && 0 <= r < k;
    if r == k - 1 {
      assert b == k * (q + 1);
    } else {
      assert b == k * q + (r + 1);
    }
  }

  /** Within 1..12 the month needs no normalisation. */
  lemma InRangeMonth(year: int, month: int, day: int)
    requires 1 <= month <= 12
    ensures CivilDays(year, month, day)
         == DaysBeforeYear(year) + DaysBeforeMonth(year, month) + (day - 1) - DaysBeforeYear(1970)
  {
    assert (month - 1) / 12 == 0 && (month - 1) % 12 == month - 1;
  }

  /** Consecutive New Year's days are 366 days apart after a leap year and 365 otherwise. */
  lemma YearStep(year: int)
    ensures DaysBeforeYear(year + 1) - DaysBeforeYear(year) == if IsLeap(year) then 366 else 365
  {
    QuotientStep(year, 4);
    QuotientStep(year, 100);
    QuotientStep(year, 400);
    DivisorsNest(year);
    var d4, d100, d400 := year / 4 - (year - 1) / 4, year / 100 - (year - 1) / 100, year / 400 - (year - 1) / 400;
    assert DaysBeforeYear(year + 1) - DaysBeforeYear(year) == 365 + d4 - d100 + d400;
  }

  /** A multiple of 400 is a multiple of 100, and a multiple of 100 a multiple of 4. */
  lemma DivisorsNest(year: int)
    ensures year % 400 == 0 ==> year % 100 == 0
    ensures year % 100 == 0 ==> year % 4 == 0
  {
    if year % 400 == 0 {
      var q := year / 400;
      assert year == 100 * (4 * q);
    }
    if year % 100 == 0 {
      var q := year / 100;
      assert year == 4 * (25 * q);
    }
  }

  /** A year has 366 days when it is a leap year and 365 otherwise. */
  lemma YearLength(year: int)
    ensures CivilDays(year + 1, 1, 1) - CivilDays(year, 1, 1) == if IsLeap(year) then 366 else 365
  {
    InRangeMonth(year, 1, 1);
    InRangeMonth(year + 1, 1, 1);
    YearStep(year);
  }

  /** The day after the last day of a month is the first day of the next month (month 13 being January of the next year). */
  lemma MonthEndCarries(year: int, month: int)
    requires 1 <= month <= 12
    ensures CivilDays(year, month, DaysIn(year, month) + 1) == CivilDays(year, month + 1, 1)
  {
    InRangeMonth(year, month, DaysIn(year, month) + 1);
    if month == 12 {
      YearLength(year);
      MonthCarries(year, 1, 1);
    } else {
      InRangeMonth(year, month + 1, 1);
      MonthStep(year, month);
    }
  }

  /** Within a year, the next month starts after the days of this one. */
  lemma MonthStep(year: int, month: int)
    requires 1 <= month < 12
    ensures DaysBeforeMonth(year, month + 1) - DaysBeforeMonth(year, month) == DaysIn(year, month)
  {
  }

  /** Month 0 is December of the previous year and month 13 January of the next. */
  lemma MonthCarries(year: int, month: int, day: int)
    ensures CivilDays(year, month + 12, day) == CivilDays(year + 1, month, day)
  {
  }

  /** Calibration: the epoch and the first day of 2024. */
  lemma KnownDates()
    ensures MidnightUtc(1970, 1, 1) == 0
    ensures MidnightUtc(2024, 1, 1) == 1_704_067_200 * Second
  {
  }
}
