/** The proleptic Gregorian calendar in UTC, as pandas derives it from a
    timestamp: calendar day, hour of day, day of week, and the civil date
    (year, month, day) used for month, quarter and year buckets.

    Days are numbered from 1970-01-01 (day 0); timestamps are seconds since
    the Unix epoch. */
module Calendar {

  const SecondsPerDay: int := 86400
  const SecondsPerHour: int := 3600

  /** Calendar day of a timestamp (pandas `.dt.date`): the day whose
      midnight is the latest one not after `t`. */
  function DayOf(t: int): (day: int)
    ensures SecondsPerDay * day <= t < SecondsPerDay * (day + 1)
  {
    t / SecondsPerDay
  }

  /** Hour of the day 0..23 (pandas `.dt.hour`). */
  function HourOf(t: int): (h: int)
    ensures 0 <= h < 24
    ensures SecondsPerDay * DayOf(t) + SecondsPerHour * h <= t
    ensures t < SecondsPerDay * DayOf(t) + SecondsPerHour * (h + 1)
  {
    (t % SecondsPerDay) / SecondsPerHour
  }

  /** Day of the week, Monday = 0 ... Sunday = 6 (pandas `.dt.dayofweek`).
      1970-01-01 was a Thursday. */
  function Weekday(day: int): (w: int)
    ensures 0 <= w < 7
  {
    (day + 3) % 7
  }

  /** Consecutive days have consecutive weekdays, wrapping Sunday to Monday,
      and the epoch is a Thursday. */
  lemma WeekdayProgression(day: int)
    ensures Weekday(0) == 3
    ensures Weekday(day + 1) == (Weekday(day) + 1) % 7
    ensures Weekday(day + 7) == Weekday(day)
  {
  }

  predicate IsLeapYear(y: int) {
    y % 4 == 0 && (y % 100 != 0 || y % 400 == 0)
  }

  function DaysInYear(y: int): int {
    if IsLeapYear(y) then 366 else 365
  }

  /** Days from 1970-01-01 to January 1st of year `y` (negative before 1970). */
  function DaysBeforeYear(y: int): int
    decreases if y < 1970 then 1970 - y else y - 1970
  {
    if y == 1970 then 0
    else if y > 1970 then DaysBeforeYear(y - 1) + DaysInYear(y - 1)
    else DaysBeforeYear(y + 1) - DaysInYear(y)
  }

  lemma YearStep(y: int)
    ensures DaysBeforeYear(y + 1) == DaysBeforeYear(y) + DaysInYear(y)
  {
  }

  lemma {:induction false} YearStartsIncrease(a: int, b: int)
    requires a < b
    ensures DaysBeforeYear(a) < DaysBeforeYear(b)
    decreases b - a
  {
    YearStep(a);
    if a + 1 < b {
      YearStartsIncrease(a + 1, b);
    }
  }

  /** Days of year `y` before the first of month `m`; m = 13 gives the year's length. */
  function DaysBeforeMonth(y: int, m: int): int
    requires 1 <= m <= 13
  {
    [0, 31, 59, 90, 120, 151, 181, 212, 243, 273, 304, 334, 365][m - 1]
    + (if m > 2 && IsLeapYear(y) then 1 else 0)
  }

  function DaysInMonth(y: int, m: int): (n: int)
    requires 1 <= m <= 12
    ensures 28 <= n <= 31
    ensures n == 29 <==> m == 2 && IsLeapYear(y)
  {
    DaysBeforeMonth(y, m + 1) - DaysBeforeMonth(y, m)
  }

  datatype Date = Date(year: int, month: int, day: int)

  predicate ValidDate(d: Date) {
    1 <= d.month <= 12 && 1 <= d.day <= DaysInMonth(d.year, d.month)
  }

  /** Day number of a civil date. */
  function DaysFromCivil(d: Date): int
    requires 1 <= d.month <= 12
  {
    DaysBeforeYear(d.year) + DaysBeforeMonth(d.year, d.month) + d.day - 1
  }

  /** The year containing `day`, searching forward from year `y`. */
  function YearForward(day: int, y: int): (r: int)
    requires DaysBeforeYear(y) <= day
    ensures y <= r
    ensures DaysBeforeYear(r) <= day < DaysBeforeYear(r + 1)
    decreases day - DaysBeforeYear(y)
  {
    YearStep(y);
    if day < DaysBeforeYear(y + 1) then y else YearForward(day, y + 1)
  }

  /** The year containing `day`, searching backward from year `y`. */
  function YearBackward(day: int, y: int): (r: int)
    requires day < DaysBeforeYear(y + 1)
    ensures r <= y
    ensures DaysBeforeYear(r) <= day < DaysBeforeYear(r + 1)
    decreases DaysBeforeYear(y + 1) - day
  {
    YearStep(y);
    if DaysBeforeYear(y) <= day then y else YearBackward(day, y - 1)
  }

  /** The month containing day-of-year `doy` of year `y`, searching from month `m`. */
  function MonthFrom(y: int, doy: int, m: int): (r: int)
    requires 1 <= m <= 12
    requires DaysBeforeMonth(y, m) <= doy < DaysBeforeMonth(y, 13)
    ensures m <= r <= 12
    ensures DaysBeforeMonth(y, r) <= doy < DaysBeforeMonth(y, r + 1)
    decreases 12 - m
  {
    if doy < DaysBeforeMonth(y, m + 1) then m else MonthFrom(y, doy, m + 1)
  }

  /** The civil date of a day number; it is a valid date and maps back to the
      same day number. */
  function CivilFromDays(day: int): (d: Date)
    ensures ValidDate(d)
    ensures DaysFromCivil(d) == day
  {
    YearStep(1970);
    var y := if day >= 0 then YearForward(day, 1970) else YearBackward(day, 1970);
    YearStep(y);
    var doy := day - DaysBeforeYear(y);
    var m := MonthFrom(y, doy, 1);
    Date(y, m, doy - DaysBeforeMonth(y, m) + 1)
  }

  /** The year is determined by the day: the year intervals do not overlap. */
  lemma YearUnique(day: int, a: int, b: int)
    requires DaysBeforeYear(a) <= day < DaysBeforeYear(a + 1)
    requires DaysBeforeYear(b) <= day < DaysBeforeYear(b + 1)
    ensures a == b
  {
    if a < b {
      if a + 1 < b { YearStartsIncrease(a + 1, b); }
    } else if b < a {
      if b + 1 < a { YearStartsIncrease(b + 1, a); }
    }
  }

  /** Every valid civil date is the image of exactly its own day number. */
  lemma CivilRoundTrip(d: Date)
    requires ValidDate(d)
    ensures CivilFromDays(DaysFromCivil(d)) == d
  {
    var day := DaysFromCivil(d);
    var c := CivilFromDays(day);
    assert c.year == d.year by {
      YearStep(d.year);
      YearStep(c.year);
      YearUnique(day, d.year, c.year);
    }
    MonthUnique(d.year, day - DaysBeforeYear(d.year), d.month, c.month);
  }

  /** The month is determined by the day of the year. */
  lemma MonthUnique(y: int, doy: int, a: int, b: int)
    requires 1 <= a <= 12 && 1 <= b <= 12
    requires DaysBeforeMonth(y, a) <= doy < DaysBeforeMonth(y, a + 1)
    requires DaysBeforeMonth(y, b) <= doy < DaysBeforeMonth(y, b + 1)
    ensures a == b
  {
  }

  /** Months since January of year 0: the key of pandas' monthly Period. */
  function MonthIndex(day: int): (k: int)
    ensures k % 12 + 1 == CivilFromDays(day).month
    ensures k / 12 == CivilFromDays(day).year
  {
    var d := CivilFromDays(day);
    12 * d.year + d.month - 1
  }

  /** Quarters since year 0 (pandas' quarterly Period): three months each. */
  function QuarterIndex(day: int): (q: int)
    ensures q == MonthIndex(day) / 3
    ensures q % 4 + 1 == (CivilFromDays(day).month - 1) / 3 + 1
  {
    var d := CivilFromDays(day);
    var r := d.month - 1;
    assert 12 * d.year + r == 3 * (4 * d.year + r / 3) + r % 3;
    4 * d.year + r / 3
  }

  /** Calendar year (pandas `.dt.year`). */
  function YearOf(day: int): (y: int)
    ensures y == MonthIndex(day) / 12
  {
    CivilFromDays(day).year
  }

  /** The first day of month index `k`. */
  function MonthStart(k: int): int {
    DaysFromCivil(Date(k / 12, k % 12 + 1, 1))
  }

  lemma MonthStartStep(k: int)
    ensures MonthStart(k) < MonthStart(k + 1)
  {
    var y := k / 12;
    if k % 12 == 11 {
      assert (k + 1) / 12 == y + 1 && (k + 1) % 12 == 0;
      YearStep(y);
    } else {
      assert (k + 1) / 12 == y && (k + 1) % 12 == k % 12 + 1;
    }
  }

  lemma {:induction false} MonthStartsIncrease(a: int, b: int)
    requires a < b
    ensures MonthStart(a) < MonthStart(b)
    decreases b - a
  {
    MonthStartStep(a);
    if a + 1 < b {
      MonthStartsIncrease(a + 1, b);
    }
  }

  /** Every day lies in the month its index names. */
  lemma DayInItsMonth(day: int)
    ensures MonthStart(MonthIndex(day)) <= day < MonthStart(MonthIndex(day) + 1)
  {
    var d := CivilFromDays(day);
    var k := MonthIndex(day);
    assert k / 12 == d.year && k % 12 == d.month - 1;
    if d.month == 12 {
      assert (k + 1) / 12 == d.year + 1 && (k + 1) % 12 == 0;
      YearStep(d.year);
    } else {
      assert (k + 1) / 12 == d.year && (k + 1) % 12 == d.month;
    }
  }

  /** The first day of month `k` belongs to month `k`. */
  lemma MonthOfMonthStart(k: int)
    ensures MonthIndex(MonthStart(k)) == k
  {
    var d := Date(k / 12, k % 12 + 1, 1);
    CivilRoundTrip(d);
  }

  /** Month indices follow the calendar: a later day never has an earlier month. */
  lemma MonthIndexMonotone(d1: int, d2: int)
    requires d1 <= d2
    ensures MonthIndex(d1) <= MonthIndex(d2)
  {
    var k1 := MonthIndex(d1);
    var k2 := MonthIndex(d2);
    if k2 < k1 {
      assert MonthStart(k1) <= d1 by { DayInItsMonth(d1); }
      assert d2 < MonthStart(k2 + 1) by { DayInItsMonth(d2); }
      if k2 + 1 < k1 {
        MonthStartsIncrease(k2 + 1, k1);
      }
      assert false;
    }
  }

  /** Every month between the months of `lo` and `hi` has a day in [lo, hi]. */
  lemma MonthsCovered(lo: int, hi: int, k: int)
    requires lo <= hi
    requires MonthIndex(lo) <= k <= MonthIndex(hi)
    ensures exists day :: lo <= day <= hi && MonthIndex(day) == k
  {
    if k == MonthIndex(lo) {
      assert MonthIndex(lo) == k;
    } else {
      DayInItsMonth(lo);
      DayInItsMonth(hi);
      MonthOfMonthStart(k);
      if MonthIndex(lo) + 1 < k {
        MonthStartsIncrease(MonthIndex(lo) + 1, k);
      }
      if k < MonthIndex(hi) {
        MonthStartsIncrease(k, MonthIndex(hi));
      }
      assert lo <= MonthStart(k) <= hi;
    }
  }
}
