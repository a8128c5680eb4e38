/**
 * The record timestamps of database.py: naive `datetime` values with the
 * proleptic Gregorian weekday rule of Python's `datetime.weekday()`
 * (0 = Monday, ..., 6 = Sunday), and the order in which the table sorts them.
 *
 * The table stores `dt.isoformat()`, whose text order for years 1..9999 is
 * the field-by-field order `Before` defined here.
 */
module Timestamps {

  datatype DateTime = DateTime(year: int, month: int, day: int, hour: int, minute: int, second: int, microsecond: int)

  predicate IsLeap(y: int) {
    y % 4 == 0 && (y % 100 != 0 || y % 400 == 0)
  }

  function DaysInMonth(y: int, m: int): (n: int)
    requires 1 <= m <= 12
    ensures 28 <= n <= 31
  {
    if m == 2 then (if IsLeap(y) then 29 else 28)
    else if m == 4 || m == 6 || m == 9 || m == 11 then 30
    else 31
  }

  /** The range Python's `datetime` admits. */
  predicate ValidDateTime(d: DateTime) {
    && 1 <= d.year <= 9999
    && 1 <= d.month <= 12
    && 1 <= d.day <= DaysInMonth(d.year, d.month)
    && 0 <= d.hour < 24 && 0 <= d.minute < 60 && 0 <= d.second < 60
    && 0 <= d.microsecond < 1000000
  }

  type Timestamp = d: DateTime | ValidDateTime(d) witness DateTime(1, 1, 1, 0, 0, 0, 0)

  /** Days in the years before `y`, counting from year 1. */
  function DaysBeforeYear(y: int): (n: int)
    requires y >= 1
    ensures n >= 0
  {
    var p := y - 1;
    p * 365 + p / 4 - p / 100 + p / 400
  }

  /** Days in the months of year `y` before month `m`. */
  function DaysBeforeMonth(y: int, m: int): (n: int)
    requires 1 <= m <= 12
    ensures 0 <= n <= 335
  {
    var table := [0, 31, 59, 90, 120, 151, 181, 212, 243, 273, 304, 334];
    table[m - 1] + if m > 2 && IsLeap(y) then 1 else 0
  }

  /**
   * `date.toordinal()`: day 1 is 0001-01-01 and day 3652059 is 9999-12-31,
   * Python's `date.max`; a later year starts after every day of an earlier one.
   */
  function Ordinal(d: Timestamp): (n: int)
    ensures 1 <= n <= 3652059
    ensures DaysBeforeYear(d.year) < n <= DaysBeforeYear(d.year) + if IsLeap(d.year) then 366 else 365
  {
    DaysBeforeYearMonotone(d.year, 9999);
    DaysBeforeNextYear(d.year);
    DaysBeforeYear(d.year) + DaysBeforeMonth(d.year, d.month) + d.day
  }

  /** Later years start later. */
  lemma DaysBeforeYearMonotone(y: int, z: int)
    requires 1 <= y <= z
    ensures DaysBeforeYear(y) <= DaysBeforeYear(z)
  {
    assert (y - 1) / 4 <= (z - 1) / 4 && (y - 1) / 400 <= (z - 1) / 400;
    assert (z - 1) / 100 - (y - 1) / 100 <= (z - y) / 100 + 1;
  }

  /** `datetime.weekday()`: 0 = Monday through 6 = Sunday. */
  function Weekday(d: Timestamp): (w: int)
    ensures 0 <= w <= 6
  {
    (Ordinal(d) + 6) % 7
  }

  /** The last moment's day of the range, after which there is no next day. */
  predicate IsLastDay(d: Timestamp) {
    d.year == 9999 && d.month == 12 && d.day == 31
  }

  /** The same time of day on the following calendar day. */
  function NextDay(d: Timestamp): (e: Timestamp)
    requires !IsLastDay(d)
  {
    if d.day < DaysInMonth(d.year, d.month) then d.(day := d.day + 1)
    else if d.month < 12 then d.(month := d.month + 1, day := 1)
    else d.(year := d.year + 1, month := 1, day := 1)
  }

  /** A year has 366 days when it is a leap year and 365 otherwise. */
  lemma DaysBeforeNextYear(y: int)
    requires y >= 1
    ensures DaysBeforeYear(y + 1) == DaysBeforeYear(y) + if IsLeap(y) then 366 else 365
  {
    var p := y - 1;
    DivStep(p, 4);
    DivStep(p, 100);
    DivStep(p, 400);
    if y % 400 == 0 {
      DivModUnique(y, 100, 4 * (y / 400), 0);
    }
    if y % 100 == 0 {
      DivModUnique(y, 4, 25 * (y / 100), 0);
    }
    assert DaysBeforeYear(y + 1) == y * 365 + y / 4 - y / 100 + y / 400;
  }

  /** Going from `p` to `p + 1`, `p / k` grows by one exactly when `k` divides `p + 1`. */
  lemma DivStep(p: int, k: int)
    requires p >= 0 && k > 0
    ensures (p + 1) / k == p / k + if (p + 1) % k == 0 then 1 else 0
    ensures (p + 1) % k == if p % k + 1 < k then p % k + 1 else 0
  {
    var q, r := p / k, p % k;
    assert p == q * k + r && 0 <= r < k;
    if r + 1 < k {
      DivModUnique(p + 1, k, q, r + 1);
    } else {
      assert p + 1 == (q + 1) * k + 0;
      DivModUnique(p + 1, k, q + 1, 0);
    }
  }

  /** Quotient and remainder are the only ones with `a == q * k + r` and `0 <= r < k`. */
  lemma DivModUnique(a: int, k: int, q: int, r: int)
    requires k > 0 && 0 <= r < k && a == q * k + r
    ensures a / k == q && a % k == r
  {
    var q0, r0 := a / k, a % k;
    assert (q - q0) * k == r0 - r;
    if q > q0 {
      MulAtLeast(q - q0, k);
    } else if q < q0 {
      MulAtLeast(q0 - q, k);
    }
  }

  lemma MulAtLeast(n: int, k: int)
    requires n >= 1 && k > 0
    ensures n * k >= k
  {
  }

  /** Consecutive calendar days have consecutive day numbers, across month and year ends. */
  lemma NextDayOrdinal(d: Timestamp)
    requires !IsLastDay(d)
    ensures Ordinal(NextDay(d)) == Ordinal(d) + 1
  {
    if d.day == DaysInMonth(d.year, d.month) && d.month == 12 {
      DaysBeforeNextYear(d.year);
    }
  }

  /** So the weekday advances by one each day, Sunday (6) being followed by Monday (0). */
  lemma NextDayWeekday(d: Timestamp)
    requires !IsLastDay(d)
    ensures Weekday(NextDay(d)) == (Weekday(d) + 1) % 7
  {
    NextDayOrdinal(d);
    DivStep(Ordinal(d) + 6, 7);
  }

  /** 0001-01-01 was a Monday and 2024-01-01 was a Monday too. */
  lemma KnownMondays()
    ensures Weekday(DateTime(1, 1, 1, 0, 0, 0, 0)) == 0
    ensures Weekday(DateTime(2024, 1, 1, 12, 0, 0, 0)) == 0
  {
    OrdinalOf2024();
    assert 738886 + 6 == 7 * 105556;
  }

  lemma OrdinalOf2024()
    ensures Ordinal(DateTime(2024, 1, 1, 12, 0, 0, 0)) == 738886
  {
    assert DaysBeforeYear(2024) == 738885;
  }

  /** Chronological order, field by field. */
  predicate Before(a: DateTime, b: DateTime) {
    if a.year != b.year then a.year < b.year
    else if a.month != b.month then a.month < b.month
    else if a.day != b.day then a.day < b.day
    else if a.hour != b.hour then a.hour < b.hour
    else if a.minute != b.minute then a.minute < b.minute
    else if a.second != b.second then a.second < b.second
    else a.microsecond < b.microsecond
  }

  /** `Before` is a strict total order. */
  lemma BeforeStrictTotal(a: DateTime, b: DateTime, c: DateTime)
    ensures !Before(a, a)
    ensures Before(a, b) ==> !Before(b, a)
    ensures a != b ==> Before(a, b) || Before(b, a)
    ensures Before(a, b) && Before(b, c) ==> Before(a, c)
  {
  }
}
