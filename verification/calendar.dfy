/** Proleptic Gregorian dates in the range Python's `datetime` accepts, and
    the local clock the handler reads. */
module Calendar {

  datatype Date = Date(year: int, month: int, day: int)

  predicate IsLeap(y: int) {
    (y % 4 == 0 && y % 100 != 0) || y % 400 == 0
  }

  function DaysInMonth(y: int, m: int): (n: int)
    requires 1 <= m <= 12
    ensures n == 28 <==> m == 2 && !IsLeap(y)
    ensures n == 29 <==> m == 2 && IsLeap(y)
    ensures n == 30 <==> m == 4 || m == 6 || m == 9 || m == 11
    ensures n == 31 <==> m == 1 || m == 3 || m == 5 || m == 7 || m == 8 || m == 10 || m == 12
  {
    if m == 2 then (if IsLeap(y) then 29 else 28)
    else if m == 4 || m == 6 || m == 9 || m == 11 then 30
    else 31
  }

  /** The days in the first `k` months of year `y`. */
  function DaysBeforeMonth(y: int, k: nat): (n: int)
    requires k <= 12
  {
    if k == 0 then 0 else DaysBeforeMonth(y, k - 1) + DaysInMonth(y, k)
  }

  /** The twelve months add up to the Gregorian year: 366 days in a leap
      year, 365 otherwise. */
  lemma {:induction false} YearLength(y: int)
    ensures DaysBeforeMonth(y, 12) == if IsLeap(y) then 366 else 365
  {
    var leap := if IsLeap(y) then 1 else 0;
    assert DaysBeforeMonth(y, 1) == 31;
    assert DaysBeforeMonth(y, 2) == 59 + leap;
    assert DaysBeforeMonth(y, 3) == 90 + leap;
    assert DaysBeforeMonth(y, 4) == 120 + leap;
    assert DaysBeforeMonth(y, 5) == 151 + leap;
    assert DaysBeforeMonth(y, 6) == 181 + leap;
    assert DaysBeforeMonth(y, 7) == 212 + leap;
    assert DaysBeforeMonth(y, 8) == 243 + leap;
    assert DaysBeforeMonth(y, 9) == 273 + leap;
    assert DaysBeforeMonth(y, 10) == 304 + leap;
    assert DaysBeforeMonth(y, 11) == 334 + leap;
  }

  /** A date `datetime.date` accepts: years 1 to 9999, a real month, and a
      day that exists in that month. */
  predicate Valid(d: Date) {
    1 <= d.year <= 9999 && 1 <= d.month <= 12 && 1 <= d.day <= DaysInMonth(d.year, d.month)
  }

  type Day = d: Date | Valid(d) witness Date(1970, 1, 1)

  /** Chronological order. */
  predicate Before(a: Date, b: Date) {
    a.year < b.year
    || (a.year == b.year && (a.month < b.month || (a.month == b.month && a.day < b.day)))
  }

  lemma BeforeTransitive(a: Date, b: Date, c: Date)
    requires Before(a, b) && Before(b, c)
    ensures Before(a, c)
  {
  }

  /** The local time as the handler reads it: today's date, the hour stamp
      `strftime("%Y%m%d%H")`, and whether the time of day is exactly
      00:00:00.000000. */
  datatype Clock = Clock(today: Day, hourStamp: string, midnight: bool)

  /** `date - relativedelta(years=n)`: the year moves back by `n`, the month
      stays, and the day is clamped to the length of the target month (29
      February becomes 28 February in a common year). The year may leave
      `datetime`'s range; the caller checks that. */
  function YearsBack(d: Day, n: nat): (r: Date)
    ensures r.year == d.year - n && r.month == d.month
    ensures r.day <= d.day
    ensures r.day < d.day ==> d.month == 2 && d.day == 29 && r.day == 28 && !IsLeap(r.year)
    ensures r.year >= 1 ==> Valid(r)
  {
    var y := d.year - n;
    var last := DaysInMonth(y, d.month);
    Date(y, d.month, if d.day <= last then d.day else last)
  }
}
