/** The proleptic Gregorian calendar of Python's `datetime.date`, with the
    arithmetic pandas' `DateOffset` and `date_range` perform on it. Dates are
    compared through their day number, the count of days since 0001-01-01. */
module Calendar {

  datatype Date = Date(year: int, month: int, day: int)

  predicate IsLeap(y: int)
  {
    y % 4 == 0 && (y % 100 != 0 || y % 400 == 0)
  }

  function DaysInMonth(y: int, m: int): (n: int)
    requires 1 <= m <= 12
    ensures 28 <= n <= 31
  {
    if m == 2 then (if IsLeap(y) then 29 else 28)
    else if m == 4 || m == 6 || m == 9 || m == 11 then 30
    else 31
  }

  function DaysInYear(y: int): int
  {
    if IsLeap(y) then 366 else 365
  }

  /** A date `datetime.date` accepts (the upper limit of year 9999 aside). */
  predicate Valid(d: Date)
  {
    1 <= d.year && 1 <= d.month <= 12 && 1 <= d.day <= DaysInMonth(d.year, d.month)
  }

  function DaysBeforeYear(y: int): nat
    requires y >= 1
  {
    if y == 1 then 0 else DaysBeforeYear(y - 1) + DaysInYear(y - 1)
  }

  function DaysBeforeMonth(y: int, m: int): nat
    requires 1 <= m <= 12
  {
    if m == 1 then 0 else DaysBeforeMonth(y, m - 1) + DaysInMonth(y, m - 1)
  }

  /** Days since 0001-01-01, which is day 0 (Python's `toordinal() - 1`). */
  function DayNumber(d: Date): nat
    requires Valid(d)
  {
    DaysBeforeYear(d.year) + DaysBeforeMonth(d.year, d.month) + d.day - 1
  }

  /** `d.weekday()`: Monday is 0 and Sunday is 6; 0001-01-01 was a Monday. */
  function Weekday(d: Date): (w: nat)
    requires Valid(d)
    ensures w < 7
  {
    DayNumber(d) % 7
  }

  const Monday := 0
  const Tuesday := 1
  const Sunday := 6

  /** `a < b` on dates. */
  predicate Before(a: Date, b: Date)
    requires Valid(a) && Valid(b)
  {
    DayNumber(a) < DayNumber(b)
  }

  /** The order of the fields, year first. */
  predicate LexLess(a: Date, b: Date)
  {
    a.year < b.year || (a.year == b.year && (a.month < b.month || (a.month == b.month && a.day < b.day)))
  }

  lemma DecemberStart(y: int)
    ensures DaysBeforeMonth(y, 12) + 31 == DaysInYear(y)
  {
    assert DaysBeforeMonth(y, 1) == 0;
    assert DaysBeforeMonth(y, 2) == 31;
    assert DaysBeforeMonth(y, 3) == 31 + DaysInMonth(y, 2);
    assert DaysBeforeMonth(y, 4) == 62 + DaysInMonth(y, 2);
    assert DaysBeforeMonth(y, 5) == 92 + DaysInMonth(y, 2);
    assert DaysBeforeMonth(y, 6) == 123 + DaysInMonth(y, 2);
    assert DaysBeforeMonth(y, 7) == 153 + DaysInMonth(y, 2);
    assert DaysBeforeMonth(y, 8) == 184 + DaysInMonth(y, 2);
    assert DaysBeforeMonth(y, 9) == 215 + DaysInMonth(y, 2);
    assert DaysBeforeMonth(y, 10) == 245 + DaysInMonth(y, 2);
    assert DaysBeforeMonth(y, 11) == 276 + DaysInMonth(y, 2);
    assert DaysBeforeMonth(y, 12) == 306 + DaysInMonth(y, 2);
  }

  lemma {:induction false} DaysBeforeMonthMonotone(y: int, m: int, m': int)
    requires 1 <= m <= m' <= 12
    ensures DaysBeforeMonth(y, m) + (if m < m' then DaysInMonth(y, m) else 0) <= DaysBeforeMonth(y, m')
    decreases m' - m
  {
    if m < m' - 1 {
      DaysBeforeMonthMonotone(y, m, m' - 1);
    }
  }

  /** Every day of a year falls before the end of that year. */
  lemma DayOfYearBounds(d: Date)
    requires Valid(d)
    ensures DaysBeforeMonth(d.year, d.month) + d.day - 1 < DaysInYear(d.year)
  {
    DecemberStart(d.year);
    DaysBeforeMonthMonotone(d.year, d.month, 12);
  }

  lemma {:induction false} DaysBeforeYearMonotone(y: int, y': int)
    requires 1 <= y < y'
    ensures DaysBeforeYear(y) + DaysInYear(y) <= DaysBeforeYear(y')
    decreases y' - y
  {
    if y < y' - 1 {
      DaysBeforeYearMonotone(y, y' - 1);
    }
  }

  /** Day numbers follow the calendar order of the fields. */
  lemma DayNumberMonotone(a: Date, b: Date)
    requires Valid(a) && Valid(b) && LexLess(a, b)
    ensures DayNumber(a) < DayNumber(b)
  {
    if a.year < b.year {
      DayOfYearBounds(a);
      DaysBeforeYearMonotone(a.year, b.year);
    } else if a.month < b.month {
      DaysBeforeMonthMonotone(a.year, a.month, b.month);
    }
  }

  /** Distinct valid dates have distinct day numbers. */
  lemma DayNumberInjective(a: Date, b: Date)
    requires Valid(a) && Valid(b) && DayNumber(a) == DayNumber(b)
    ensures a == b
  {
    if LexLess(a, b) {
      DayNumberMonotone(a, b);
    } else if LexLess(b, a) {
      DayNumberMonotone(b, a);
    }
  }

  /** The day after `d`. */
  function NextDay(d: Date): (r: Date)
    requires Valid(d)
    ensures Valid(r) && DayNumber(r) == DayNumber(d) + 1
  {
    if d.day < DaysInMonth(d.year, d.month) then Date(d.year, d.month, d.day + 1)
    else if d.month < 12 then Date(d.year, d.month + 1, 1)
    else
      DecemberStart(d.year);
      Date(d.year + 1, 1, 1)
  }

  /** The day before `d`; 0001-01-01 has none. */
  function PrevDay(d: Date): (r: Date)
    requires Valid(d) && DayNumber(d) > 0
    ensures Valid(r) && DayNumber(r) + 1 == DayNumber(d)
  {
    if d.day > 1 then Date(d.year, d.month, d.day - 1)
    else if d.month > 1 then Date(d.year, d.month - 1, DaysInMonth(d.year, d.month - 1))
    else
      assert d.year > 1;
      DecemberStart(d.year - 1);
      Date(d.year - 1, 12, 31)
  }

  /** `d + timedelta(days=n)`. */
  function AddDays(d: Date, n: nat): (r: Date)
    requires Valid(d)
    ensures Valid(r) && DayNumber(r) == DayNumber(d) + n
    decreases n
  {
    if n == 0 then d else AddDays(NextDay(d), n - 1)
  }

  /** `d + DateOffset(months=k)`: the day is clamped to the length of the new month. */
  function AddMonths(d: Date, k: nat): (r: Date)
    requires Valid(d)
    ensures Valid(r)
  {
    var total := (d.year * 12 + (d.month - 1)) + k;
    var y := total / 12;
    var m := total % 12 + 1;
    var dim := DaysInMonth(y, m);
    Date(y, m, if d.day <= dim then d.day else dim)
  }

  /** `d + DateOffset(years=k)`: 29 February becomes 28 February in a common year. */
  function AddYears(d: Date, k: nat): (r: Date)
    requires Valid(d)
    ensures Valid(r) && r.year == d.year + k && r.month == d.month
  {
    var dim := DaysInMonth(d.year + k, d.month);
    Date(d.year + k, d.month, if d.day <= dim then d.day else dim)
  }

  /** `d.replace(day=1)`. */
  function MonthStart(d: Date): (r: Date)
    requires Valid(d)
    ensures Valid(r) && !Before(d, r)
  {
    var r := Date(d.year, d.month, 1);
    assert d.day > 1 ==> DayNumber(r) < DayNumber(d) by {
      if d.day > 1 { DayNumberMonotone(r, d); }
    }
    r
  }

  /** `d.replace(month=1, day=1)`. */
  function YearStart(d: Date): (r: Date)
    requires Valid(d)
    ensures Valid(r) && !Before(d, r)
  {
    var r := Date(d.year, 1, 1);
    assert r != d ==> DayNumber(r) < DayNumber(d) by {
      if r != d { DayNumberMonotone(r, d); }
    }
    r
  }

  lemma {:induction false} MonthOffsetFollows(d: Date)
    requires Valid(d)
    ensures Before(d, AddMonths(d, 1))
  {
    var r := AddMonths(d, 1);
    assert r.year == d.year + 1 || (r.year == d.year && r.month == d.month + 1) by {
      var total := (d.year * 12 + (d.month - 1)) + 1;
      if d.month < 12 {
        assert total == d.year * 12 + d.month;
        assert total / 12 == d.year && total % 12 == d.month;
      } else {
        assert total == (d.year + 1) * 12;
        assert total / 12 == d.year + 1 && total % 12 == 0;
      }
    }
    DayNumberMonotone(d, r);
  }

  lemma {:induction false} YearOffsetFollows(d: Date)
    requires Valid(d)
    ensures Before(d, AddYears(d, 1))
  {
    DayNumberMonotone(d, AddYears(d, 1));
  }

  /** The year that contains day number `n`, where `n` counts days from the first day of year `y`. */
  function YearFrom(y: int, n: nat): (r: int)
    requires y >= 1
    ensures r >= y
    decreases n
  {
    if n < DaysInYear(y) then y else YearFrom(y + 1, n - DaysInYear(y))
  }

  /** The year of the date with day number `n`. */
  function YearOfDayNumber(n: nat): int
  {
    YearFrom(1, n)
  }

  lemma {:induction false} YearFromDate(d: Date, y: int)
    requires Valid(d) && 1 <= y <= d.year
    requires DaysBeforeYear(y) <= DayNumber(d)
    ensures YearFrom(y, DayNumber(d) - DaysBeforeYear(y)) == d.year
    decreases d.year - y
  {
    var n := DayNumber(d) - DaysBeforeYear(y);
    if y == d.year {
      DayOfYearBounds(d);
    } else {
      DaysBeforeYearMonotone(y, d.year);
      assert n >= DaysInYear(y);
      assert DaysBeforeYear(y + 1) == DaysBeforeYear(y) + DaysInYear(y);
      assert DaysBeforeYear(y + 1) <= DayNumber(d);
      YearFromDate(d, y + 1);
    }
  }

  /** Recovering the year from a day number gives back the date's year. */
  lemma YearOfDayNumberCorrect(d: Date)
    requires Valid(d)
    ensures YearOfDayNumber(DayNumber(d)) == d.year
  {
    assert DaysBeforeYear(1) == 0;
    YearFromDate(d, 1);
    assert YearOfDayNumber(DayNumber(d)) == YearFrom(1, DayNumber(d) - DaysBeforeYear(1));
  }
}
