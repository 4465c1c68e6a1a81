/** The binning helpers of the chart endpoints: the end date of a bin, the
    date bins of a frequency, integer bins of a fixed width, the `CASE` that
    assigns a value to a bin, the automatic frequency, and the formatting of
    the binned rows. Dates are compared through their day numbers. */
module Charts {
  import opened Base
  import opened Strings
  import opened Order
  import opened Calendar

  /** The bin frequency: day, week, month or year. */
  datatype Freq = D | W | M | Y

  /** `calculate_end_date`: one day or one week after the start, or the last
      day of the month or year that starts at the start. */
  function CalculateEndDate(start: Date, freq: Freq): (r: Date)
    requires Valid(start)
    ensures Valid(r) && !Before(r, start)
    ensures freq == D ==> DayNumber(r) == DayNumber(start) + 1
    ensures freq == W ==> DayNumber(r) == DayNumber(start) + 7
  {
    match freq
    case D => AddDays(start, 1)
    case W => AddDays(start, 7)
    case M =>
      MonthOffsetFollows(start);
      PrevDay(AddMonths(start, 1))
    case Y =>
      YearOffsetFollows(start);
      PrevDay(AddYears(start, 1))
  }

  /** The month after `(y, m)`. */
  function NextMonth(y: int, m: int): (int, int)
  {
    if m == 12 then (y + 1, 1) else (y, m + 1)
  }

  lemma AddOneMonth(d: Date)
    requires Valid(d)
    ensures (AddMonths(d, 1).year, AddMonths(d, 1).month) == NextMonth(d.year, d.month)
  {
    var total := (d.year * 12 + (d.month - 1)) + 1;
    if d.month < 12 {
      assert total == d.year * 12 + d.month;
      assert total / 12 == d.year && total % 12 == d.month;
    } else {
      assert total == (d.year + 1) * 12;
      assert total / 12 == d.year + 1 && total % 12 == 0;
    }
  }

  /** A monthly bin that starts on the first of a month ends on the last day of that month. */
  lemma EndOfMonthBin(start: Date)
    requires Valid(start) && start.day == 1
    ensures CalculateEndDate(start, M) == Date(start.year, start.month, DaysInMonth(start.year, start.month))
  {
    AddOneMonth(start);
    if start.month == 12 {
      DecemberStart(start.year);
    }
  }

  /** A yearly bin that starts on 1 January ends on 31 December of that year. */
  lemma EndOfYearBin(start: Date)
    requires Valid(start) && start.month == 1 && start.day == 1
    ensures CalculateEndDate(start, Y) == Date(start.year, 12, 31)
  {
  }

  /** The end dates of the bins that start on 2020-01-01. */
  lemma EndDateExamples()
    ensures CalculateEndDate(Date(2020, 1, 1), D) == Date(2020, 1, 2)
    ensures CalculateEndDate(Date(2020, 1, 1), W) == Date(2020, 1, 8)
    ensures CalculateEndDate(Date(2020, 1, 1), M) == Date(2020, 1, 31)
    ensures CalculateEndDate(Date(2020, 1, 1), Y) == Date(2020, 12, 31)
  {
    EndOfMonthBin(Date(2020, 1, 1));
    EndOfYearBin(Date(2020, 1, 1));
    assert AddDays(Date(2020, 1, 1), 7) == Date(2020, 1, 8);
  }

  // ------------------------------------------------------------ date bins

  /** One period of `pd.date_range`: a day, a week, a month or a year. */
  function Step(d: Date, freq: Freq): (r: Date)
    requires Valid(d)
    ensures Valid(r) && Before(d, r)
  {
    match freq
    case D => NextDay(d)
    case W => AddDays(d, 7)
    case M =>
      MonthOffsetFollows(d);
      AddMonths(d, 1)
    case Y =>
      YearOffsetFollows(d);
      AddYears(d, 1)
  }

  /** The adjusted `min_value`: the first of its month for M, 1 January of its year for Y. */
  function Snap(min: Date, freq: Freq): (r: Date)
    requires Valid(min)
    ensures Valid(r) && !Before(min, r)
  {
    match freq
    case M => MonthStart(min)
    case Y => YearStart(min)
    case _ => min
  }

  /** The first date `pd.date_range` yields from `start`: the first Sunday on or
      after it for `'W'` (weeks end on Sunday), `start` itself otherwise. */
  function Anchor(start: Date, freq: Freq): (r: Date)
    requires Valid(start)
    ensures Valid(r) && !Before(r, start)
    ensures freq == W ==> Weekday(r) == Sunday && DayNumber(r) <= DayNumber(start) + 6
    ensures freq != W ==> r == start
  {
    if freq == W then
      var n := DayNumber(start);
      SundayOnOrAfter(n);
      AddDays(start, Sunday - n % 7)
    else start
  }

  lemma SundayOnOrAfter(n: nat)
    ensures (n + (Sunday - n % 7)) % 7 == Sunday
  {
    var q := n / 7;
    assert n == 7 * q + n % 7;
    assert n + (Sunday - n % 7) == 7 * q + Sunday;
  }

  /** The dates `d`, `Step(d)`, … that are not after `last`. */
  function Range(d: Date, last: Date, freq: Freq): (r: seq<Date>)
    requires Valid(d) && Valid(last)
    ensures forall i :: 0 <= i < |r| ==> Valid(r[i])
    decreases DayNumber(last) + 1 - DayNumber(d)
  {
    if DayNumber(last) < DayNumber(d) then [] else [d] + Range(Step(d, freq), last, freq)
  }

  /** `pd.date_range(start=start, end=end, freq=…)`. */
  function DateRange(start: Date, end: Date, freq: Freq): (r: seq<Date>)
    requires Valid(start) && Valid(end)
    ensures forall i :: 0 <= i < |r| ==> Valid(r[i])
  {
    Range(Anchor(start, freq), end, freq)
  }

  /** The closing bin: the first of the month or year after the last start, or `max_value`. */
  function LastBin(last: Date, max: Date, freq: Freq): (r: Date)
    requires Valid(last) && Valid(max)
    ensures Valid(r)
  {
    match freq
    case M => MonthStart(AddMonths(last, 1))
    case Y => YearStart(AddYears(last, 1))
    case _ => max
  }

  /** The errors the binning helpers raise. */
  datatype BinError =
    | MutuallyExclusive   // `ValueError`: both `freq` and `num_bins` given
    | EmptyRange          // `IndexError`: `date_bins[-1]` of an empty range
    | TooFewBins          // `IndexError`: `bins[-2]` of a single bin
    | ZeroWidth           // `ZeroDivisionError`: a bin width of 0
    | NotInBins           // `ValueError`: `bins.index` of a value not in the list
    | NoWhen              // the database rejects a `CASE` without a `WHEN`: a single bin

  /** What `generate_date_bins(min_value=…, max_value=…, freq=…, num_bins=…)`
      returns; `numBins` is 0 when it is not given. */
  function DateBins(min: Date, max: Date, freq: Freq, numBins: int): Result<seq<Date>, BinError>
    requires Valid(min) && Valid(max)
  {
    if numBins != 0 then Err(MutuallyExclusive) else BinsFrom(Anchor(Snap(min, freq), freq), max, freq)
  }

  /** The bins of the range that starts at `first`, closed by the last bin;
      `date_bins[-1]` of an empty range raises. */
  function BinsFrom(first: Date, max: Date, freq: Freq): Result<seq<Date>, BinError>
    requires Valid(first) && Valid(max)
  {
    var bins := Range(first, max, freq);
    if bins == [] then Err(EmptyRange) else Ok(Closed(bins, max, freq))
  }

  /** The bins with the closing bin appended, unless it is already the last one. */
  function Closed(bins: seq<Date>, max: Date, freq: Freq): seq<Date>
    requires bins != [] && Valid(bins[|bins| - 1]) && Valid(max)
  {
    var lastBin := LastBin(bins[|bins| - 1], max, freq);
    if bins[|bins| - 1] == lastBin then bins else bins + [lastBin]
  }

  /** `pd.date_range(start=start, end=max, freq=…)`, one period at a time. */
  method DateRangeOf(start: Date, max: Date, freq: Freq) returns (bins: seq<Date>)
    requires Valid(start) && Valid(max)
    ensures bins == DateRange(start, max, freq)
  {
    var d := Anchor(start, freq);
    bins := [];
    while DayNumber(d) <= DayNumber(max)
      invariant Valid(d)
      invariant bins + Range(d, max, freq) == DateRange(start, max, freq)
      decreases DayNumber(max) + 1 - DayNumber(d)
    {
      RangeStep(bins, d, max, freq);
      bins := bins + [d];
      d := Step(d, freq);
    }
    AppendEmpty(bins);
  }

  lemma RangeStep(bins: seq<Date>, d: Date, max: Date, freq: Freq)
    requires Valid(d) && Valid(max) && DayNumber(d) <= DayNumber(max)
    ensures bins + Range(d, max, freq) == (bins + [d]) + Range(Step(d, freq), max, freq)
  {
    var rest := Range(Step(d, freq), max, freq);
    assert Range(d, max, freq) == [d] + rest;
    assert bins + ([d] + rest) == (bins + [d]) + rest;
  }

  /** Appends the closing bin when the range does not already end with it. */
  method AppendLastBin(bins: seq<Date>, max: Date, freq: Freq) returns (r: seq<Date>)
    requires bins != [] && Valid(bins[|bins| - 1]) && Valid(max)
    ensures r == Closed(bins, max, freq)
  {
    r := bins;
    var lastBin := LastBin(bins[|bins| - 1], max, freq);
    if bins[|bins| - 1] != lastBin {
      r := r + [lastBin];
    }
  }

  /** `generate_date_bins`, for a given frequency. */
  method GenerateDateBins(min: Date, max: Date, freq: Freq, numBins: int) returns (r: Result<seq<Date>, BinError>)
    requires Valid(min) && Valid(max)
    ensures r == DateBins(min, max, freq, numBins)
  {
    if numBins != 0 {
      return Err(MutuallyExclusive);
    }
    var bins := DateRangeOf(Snap(min, freq), max, freq);
    if bins == [] {
      return Err(EmptyRange);
    }
    bins := AppendLastBin(bins, max, freq);
    r := Ok(bins);
  }

  // ------------------------------------------------- what the bins are like

  predicate AllValid(dates: seq<Date>)
  {
    forall i :: 0 <= i < |dates| ==> Valid(dates[i])
  }

  predicate Increasing(dates: seq<Date>)
    requires AllValid(dates)
  {
    forall i, j :: 0 <= i < j < |dates| ==> DayNumber(dates[i]) < DayNumber(dates[j])
  }

  /** A range is empty exactly when its start is after `last`, and otherwise starts there. */
  lemma RangeFirst(d: Date, last: Date, freq: Freq)
    requires Valid(d) && Valid(last)
    ensures Range(d, last, freq) == [] <==> DayNumber(last) < DayNumber(d)
    ensures Range(d, last, freq) != [] ==> Range(d, last, freq)[0] == d
  {
  }

  /** Every date of a range lies between its start and `last`. */
  lemma {:induction false} RangeBounds(d: Date, last: Date, freq: Freq)
    requires Valid(d) && Valid(last)
    ensures forall i :: 0 <= i < |Range(d, last, freq)| ==>
      DayNumber(d) <= DayNumber(Range(d, last, freq)[i]) <= DayNumber(last)
    decreases DayNumber(last) + 1 - DayNumber(d)
  {
    var r := Range(d, last, freq);
    if r != [] {
      var next := Step(d, freq);
      var rest := Range(next, last, freq);
      RangeBounds(next, last, freq);
      assert r == [d] + rest;
      forall i | 0 <= i < |r| ensures DayNumber(d) <= DayNumber(r[i]) <= DayNumber(last) {
        if i == 0 {
          assert r[0] == d;
        } else {
          assert r[i] == rest[i - 1];
        }
      }
    }
  }

  /** The dates of a range increase. */
  lemma {:induction false} RangeIncreasing(d: Date, last: Date, freq: Freq)
    requires Valid(d) && Valid(last)
    ensures Increasing(Range(d, last, freq))
    decreases DayNumber(last) + 1 - DayNumber(d)
  {
    var r := Range(d, last, freq);
    if r != [] {
      var next := Step(d, freq);
      var rest := Range(next, last, freq);
      RangeIncreasing(next, last, freq);
      RangeBounds(next, last, freq);
      RangeHead(d, rest);
    }
  }

  /** Putting a date before increasing dates that all follow it keeps them increasing. */
  lemma RangeHead(d: Date, rest: seq<Date>)
    requires Valid(d) && AllValid(rest) && Increasing(rest)
    requires forall i :: 0 <= i < |rest| ==> DayNumber(d) < DayNumber(rest[i])
    ensures AllValid([d] + rest) && Increasing([d] + rest)
  {
    var r := [d] + rest;
    forall i, j | 0 <= i < j < |r| ensures DayNumber(r[i]) < DayNumber(r[j]) {
      assert r[j] == rest[j - 1];
      if i > 0 {
        assert r[i] == rest[i - 1];
      }
    }
  }

  /** The range stops at the last period before `last` is passed. */
  lemma {:induction false} RangeEnd(d: Date, last: Date, freq: Freq)
    requires Valid(d) && Valid(last)
    ensures var r := Range(d, last, freq);
      r != [] ==> Before(last, Step(r[|r| - 1], freq))
  {
    RangeFromLast(d, last, freq);
  }

  /** A range holding its start alone stops because the next period passes `last`. */
  lemma RangeSingle(x: Date, last: Date, freq: Freq)
    requires Valid(x) && Valid(last) && Range(x, last, freq) == [x]
    ensures Before(last, Step(x, freq))
  {
    var rest := Range(Step(x, freq), last, freq);
    assert |[x] + rest| == 1;
    RangeFirst(Step(x, freq), last, freq);
  }

  /** The range from its own last date holds that date alone, and the period
      after that date passes `last`. */
  lemma {:induction false} RangeFromLast(d: Date, last: Date, freq: Freq)
    requires Valid(d) && Valid(last)
    ensures var r := Range(d, last, freq);
      r != [] ==>
        Valid(r[|r| - 1]) && Range(r[|r| - 1], last, freq) == [r[|r| - 1]] && Before(last, Step(r[|r| - 1], freq))
    decreases DayNumber(last) + 1 - DayNumber(d)
  {
    var r := Range(d, last, freq);
    if r != [] {
      var next := Step(d, freq);
      var rest := Range(next, last, freq);
      assert r == [d] + rest;
      if rest == [] {
        assert r == [d];
        RangeSingle(d, last, freq);
      } else {
        RangeFromLast(next, last, freq);
        LastOfCons(d, rest);
      }
    }
  }

  lemma LastOfCons<T>(x: T, rest: seq<T>)
    ensures ([x] + rest)[|rest|] == if rest == [] then x else rest[|rest| - 1]
  {
  }

  /** Monthly periods from the first of a month stay on the first of a month,
      and yearly periods from 1 January stay on 1 January. */
  predicate PeriodStart(d: Date, freq: Freq)
  {
    (freq == M ==> d.day == 1) && (freq == Y ==> d.month == 1 && d.day == 1)
  }

  lemma {:induction false} RangeStarts(d: Date, last: Date, freq: Freq)
    requires Valid(d) && Valid(last) && PeriodStart(d, freq)
    ensures forall i :: 0 <= i < |Range(d, last, freq)| ==> PeriodStart(Range(d, last, freq)[i], freq)
    decreases DayNumber(last) + 1 - DayNumber(d)
  {
    var r := Range(d, last, freq);
    if r != [] {
      var next := Step(d, freq);
      RangeStarts(next, last, freq);
      assert r == [d] + Range(next, last, freq);
    }
  }

  /** The closing bin of a range: `max` for D and W, the period after the last
      start for M and Y; it never comes before the last start. */
  lemma LastBinFollows(e: Date, max: Date, freq: Freq)
    requires Valid(e) && Valid(max) && PeriodStart(e, freq)
    requires DayNumber(e) <= DayNumber(max) < DayNumber(Step(e, freq))
    ensures freq == D || freq == W ==> LastBin(e, max, freq) == max
    ensures freq == M || freq == Y ==> LastBin(e, max, freq) == Step(e, freq)
    ensures e != LastBin(e, max, freq) ==> DayNumber(e) < DayNumber(LastBin(e, max, freq))
  {
    var lastBin := LastBin(e, max, freq);
    if e != lastBin && DayNumber(e) >= DayNumber(lastBin) {
      DayNumberInjective(e, lastBin);
    }
  }

  lemma AppendIncreasing(r: seq<Date>, x: Date)
    requires r != [] && AllValid(r) && Increasing(r) && Valid(x)
    requires DayNumber(r[|r| - 1]) < DayNumber(x)
    ensures AllValid(r + [x]) && Increasing(r + [x])
  {
    var b := r + [x];
    forall i, j | 0 <= i < j < |b| ensures DayNumber(b[i]) < DayNumber(b[j]) {
      if j == |r| && i < |r| - 1 {
        assert DayNumber(b[i]) < DayNumber(r[|r| - 1]);
      }
    }
  }

  /** The date bins from `first`: they start at `first` and increase; for D and W
      the last is `max`, for M and Y the last is after `max`. */
  lemma BinsFromShape(first: Date, max: Date, freq: Freq, bins: seq<Date>)
    requires Valid(first) && Valid(max) && PeriodStart(first, freq)
    requires BinsFrom(first, max, freq) == Ok(bins)
    ensures DayNumber(first) <= DayNumber(max)
    ensures bins != [] && bins[0] == first && AllValid(bins) && Increasing(bins)
    ensures freq == D || freq == W ==> bins[|bins| - 1] == max
    ensures freq == M || freq == Y ==> DayNumber(max) < DayNumber(bins[|bins| - 1])
  {
    var r := Range(first, max, freq);
    RangeFirst(first, max, freq);
    RangeBounds(first, max, freq);
    RangeIncreasing(first, max, freq);
    RangeEnd(first, max, freq);
    RangeStarts(first, max, freq);
    assert bins == Closed(r, max, freq);
    ClosedShape(r, max, freq);
  }

  /** Closing an increasing run whose last date is the period that holds
      `max` keeps it increasing, and ends it at `max` (D, W) or after it (M, Y). */
  lemma ClosedShape(r: seq<Date>, max: Date, freq: Freq)
    requires r != [] && AllValid(r) && Increasing(r) && Valid(max)
    requires PeriodStart(r[|r| - 1], freq)
    requires DayNumber(r[|r| - 1]) <= DayNumber(max) < DayNumber(Step(r[|r| - 1], freq))
    ensures Closed(r, max, freq) != [] && Closed(r, max, freq)[0] == r[0]
    ensures AllValid(Closed(r, max, freq)) && Increasing(Closed(r, max, freq))
    ensures freq == D || freq == W ==> Closed(r, max, freq)[|Closed(r, max, freq)| - 1] == max
    ensures freq == M || freq == Y ==> DayNumber(max) < DayNumber(Closed(r, max, freq)[|Closed(r, max, freq)| - 1])
  {
    LastBinFollows(r[|r| - 1], max, freq);
    ClosingShape(r, LastBin(r[|r| - 1], max, freq), Closed(r, max, freq));
  }

  /** Ending an increasing run with a later date, unless the run already ends
      with it, keeps it increasing, starting where it did. */
  lemma ClosingShape(r: seq<Date>, lastBin: Date, bins: seq<Date>)
    requires r != [] && AllValid(r) && Increasing(r) && Valid(lastBin)
    requires r[|r| - 1] != lastBin ==> DayNumber(r[|r| - 1]) < DayNumber(lastBin)
    requires bins == if r[|r| - 1] == lastBin then r else r + [lastBin]
    ensures bins != [] && bins[0] == r[0] && bins[|bins| - 1] == lastBin
    ensures AllValid(bins) && Increasing(bins)
  {
    if r[|r| - 1] != lastBin {
      AppendIncreasing(r, lastBin);
    }
  }



  // ------------------------------------------------------------ the CASE

  /** The bin column: `WHEN keys[i] <= v AND v < keys[i + 1] THEN keys[i]` for
      each consecutive pair of bins, in order, then `ELSE elseKey`. Date bins
      are compared through their day numbers. */
  datatype Case = Case(keys: seq<int>, elseKey: int)

  /** The first `WHEN` from the `i`-th on whose interval holds `v`. */
  function MatchFrom(keys: seq<int>, v: int, i: nat): (r: Option<nat>)
    ensures r.Some? ==> i <= r.value && r.value + 1 < |keys| && keys[r.value] <= v < keys[r.value + 1]
    ensures forall j :: i <= j && j + 1 < |keys| && (r.None? || j < r.value) ==> !(keys[j] <= v < keys[j + 1])
    decreases |keys| - i
  {
    if i + 1 >= |keys| then None
    else if keys[i] <= v < keys[i + 1] then Some(i)
    else MatchFrom(keys, v, i + 1)
  }

  /** The value the `CASE` gives to `v`. */
  function Assign(c: Case, v: int): int
  {
    match MatchFrom(c.keys, v, 0)
    case Some(i) => c.keys[i]
    case None => c.elseKey
  }

  /** The value the `CASE` gives to a cell that may be NULL: a NULL fails
      every `WHEN` comparison and takes the `ELSE`. */
  function AssignCell(c: Case, v: Option<int>): int
  {
    match v
    case Some(x) => Assign(c, x)
    case None => c.elseKey
  }

  /** `case(*whens, else_=…)` with one `WHEN` per consecutive pair of keys: a
      single key gives no `WHEN`, and the database rejects the query. */
  function CaseOf(keys: seq<int>, elseKey: int): Result<Case, BinError>
  {
    if |keys| < 2 then Err(NoWhen) else Ok(Case(keys, elseKey))
  }

  /** The `CASE` with a single key `b` written as the one `WHEN b <= v < b + 1`,
      so that the query always has a `WHEN`. */
  function CaseOfCorrected(keys: seq<int>, elseKey: int): Result<Case, BinError>
  {
    if keys == [] then Err(NoWhen)
    else if |keys| == 1 then Ok(Case([keys[0], keys[0] + 1], elseKey))
    else Ok(Case(keys, elseKey))
  }

  /** The corrected `CASE` always has a `WHEN`, and when a single key is its
      own `ELSE` it gives every value what the keys and the `ELSE` mean. */
  lemma CaseOfCorrectedAgrees(keys: seq<int>, elseKey: int, v: int)
    requires keys != [] && (|keys| == 1 ==> elseKey == keys[0])
    ensures CaseOfCorrected(keys, elseKey).Ok?
    ensures |CaseOfCorrected(keys, elseKey).value.keys| >= 2
    ensures Assign(CaseOfCorrected(keys, elseKey).value, v) == Assign(Case(keys, elseKey), v)
    ensures CaseOf(keys, elseKey).Ok? ==> CaseOfCorrected(keys, elseKey) == CaseOf(keys, elseKey)
  {
    if |keys| == 1 {
      assert MatchFrom(keys, v, 0) == None;
    }
  }

  /** A NULL cell is counted like a value at or after the last key: both take
      the `ELSE`. */
  lemma NullTakesElse(c: Case, x: int)
    requires IncreasingInts(c.keys) && c.keys != [] && c.keys[|c.keys| - 1] <= x
    ensures AssignCell(c, None) == c.elseKey
    ensures AssignCell(c, Some(x)) == AssignCell(c, None)
  {
    MatchOutside(c.keys, x, 0);
  }

  predicate IncreasingInts(keys: seq<int>)
  {
    forall i, j :: 0 <= i < j < |keys| ==> keys[i] < keys[j]
  }

  /** With increasing bins, a value inside the interval of bin `i` gets bin `i`. */
  lemma AssignInterval(c: Case, v: int, i: nat)
    requires IncreasingInts(c.keys) && i + 1 < |c.keys| && c.keys[i] <= v < c.keys[i + 1]
    ensures Assign(c, v) == c.keys[i]
  {
    MatchAt(c.keys, v, 0, i);
  }

  lemma {:induction false} MatchAt(keys: seq<int>, v: int, i: nat, j: nat)
    requires IncreasingInts(keys) && i <= j && j + 1 < |keys| && keys[j] <= v < keys[j + 1]
    ensures MatchFrom(keys, v, i) == Some(j)
    decreases j - i
  {
    if i < j {
      assert keys[i + 1] <= keys[j];
      MatchAt(keys, v, i + 1, j);
    }
  }

  /** A value between the first and the last bin falls in some interval. */
  lemma {:induction false} MatchCovered(keys: seq<int>, v: int, i: nat)
    requires i < |keys| && keys[i] <= v < keys[|keys| - 1]
    ensures MatchFrom(keys, v, i).Some?
    decreases |keys| - i
  {
    if i + 1 < |keys| && !(v < keys[i + 1]) {
      MatchCovered(keys, v, i + 1);
    }
  }

  /** A value before the first bin matches no interval and gets the `ELSE` bin. */
  lemma AssignBelow(c: Case, v: int)
    requires IncreasingInts(c.keys) && c.keys != [] && v < c.keys[0]
    ensures Assign(c, v) == c.elseKey
  {
    MatchOutside(c.keys, v, 0);
  }

  /** Outside the span of increasing bins no interval holds the value. */
  lemma {:induction false} MatchOutside(keys: seq<int>, v: int, i: nat)
    requires IncreasingInts(keys) && keys != [] && (v < keys[0] || keys[|keys| - 1] <= v)
    ensures MatchFrom(keys, v, i) == None
    decreases |keys| - i
  {
    if i + 1 < |keys| {
      assert keys[0] <= keys[i] && keys[i + 1] <= keys[|keys| - 1];
      MatchOutside(keys, v, i + 1);
    }
  }

  /** The day numbers of the bins. */
  function DayNumbers(dates: seq<Date>): (r: seq<int>)
    requires AllValid(dates)
    ensures |r| == |dates|
  {
    seq(|dates|, i requires 0 <= i < |dates| => DayNumber(dates[i]))
  }

  /** The `CASE` over date bins: the last bin is the `ELSE`. */
  function DateCase(bins: seq<Date>): Case
    requires bins != [] && AllValid(bins)
  {
    Case(DayNumbers(bins), DayNumber(bins[|bins| - 1]))
  }

  /** The query's date `CASE` as the source builds it. */
  function DateBinCase(bins: seq<Date>): Result<Case, BinError>
    requires bins != [] && AllValid(bins)
  {
    CaseOf(DayNumbers(bins), DayNumber(bins[|bins| - 1]))
  }

  /** The date `CASE` built with `CaseOfCorrected`. */
  function DateBinCaseCorrected(bins: seq<Date>): Result<Case, BinError>
    requires bins != [] && AllValid(bins)
  {
    CaseOfCorrected(DayNumbers(bins), DayNumber(bins[|bins| - 1]))
  }

  /** Increasing date bins build a `CASE` exactly when there are two of them,
      that is when the first comes before the last; the corrected `CASE`
      always builds and counts every value in the same bin. */
  lemma DateBinCaseBuilds(bins: seq<Date>, v: int)
    requires bins != [] && AllValid(bins) && Increasing(bins)
    ensures DateBinCase(bins).Ok? <==> DayNumber(bins[0]) < DayNumber(bins[|bins| - 1])
    ensures DateBinCase(bins).Ok? ==> DateBinCase(bins).value == DateCase(bins)
    ensures DateBinCaseCorrected(bins).Ok?
    ensures Assign(DateBinCaseCorrected(bins).value, v) == Assign(DateCase(bins), v)
  {
    CaseOfCorrectedAgrees(DayNumbers(bins), DayNumber(bins[|bins| - 1]), v);
  }

  /** Every value from `first` to `max` gets a bin that starts at or before it,
      and, when it comes before the last bin, the bin whose interval holds it. */
  lemma BinsFromCover(first: Date, max: Date, freq: Freq, bins: seq<Date>, v: Date) returns (k: nat)
    requires Valid(first) && Valid(max) && PeriodStart(first, freq)
    requires BinsFrom(first, max, freq) == Ok(bins)
    requires Valid(v) && DayNumber(first) <= DayNumber(v) <= DayNumber(max)
    ensures AllValid(bins) && k < |bins|
    ensures Assign(DateCase(bins), DayNumber(v)) == DayNumber(bins[k])
    ensures DayNumber(bins[k]) <= DayNumber(v)
    ensures DayNumber(v) < DayNumber(bins[|bins| - 1]) ==> k + 1 < |bins| && DayNumber(v) < DayNumber(bins[k + 1])
    ensures DayNumber(bins[|bins| - 1]) <= DayNumber(v) ==> k == |bins| - 1
  {
    BinsFromShape(first, max, freq, bins);
    var keys := DayNumbers(bins);
    assert IncreasingInts(keys);
    k := CaseCover(keys, DayNumber(v));
  }

  /** With increasing keys whose last is the `ELSE`, a value from the first
      key on gets the key of the interval that holds it, or the last key. */
  lemma CaseCover(keys: seq<int>, v: int) returns (k: nat)
    requires IncreasingInts(keys) && keys != [] && keys[0] <= v
    ensures k < |keys| && keys[k] <= v
    ensures Assign(Case(keys, keys[|keys| - 1]), v) == keys[k]
    ensures v < keys[|keys| - 1] ==> k + 1 < |keys| && v < keys[k + 1]
    ensures keys[|keys| - 1] <= v ==> k == |keys| - 1
  {
    if v < keys[|keys| - 1] {
      MatchCovered(keys, v, 0);
      k := MatchFrom(keys, v, 0).value;
    } else {
      k := |keys| - 1;
      MatchOutside(keys, v, 0);
    }
  }


  /** With frequency D, M or Y every value from `min_value` to `max_value` gets a
      bin that starts at or before it; with M or Y it is the bin whose interval
      holds it, since the last bin lies after `max_value`. */
  lemma DateBinsCover(min: Date, max: Date, freq: Freq, bins: seq<Date>, v: Date)
    requires Valid(min) && Valid(max) && freq != W
    requires DateBins(min, max, freq, 0) == Ok(bins)
    requires Valid(v) && DayNumber(min) <= DayNumber(v) <= DayNumber(max)
    ensures AllValid(bins) && bins != []
    ensures bins[0] == Snap(min, freq)
    ensures exists k ::
      && 0 <= k < |bins|
      && Assign(DateCase(bins), DayNumber(v)) == DayNumber(bins[k])
      && DayNumber(bins[k]) <= DayNumber(v)
      && (freq != D ==> k + 1 < |bins| && DayNumber(v) < DayNumber(bins[k + 1]))
    ensures DateBinCase(bins).Ok? <==> freq != D || DayNumber(min) < DayNumber(max)
    ensures DateBinCase(bins).Ok? ==> DateBinCase(bins).value == DateCase(bins)
    ensures DateBinCaseCorrected(bins).Ok?
    ensures Assign(DateBinCaseCorrected(bins).value, DayNumber(v)) == Assign(DateCase(bins), DayNumber(v))
  {
    var first := Snap(min, freq);
    BinsFromShape(first, max, freq, bins);
    var k := BinsFromCover(first, max, freq, bins, v);
    DateBinCaseBuilds(bins, DayNumber(v));
  }

  /** On a single day the daily range is one bin, and the query's `CASE` has no
      `WHEN`. */
  lemma SingleDayBinsAsWritten(d: Date)
    requires Valid(d)
    ensures DateBins(d, d, D, 0) == Ok([d])
    ensures DateBinCase([d]) == Err(NoWhen)
  {
    RangeFirst(d, d, D);
    var bins := DateBins(d, d, D, 0).value;
    BinsFromShape(d, d, D, bins);
    assert bins == [d];
  }

  /** On a single day the corrected `CASE` builds and counts the day in its bin. */
  lemma SingleDayBinsCorrected(d: Date)
    requires Valid(d)
    ensures DateBins(d, d, D, 0) == Ok([d])
    ensures DateBinCaseCorrected([d]).Ok?
    ensures Assign(DateBinCaseCorrected([d]).value, DayNumber(d)) == DayNumber(d)
  {
    SingleDayBinsAsWritten(d);
  }

  /** A row whose date is NULL is counted in the last bin, which is at or after
      `max_value`, just like a row dated on or after that bin. */
  lemma UndatedInLastBin(min: Date, max: Date, freq: Freq, bins: seq<Date>)
    requires Valid(min) && Valid(max)
    requires DateBins(min, max, freq, 0) == Ok(bins)
    ensures AllValid(bins) && bins != []
    ensures AssignCell(DateCase(bins), None) == DayNumber(bins[|bins| - 1])
    ensures DayNumber(max) <= DayNumber(bins[|bins| - 1])
    ensures forall x :: DayNumber(bins[|bins| - 1]) <= x ==>
      AssignCell(DateCase(bins), Some(x)) == AssignCell(DateCase(bins), None)
  {
    BinsFromShape(Anchor(Snap(min, freq), freq), max, freq, bins);
    DateCaseNull(bins);
  }

  /** In the date `CASE` a NULL takes the last bin, as every value from it on does. */
  lemma DateCaseNull(bins: seq<Date>)
    requires bins != [] && AllValid(bins) && Increasing(bins)
    ensures AssignCell(DateCase(bins), None) == DayNumber(bins[|bins| - 1])
    ensures forall x :: DayNumber(bins[|bins| - 1]) <= x ==>
      AssignCell(DateCase(bins), Some(x)) == AssignCell(DateCase(bins), None)
  {
    var c := DateCase(bins);
    assert IncreasingInts(c.keys);
    forall x | c.keys[|c.keys| - 1] <= x
      ensures AssignCell(c, Some(x)) == AssignCell(c, None)
    {
      NullTakesElse(c, x);
    }
  }

  /** With frequency W the range starts on the first Sunday on or after
      `min_value`: when `min_value` is not a Sunday, a row dated `min_value`
      matches no interval and is counted in the `ELSE` bin, which is
      `max_value`, a bin that starts after it. */
  lemma WeeklyBinsAsWritten(min: Date, max: Date, bins: seq<Date>)
    requires Valid(min) && Valid(max) && Weekday(min) != Sunday
    requires DateBins(min, max, W, 0) == Ok(bins)
    ensures AllValid(bins) && bins != []
    ensures Assign(DateCase(bins), DayNumber(min)) == DayNumber(max)
    ensures DayNumber(min) < DayNumber(max)
    ensures DateBinCase(bins).Ok? <==> DayNumber(Anchor(min, W)) < DayNumber(max)
  {
    WeeklyElse(min, max, bins);
    WeeklyCaseBuilds(min, max, bins);
  }

  lemma WeeklyElse(min: Date, max: Date, bins: seq<Date>)
    requires Valid(min) && Valid(max) && Weekday(min) != Sunday
    requires DateBins(min, max, W, 0) == Ok(bins)
    ensures AllValid(bins) && bins != []
    ensures Assign(DateCase(bins), DayNumber(min)) == DayNumber(max)
    ensures DayNumber(min) < DayNumber(max)
  {
    var first := Anchor(min, W);
    BinsFromShape(first, max, W, bins);
    assert DayNumber(min) < DayNumber(first);
    AssignBelow(DateCase(bins), DayNumber(min));
  }

  lemma WeeklyCaseBuilds(min: Date, max: Date, bins: seq<Date>)
    requires Valid(min) && Valid(max)
    requires DateBins(min, max, W, 0) == Ok(bins)
    ensures AllValid(bins) && bins != []
    ensures DateBinCase(bins).Ok? <==> DayNumber(Anchor(min, W)) < DayNumber(max)
  {
    BinsFromShape(Anchor(min, W), max, W, bins);
    DateBinCaseBuilds(bins, 0);
  }

  /** `generate_date_bins` with the weekly range starting at `min_value` itself,
      as the day range does: the same bins for D, M and Y. */
  function DateBinsCorrected(min: Date, max: Date, freq: Freq, numBins: int): Result<seq<Date>, BinError>
    requires Valid(min) && Valid(max)
  {
    if numBins != 0 then Err(MutuallyExclusive) else BinsFrom(Snap(min, freq), max, freq)
  }

  lemma DateBinsCorrectedAgrees(min: Date, max: Date, freq: Freq, numBins: int)
    requires Valid(min) && Valid(max) && freq != W
    ensures DateBinsCorrected(min, max, freq, numBins) == DateBins(min, max, freq, numBins)
  {
  }

  /** With the corrected weekly range every value from `min_value` to
      `max_value` gets a bin that starts at or before it, less than a week before. */
  lemma WeeklyBinsCorrected(min: Date, max: Date, bins: seq<Date>, v: Date)
    requires Valid(min) && Valid(max)
    requires DateBinsCorrected(min, max, W, 0) == Ok(bins)
    requires Valid(v) && DayNumber(min) <= DayNumber(v) <= DayNumber(max)
    ensures AllValid(bins) && bins != []
    ensures exists k ::
      && 0 <= k < |bins|
      && Assign(DateCase(bins), DayNumber(v)) == DayNumber(bins[k])
      && DayNumber(bins[k]) <= DayNumber(v) < DayNumber(bins[k]) + 7
    ensures DateBinCaseCorrected(bins).Ok?
    ensures Assign(DateBinCaseCorrected(bins).value, DayNumber(v)) == Assign(DateCase(bins), DayNumber(v))
  {
    BinsFromShape(min, max, W, bins);
    DateBinCaseBuilds(bins, DayNumber(v));
    var k := BinsFromCover(min, max, W, bins, v);
    if k + 1 < |bins| {
      WeeklyGap(min, max, bins, k);
    } else {
      assert bins[k] == max;
    }
  }

  /** Consecutive weekly bins are at most seven days apart. */
  lemma WeeklyGap(min: Date, max: Date, bins: seq<Date>, k: nat)
    requires Valid(min) && Valid(max)
    requires BinsFrom(min, max, W) == Ok(bins) && AllValid(bins) && k + 1 < |bins|
    ensures DayNumber(bins[k + 1]) <= DayNumber(bins[k]) + 7
  {
    var r := Range(min, max, W);
    RangeSteps(min, max, W);
    RangeBounds(min, max, W);
    RangeEnd(min, max, W);
    if k + 1 < |r| {
      assert bins[k + 1] == Step(r[k], W);
    } else {
      assert bins == r + [max] && k == |r| - 1;
    }
  }

  /** Each date of a range is one period after the one before. */
  lemma {:induction false} RangeSteps(d: Date, last: Date, freq: Freq)
    requires Valid(d) && Valid(last)
    ensures forall i :: 0 <= i < |Range(d, last, freq)| - 1 ==>
      Range(d, last, freq)[i + 1] == Step(Range(d, last, freq)[i], freq)
    decreases DayNumber(last) + 1 - DayNumber(d)
  {
    var r := Range(d, last, freq);
    if r != [] {
      var next := Step(d, freq);
      var rest := Range(next, last, freq);
      RangeSteps(next, last, freq);
      assert r == [d] + rest;
      RangeFirst(next, last, freq);
      StepsCons(d, rest, freq);
    }
  }

  /** Putting `d` in front of a run of steps that starts one step after `d`
      gives a run of steps. */
  lemma StepsCons(d: Date, rest: seq<Date>, freq: Freq)
    requires Valid(d) && forall i :: 0 <= i < |rest| ==> Valid(rest[i])
    requires rest != [] ==> rest[0] == Step(d, freq)
    requires forall i :: 0 <= i < |rest| - 1 ==> rest[i + 1] == Step(rest[i], freq)
    ensures forall i :: 0 <= i < |[d] + rest| - 1 ==> ([d] + rest)[i + 1] == Step(([d] + rest)[i], freq)
  {
    var r := [d] + rest;
    forall i | 0 <= i < |r| - 1 ensures r[i + 1] == Step(r[i], freq) {
      if i == 0 {
        assert r[0] == d && r[1] == rest[0];
      } else {
        assert r[i] == rest[i - 1] && r[i + 1] == rest[i];
      }
    }
  }

  // ------------------------------------------------------------ numeric bins

  /** `np.floor(a / b)` for integers. */
  function FloorDiv(a: int, b: int): int
    requires b != 0
  {
    if b > 0 then a / b else (-a) / (-b)
  }

  /** `np.ceil(a / b)` for integers. */
  function CeilDiv(a: int, b: int): int
    requires b != 0
  {
    -FloorDiv(-a, b)
  }

  /** `np.arange(start, stop, step)`. */
  function ARange(start: int, stop: int, step: int): seq<int>
    requires step != 0
    decreases if step > 0 then stop - start else start - stop
  {
    if (step > 0 && start >= stop) || (step < 0 && start <= stop) then []
    else [start] + ARange(start + step, stop, step)
  }

  /** `generate_dynamic_numeric_bins(min_value=…, max_value=…, bin_width=width)`. */
  function NumericBins(min: int, max: int, width: int): Result<seq<int>, BinError>
  {
    if min == max then Ok([min])
    else if width == 0 then Err(ZeroWidth)
    else
      var lo := FloorDiv(min, width) * width;
      var hi := CeilDiv(max, width) * width;
      Ok(ARange(lo, hi + width, width))
  }

  /** The multiples of `step` from `start` on, `k + 1` of them. */
  function Multiples(start: int, k: nat, step: int): (r: seq<int>)
    ensures |r| == k + 1
  {
    seq(k + 1, i requires 0 <= i <= k => start + i * step)
  }

  lemma {:induction false} ARangeMultiples(start: int, k: nat, step: int)
    requires step > 0
    ensures ARange(start, start + k * step + step, step) == Multiples(start, k, step)
    decreases k
  {
    var stop := start + k * step + step;
    if k > 0 {
      assert stop == (start + step) + (k - 1) * step + step;
      ARangeMultiples(start + step, k - 1, step);
      var r := Multiples(start, k, step);
      var rest := Multiples(start + step, k - 1, step);
      assert r == [start] + rest by {
        forall i | 1 <= i <= k ensures r[i] == rest[i - 1] {
          assert (start + step) + (i - 1) * step == start + i * step;
        }
      }
    } else {
      assert ARange(start + step, stop, step) == [];
    }
  }

  /** The lower and upper multiples of `width` around the values. */
  lemma FloorCeil(min: int, max: int, width: int)
    requires width > 0 && min < max
    ensures FloorDiv(min, width) * width <= min < FloorDiv(min, width) * width + width
    ensures CeilDiv(max, width) * width - width < max <= CeilDiv(max, width) * width
    ensures FloorDiv(min, width) < CeilDiv(max, width)
  {
    var f, c := FloorDiv(min, width), CeilDiv(max, width);
    assert min == f * width + min % width;
    assert -max == (-c) * width + (-max) % width;
    assert f * width < c * width;
    if f >= c {
      MulMonotone(c, f, width);
    }
  }

  lemma MulMonotone(a: int, b: int, c: int)
    requires a <= b && c > 0
    ensures a * c <= b * c
  {
  }

  lemma MulStrict(a: int, b: int, c: int)
    requires a < b && c > 0
    ensures a * c < b * c
  {
  }

  /** With a positive width the bins are the multiples of the width from the one
      at or below `min_value` to the one at or above `max_value`; there are at
      least two of them unless `min_value == max_value`. */
  lemma NumericBinsShape(min: int, max: int, width: int)
    requires width > 0 && min < max
    ensures var lo, hi := FloorDiv(min, width) * width, CeilDiv(max, width) * width;
      && NumericBins(min, max, width) == Ok(Multiples(lo, CeilDiv(max, width) - FloorDiv(min, width), width))
      && lo <= min < lo + width && hi - width < max <= hi
      && |NumericBins(min, max, width).value| >= 2
  {
    var f, c := FloorDiv(min, width), CeilDiv(max, width);
    FloorCeil(min, max, width);
    var lo, k := f * width, c - f;
    assert lo + k * width + width == c * width + width;
    ARangeMultiples(lo, k, width);
  }

  /** The `CASE` over numeric bins: the second-to-last bin is the `ELSE`, and
      `bins[-2]` of a single bin raises. */
  function NumericCase(bins: seq<int>): Result<Case, BinError>
  {
    if |bins| < 2 then Err(TooFewBins) else Ok(Case(bins, bins[|bins| - 2]))
  }

  lemma MultiplesIncreasing(start: int, k: nat, step: int)
    requires step > 0
    ensures IncreasingInts(Multiples(start, k, step))
  {
    var r := Multiples(start, k, step);
    forall i, j | 0 <= i < j < |r| ensures r[i] < r[j] {
      MulStrict(i, j, step);
    }
  }

  /** The `i`-th multiple from `f * step` is `(f + i) * step`. */
  lemma MultiplesAt(f: int, k: nat, step: int, i: nat)
    requires i <= k
    ensures Multiples(f * step, k, step)[i] == (f + i) * step
  {
    assert f * step + i * step == (f + i) * step;
  }

  /** The multiple of `width` at or below `v` lies between the ones at or below
      `min_value` and above `max_value`. */
  lemma QuotientBounds(v: int, f: int, c: int, width: int)
    requires width > 0 && f * width <= v < c * width
    ensures f <= FloorDiv(v, width) < c
    ensures FloorDiv(v, width) * width <= v < (FloorDiv(v, width) + 1) * width
  {
    var q := FloorDiv(v, width);
    assert v == q * width + v % width;
    assert (q + 1) * width == q * width + width;
    if q < f {
      MulMonotone(q + 1, f, width);
    }
    if q >= c {
      MulMonotone(c, q, width);
    }
  }

  /** With a positive width the bins are `(f + i) * width` for `i` from 0 to
      `c - f`, and the `CASE`'s `ELSE` is the one before the top. */
  lemma NumericCaseShape(min: int, max: int, width: int)
    requires width > 0 && min < max
    ensures var f, c := FloorDiv(min, width), CeilDiv(max, width);
      && f < c
      && NumericBins(min, max, width) == Ok(Multiples(f * width, c - f, width))
      && NumericCase(Multiples(f * width, c - f, width)) == Ok(Case(Multiples(f * width, c - f, width), (c - 1) * width))
      && IncreasingInts(Multiples(f * width, c - f, width))
  {
    NumericBinsShape(min, max, width);
    FloorCeil(min, max, width);
    var f, c := FloorDiv(min, width), CeilDiv(max, width);
    MultiplesIncreasing(f * width, c - f, width);
    MultiplesAt(f, c - f, width, c - f - 1);
    assert f + (c - f - 1) == c - 1;
  }

  /** A value below the top multiple is in the bin of the multiple at or below it. */
  lemma NumericIndexBelow(f: int, c: int, width: int, v: int) returns (i: nat)
    requires width > 0 && f < c && f * width <= v < c * width
    ensures i + 1 < |Multiples(f * width, c - f, width)|
    ensures Multiples(f * width, c - f, width)[i] == FloorDiv(v, width) * width
    ensures Multiples(f * width, c - f, width)[i + 1] == FloorDiv(v, width) * width + width
  {
    QuotientBounds(v, f, c, width);
    var q := FloorDiv(v, width);
    i := q - f;
    MultiplesAt(f, c - f, width, i);
    MultiplesAt(f, c - f, width, i + 1);
    assert (q + 1) * width == q * width + width;
  }

  /** The top multiple is the last bin, one width after the one before. */
  lemma NumericTop(f: int, c: int, width: int)
    requires width > 0 && f < c
    ensures Multiples(f * width, c - f, width)[c - f] == c * width
    ensures Multiples(f * width, c - f, width)[c - f - 1] == c * width - width
  {
    MultiplesAt(f, c - f, width, c - f);
    MultiplesAt(f, c - f, width, c - f - 1);
    assert (c - 1) * width == c * width - width;
  }

  /** With a positive width every value from `min_value` to `max_value` gets the
      multiple of the width at or below it; the top bin's start is itself a
      multiple, so a value equal to it goes to the bin before. */
  lemma NumericAssign(min: int, max: int, width: int, v: int)
    requires width > 0 && min < max && min <= v <= max
    ensures NumericBins(min, max, width).Ok?
    ensures NumericCase(NumericBins(min, max, width).value).Ok?
    ensures var hi := CeilDiv(max, width) * width;
      Assign(NumericCase(NumericBins(min, max, width).value).value, v) ==
        if v < hi then FloorDiv(v, width) * width else hi - width
  {
    NumericCaseShape(min, max, width);
    FloorCeil(min, max, width);
    var f, c := FloorDiv(min, width), CeilDiv(max, width);
    if v < c * width {
      NumericAssignBelow(f, c, width, v);
    } else {
      NumericAssignTop(f, c, width, v);
    }
  }

  /** Below the top multiple a value gets the multiple at or below it. */
  lemma NumericAssignBelow(f: int, c: int, width: int, v: int)
    requires width > 0 && f < c && f * width <= v < c * width
    ensures Assign(Case(Multiples(f * width, c - f, width), (c - 1) * width), v) == FloorDiv(v, width) * width
  {
    var bins := Multiples(f * width, c - f, width);
    MultiplesIncreasing(f * width, c - f, width);
    var i := NumericIndexBelow(f, c, width, v);
    AssignInterval(Case(bins, (c - 1) * width), v, i);
  }

  /** At or above the top multiple a value falls through to the `ELSE` bin. */
  lemma NumericAssignTop(f: int, c: int, width: int, v: int)
    requires width > 0 && f < c && c * width <= v
    ensures Assign(Case(Multiples(f * width, c - f, width), (c - 1) * width), v) == c * width - width
  {
    var bins := Multiples(f * width, c - f, width);
    MultiplesIncreasing(f * width, c - f, width);
    NumericTop(f, c, width);
    MatchOutside(bins, v, 0);
    assert (c - 1) * width == c * width - width;
  }

  /** When every value is the same, `generate_dynamic_numeric_bins` returns a
      single bin and building the `CASE` fails on `bins[-2]`. */
  lemma NumericCaseAsWritten(min: int, width: int)
    ensures NumericBins(min, min, width) == Ok([min])
    ensures NumericCase([min]) == Err(TooFewBins)
  {
  }

  /** The `CASE` with the single bin as its own `ELSE`, built with a `WHEN`
      for it. */
  function NumericCaseCorrected(bins: seq<int>): Result<Case, BinError>
  {
    if bins == [] then Err(TooFewBins)
    else CaseOfCorrected(bins, if |bins| >= 2 then bins[|bins| - 2] else bins[0])
  }

  /** The corrected `CASE` agrees with the written one wherever that succeeds,
      and also gives the single bin to the one value there is. */
  lemma NumericCaseCorrectedAgrees(bins: seq<int>)
    ensures NumericCase(bins).Ok? ==> NumericCaseCorrected(bins) == NumericCase(bins)
    ensures |bins| == 1 ==> NumericCaseCorrected(bins).Ok?
  {
  }

  lemma NumericCaseCorrectedSingle(min: int, width: int)
    ensures NumericBins(min, min, width) == Ok([min])
    ensures NumericCaseCorrected([min]).Ok? && |NumericCaseCorrected([min]).value.keys| >= 2
    ensures Assign(NumericCaseCorrected([min]).value, min) == min
  {
  }

  /** A NULL total takes the `ELSE`, the second-to-last bin. */
  lemma NumericNullTakesElse(bins: seq<int>, c: Case)
    requires NumericCase(bins) == Ok(c)
    ensures |bins| >= 2 && AssignCell(c, None) == bins[|bins| - 2]
  {
  }

  /** `bins.index(x)`. */
  function IndexOf(s: seq<int>, x: int): (r: Option<nat>)
    ensures r.Some? ==> r.value < |s| && s[r.value] == x && forall j :: 0 <= j < r.value ==> s[j] != x
    ensures r.None? ==> x !in s
  {
    if s == [] then None
    else if s[0] == x then Some(0)
    else match IndexOf(s[1..], x)
      case Some(i) => Some(i + 1)
      case None => None
  }

  /** The end of the bin that starts at `start`: the next bin, or `None` for the last. */
  function BinEnd(bins: seq<int>, start: int): Result<Option<int>, BinError>
  {
    match IndexOf(bins, start)
    case None => Err(NotInBins)
    case Some(i) => Ok(if i < |bins| - 1 then Some(bins[i + 1]) else None)
  }

  /** With increasing bins each bin ends where the next begins, and the last has no end. */
  lemma BinEndNext(bins: seq<int>, i: nat)
    requires IncreasingInts(bins) && i < |bins|
    ensures BinEnd(bins, bins[i]) == Ok(if i + 1 < |bins| then Some(bins[i + 1]) else None)
  {
    var j := IndexOf(bins, bins[i]).value;
    IncreasingInjective(bins, j, i);
  }

  lemma IncreasingInjective(keys: seq<int>, a: nat, b: nat)
    requires IncreasingInts(keys) && a < |keys| && b < |keys| && keys[a] == keys[b]
    ensures a == b
  {
  }

  /** With a positive width the bin any value is assigned ends one width later. */
  lemma NumericBinEnd(min: int, max: int, width: int, v: int)
    requires width > 0 && min < max && min <= v <= max
    ensures NumericBins(min, max, width).Ok?
    ensures NumericCase(NumericBins(min, max, width).value).Ok?
    ensures var b := Assign(NumericCase(NumericBins(min, max, width).value).value, v);
      BinEnd(NumericBins(min, max, width).value, b) == Ok(Some(b + width))
  {
    NumericCaseShape(min, max, width);
    NumericBinEndAt(min, max, width, v);
  }

  /** The bin a value between `min_value` and `max_value` is assigned ends one
      width after it starts. */
  lemma NumericBinEndAt(min: int, max: int, width: int, v: int)
    requires width > 0 && min < max && min <= v <= max
    ensures var f, c := FloorDiv(min, width), CeilDiv(max, width);
      var bins := Multiples(f * width, c - f, width);
      var b := Assign(Case(bins, (c - 1) * width), v);
      f < c && BinEnd(bins, b) == Ok(Some(b + width))
  {
    FloorCeil(min, max, width);
    var f, c := FloorDiv(min, width), CeilDiv(max, width);
    if v < c * width {
      NumericBinEndBelow(f, c, width, v);
    } else {
      NumericBinEndTop(f, c, width, v);
    }
  }

  /** Below the top multiple the bin of a value ends at the next multiple. */
  lemma NumericBinEndBelow(f: int, c: int, width: int, v: int)
    requires width > 0 && f < c && f * width <= v < c * width
    ensures var bins := Multiples(f * width, c - f, width);
      var b := Assign(Case(bins, (c - 1) * width), v);
      BinEnd(bins, b) == Ok(Some(b + width))
  {
    NumericAssignBelow(f, c, width, v);
    MultiplesIncreasing(f * width, c - f, width);
    var i := NumericIndexBelow(f, c, width, v);
    BinEndNext(Multiples(f * width, c - f, width), i);
  }

  /** At the top multiple a value's bin is the one below it, which ends there. */
  lemma NumericBinEndTop(f: int, c: int, width: int, v: int)
    requires width > 0 && f < c && c * width <= v
    ensures var bins := Multiples(f * width, c - f, width);
      var b := Assign(Case(bins, (c - 1) * width), v);
      BinEnd(bins, b) == Ok(Some(b + width))
  {
    NumericAssignTop(f, c, width, v);
    MultiplesIncreasing(f * width, c - f, width);
    NumericTop(f, c, width);
    BinEndNext(Multiples(f * width, c - f, width), c - f - 1);
  }

  // -------------------------------------------------- automatic frequency

  /** The frequency `get_credits_by_project_id` picks when none is given: by the
      length of the span, then M or Y whenever both dates share a year. */
  function AutoFreq(min: Date, max: Date): Freq
    requires Valid(min) && Valid(max)
  {
    var diff := DayNumber(max) - DayNumber(min);
    var bySpan := if diff < 7 then D else if diff < 30 then W else if diff < 365 then M else Y;
    if min.year == max.year then (if min.month == max.month then M else Y) else bySpan
  }

  /** The range of an ordered span is never empty with the frequency picked for it. */
  lemma AutoFreqBinsOk(min: Date, max: Date)
    requires Valid(min) && Valid(max) && DayNumber(min) <= DayNumber(max)
    ensures DateBins(min, max, AutoFreq(min, max), 0).Ok?
  {
    var freq := AutoFreq(min, max);
    var first := Anchor(Snap(min, freq), freq);
    assert DayNumber(first) <= DayNumber(max);
    RangeFirst(first, max, freq);
  }

  // ------------------------------------------------------------- formatting

  /** A row of the binned query: the bin, the category and the count. */
  datatype BinRow = BinRow(bin: Date, category: string, value: int)

  /** A formatted result: `start` and `end` as `%Y-%m-%d`. */
  datatype Binned = Binned(start: string, end: string, category: string, value: int)

  /** `d.strftime('%Y-%m-%d')`. */
  function IsoDate(d: Date): string
    requires Valid(d)
  {
    ZeroPad(d.year, 4) + "-" + ZeroPad(d.month, 2) + "-" + ZeroPad(d.day, 2)
  }

  function FormatRow(row: BinRow, freq: Freq): Binned
    requires Valid(row.bin)
  {
    Binned(IsoDate(row.bin), IsoDate(CalculateEndDate(row.bin, freq)), row.category, row.value)
  }

  predicate AllBinsValid(rows: seq<BinRow>)
  {
    forall i :: 0 <= i < |rows| ==> Valid(rows[i].bin)
  }

  /** The rows whose bin is not in a future year, formatted, in query order. */
  function Formatted(rows: seq<BinRow>, freq: Freq, currentYear: int): (r: seq<Binned>)
    requires AllBinsValid(rows)
    ensures |r| <= |rows|
  {
    if rows == [] then []
    else
      var init, last := rows[..|rows| - 1], rows[|rows| - 1];
      var kept := Formatted(init, freq, currentYear);
      if last.bin.year > currentYear then kept else kept + [FormatRow(last, freq)]
  }

  /** A formatted result comes from a row of a year that is not in the future. */
  lemma {:induction false} FormattedSound(rows: seq<BinRow>, freq: Freq, currentYear: int, b: Binned)
    requires AllBinsValid(rows) && b in Formatted(rows, freq, currentYear)
    ensures exists i :: 0 <= i < |rows| && rows[i].bin.year <= currentYear && b == FormatRow(rows[i], freq)
  {
    var init, last := rows[..|rows| - 1], rows[|rows| - 1];
    if b in Formatted(init, freq, currentYear) {
      FormattedSound(init, freq, currentYear, b);
      var i :| 0 <= i < |init| && init[i].bin.year <= currentYear && b == FormatRow(init[i], freq);
      assert rows[i] == init[i];
    } else {
      assert rows[|rows| - 1] == last;
    }
  }

  /** Every row of a year that is not in the future gives a formatted result. */
  lemma {:induction false} FormattedComplete(rows: seq<BinRow>, freq: Freq, currentYear: int, i: nat)
    requires AllBinsValid(rows) && i < |rows| && rows[i].bin.year <= currentYear
    ensures FormatRow(rows[i], freq) in Formatted(rows, freq, currentYear)
  {
    var init := rows[..|rows| - 1];
    if i < |rows| - 1 {
      FormattedComplete(init, freq, currentYear, i);
      assert init[i] == rows[i];
    }
  }

  /** The sort key `(start, category)`, compared as a Python tuple. */
  predicate BinnedLe(a: Binned, b: Binned)
  {
    ListLe([a.start, a.category], [b.start, b.category])
  }

  lemma BinnedLeTotalPreorder()
    ensures TotalPreorder(BinnedLe)
  {
    forall a, b ensures BinnedLe(a, b) || BinnedLe(b, a) {
      ListLeTotal([a.start, a.category], [b.start, b.category]);
    }
    forall a, b, c | BinnedLe(a, b) && BinnedLe(b, c) ensures BinnedLe(a, c) {
      ListLeTransitive([a.start, a.category], [b.start, b.category], [c.start, c.category]);
    }
  }

  /** The pagination of a chart response: everything on one page. */
  datatype ChartPage = ChartPage(totalEntries: nat, totalPages: nat, nextPage: Option<string>, currentPage: int,
                                 data: seq<Binned>)

  /** The formatting loop of `get_projects_by_listing_date` and
      `get_credits_by_transaction_date`: rows of a future year are skipped, the
      rest formatted and sorted by `(start, category)`. */
  method FormatBinnedRows(rows: seq<BinRow>, freq: Freq, currentYear: int, currentPage: int) returns (page: ChartPage)
    requires AllBinsValid(rows)
    ensures multiset(page.data) == multiset(Formatted(rows, freq, currentYear))
    ensures SortedBy(page.data, BinnedLe)
    ensures page.totalEntries == |page.data| && page.totalPages == 1 && page.nextPage.None?
    ensures page.currentPage == currentPage
  {
    var formatted: seq<Binned> := [];
    var i := 0;
    while i < |rows|
      invariant 0 <= i <= |rows|
      invariant formatted == Formatted(rows[..i], freq, currentYear)
    {
      assert rows[..i + 1][..i] == rows[..i];
      if rows[i].bin.year <= currentYear {
        formatted := formatted + [FormatRow(rows[i], freq)];
      }
      i := i + 1;
    }
    assert rows[..|rows|] == rows;
    BinnedLeTotalPreorder();
    SortSorted(formatted, BinnedLe);
    var data := Sort(formatted, BinnedLe);
    page := ChartPage(|data|, 1, None, currentPage, data);
  }

  /** With no rows the response has no entries and one page. */
  lemma NoRowsPage(freq: Freq, currentYear: int)
    ensures Formatted([], freq, currentYear) == []
  {
  }
}
