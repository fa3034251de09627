/** Days since 1970-01-01, computed twice: a closed form in the GitHub connector
    (interconnect-connector-github/src/transport.rs:110-116) and two counting loops in the
    mailing-list connector (interconnect-connector-maillist/src/transport.rs:261-280). */
module Calendar {
  import opened Wrappers

  // -------------------------------------------------------------------------
  // The Gregorian calendar.
  // -------------------------------------------------------------------------

  datatype Date = Date(year: int, month: int, day: int)

  predicate IsLeap(y: int) {
    (y % 4 == 0 && y % 100 != 0) || y % 400 == 0
  }

  function YearLength(y: int): int {
    if IsLeap(y) then 366 else 365
  }

  function MonthLength(y: int, m: int): int
    requires 1 <= m <= 12
  {
    if m == 2 then (if IsLeap(y) then 29 else 28)
    else if m == 4 || m == 6 || m == 9 || m == 11 then 30
    else 31
  }

  predicate ValidDate(d: Date) {
    1 <= d.month <= 12 && 1 <= d.day <= MonthLength(d.year, d.month)
  }

  function NextDate(d: Date): (d': Date)
    requires ValidDate(d)
    ensures ValidDate(d')
  {
    if d.day < MonthLength(d.year, d.month) then d.(day := d.day + 1)
    else if d.month < 12 then Date(d.year, d.month + 1, 1)
    else Date(d.year + 1, 1, 1)
  }

  predicate Earlier(a: Date, b: Date) {
    a.year < b.year ||
    (a.year == b.year && (a.month < b.month || (a.month == b.month && a.day < b.day)))
  }

  // -------------------------------------------------------------------------
  // The counting loops.
  // -------------------------------------------------------------------------

  const DAYS_IN_MONTH: seq<int> := [31, 28, 31, 30, 31, 30, 31, 31, 30, 31, 30, 31]

  /** Days of the years from 1970 up to `year`; none when `year` is earlier. */
  function YearDays(year: int): int
    decreases year - 1970
  {
    if year <= 1970 then 0 else YearDays(year - 1) + YearLength(year - 1)
  }

  /** Days of the first `months` months of a year. */
  function MonthDays(year: int, months: int): int
    requires 0 <= months <= 12
    decreases months
  {
    if months == 0 then 0 else MonthDays(year, months - 1) + MonthLength(year, months)
  }

  function CountedDays(year: int, month: int, day: int): Option<int> {
    if !(1 <= month <= 12) || !(1 <= day <= 31) then None
    else Some(YearDays(year) + MonthDays(year, month - 1) + day - 1)
  }

  /** The table's month, with the leap day, is the calendar's. */
  lemma TableMonth(year: int, m: int)
    requires 0 <= m < 12
    ensures MonthLength(year, m + 1) == DAYS_IN_MONTH[m] + if m == 1 && IsLeap(year) then 1 else 0
  {
  }

  method DaysFromEpoch(year: int, month: int, day: int) returns (r: Option<int>)
    ensures r == CountedDays(year, month, day)
  {
    if !(1 <= month <= 12) || !(1 <= day <= 31) {
      return None;
    }
    var isLeap := (year % 4 == 0 && year % 100 != 0) || year % 400 == 0;
    assert isLeap == IsLeap(year);
    var days := AddYears(year);
    hide IsLeap, MonthLength, YearDays;
    for m := 0 to month - 1
      invariant days == YearDays(year) + MonthDays(year, m)
    {
      var extra := if m == 1 && isLeap then 1 else 0;
      TableMonth(year, m);
      days := days + DAYS_IN_MONTH[m] + extra;
    }
    days := days + day - 1;
    return Some(days);
  }

  /** The first loop: full years since 1970. */
  method AddYears(year: int) returns (days: int)
    ensures days == YearDays(year)
  {
    days := 0;
    var y := 1970;
    while y < year
      invariant 1970 <= y && (y <= year || y == 1970)
      invariant days == YearDays(y)
    {
      days := days + if (y % 4 == 0 && y % 100 != 0) || y % 400 == 0 then 366 else 365;
      y := y + 1;
    }
  }

  // -------------------------------------------------------------------------
  // The closed form.
  // -------------------------------------------------------------------------

  const U64_SIZE: int := 0x1_0000_0000_0000_0000
  const I64_LIMIT: int := 0x8000_0000_0000_0000

  /** A value of type u64, or the overflow of the operation that computes it. */
  function U64(x: int): Option<int> {
    if 0 <= x < U64_SIZE then Some(x) else None
  }

  function I64(x: int): Option<int> {
    if -I64_LIMIT <= x < I64_LIMIT then Some(x) else None
  }

  /** The day of the year that starts in March, for a month counted from March. */
  function DayOfYear(shifted: int, day: int): Option<int>
    requires 0 <= shifted
  {
    var scaled :- U64(153 * shifted);
    var scaled2 :- U64(scaled + 2);
    var toDay :- U64(scaled2 / 5 + day);
    U64(toDay - 1)
  }

  /** The closed form with the range of every operation checked; None when one overflows. */
  function ClosedDays(year: int, month: int, day: int): Option<int>
    requires 0 <= year && 0 <= month && 0 <= day
  {
    var y :- if month <= 2 then U64(year - 1) else Some(year);
    var doy :- DayOfYear(if month > 2 then month - 3 else month + 9, day);
    EraDays(y, doy)
  }

  function EraDays(y: int, doy: int): Option<int>
    requires 0 <= y
  {
    var era := y / 400;
    var yoe := y - era * 400;
    var doe :- U64(yoe * 365 + yoe / 4 - yoe / 100 + doy);
    var eraDays :- I64(era * 146097);
    var signed :- I64(doe);
    var sum :- I64(eraDays + signed);
    I64(sum - 719468)
  }

  // -------------------------------------------------------------------------
  // Both against one formula.
  // -------------------------------------------------------------------------

  /** Days of the years 1..y of the proleptic calendar. */
  function DaysThrough(y: int): int {
    365 * y + y / 4 - y / 100 + y / 400
  }

  lemma Quarters(y: int)
    ensures y / 4 == (y - 1) / 4 + if y % 4 == 0 then 1 else 0
  {
  }

  lemma Hundredths(y: int)
    ensures y / 100 == (y - 1) / 100 + if y % 100 == 0 then 1 else 0
  {
  }

  lemma FourHundredths(y: int)
    ensures y / 400 == (y - 1) / 400 + if y % 400 == 0 then 1 else 0
  {
  }

  lemma CenturyIsFours(q: int)
    ensures (100 * q) % 4 == 0
  {
    assert 100 * q == 4 * (25 * q);
  }

  lemma FourCenturies(q: int)
    ensures (400 * q) % 100 == 0
  {
    assert 400 * q == 100 * (4 * q);
  }

  lemma DaysThroughStep(y: int)
    ensures DaysThrough(y) == DaysThrough(y - 1) + YearLength(y)
  {
    Quarters(y);
    Hundredths(y);
    FourHundredths(y);
    CenturyIsFours(y / 100);
    FourCenturies(y / 400);
  }

  lemma {:induction false} YearDaysFormula(year: int)
    requires year >= 1970
    ensures YearDays(year) == DaysThrough(year - 1) - DaysThrough(1969)
    decreases year
  {
    if year > 1970 {
      YearDaysFormula(year - 1);
      DaysThroughStep(year - 1);
    }
  }

  lemma EraFormula(y: int)
    requires 0 <= y
    ensures var era := y / 400; var yoe := y - era * 400;
            era * 146097 + (yoe * 365 + yoe / 4 - yoe / 100) == DaysThrough(y)
  {
    var era := y / 400;
    var yoe := y - era * 400;
    assert y / 4 == 100 * era + yoe / 4;
    assert y / 100 == 4 * era + yoe / 100;
  }

  lemma MonthDaysUnfold(year: int)
    ensures var leap := if IsLeap(year) then 1 else 0;
            && MonthDays(year, 0) == 0 && MonthDays(year, 1) == 31
            && MonthDays(year, 2) == 59 + leap && MonthDays(year, 3) == 90 + leap
            && MonthDays(year, 4) == 120 + leap && MonthDays(year, 5) == 151 + leap
            && MonthDays(year, 6) == 181 + leap && MonthDays(year, 7) == 212 + leap
            && MonthDays(year, 8) == 243 + leap && MonthDays(year, 9) == 273 + leap
            && MonthDays(year, 10) == 304 + leap && MonthDays(year, 11) == 334 + leap
            && MonthDays(year, 12) == YearLength(year)
  {
    assert MonthDays(year, 1) == MonthDays(year, 0) + 31;
    assert MonthDays(year, 3) == MonthDays(year, 2) + 31;
    assert MonthDays(year, 5) == MonthDays(year, 4) + 31;
    assert MonthDays(year, 7) == MonthDays(year, 6) + 31;
    assert MonthDays(year, 9) == MonthDays(year, 8) + 30;
    assert MonthDays(year, 11) == MonthDays(year, 10) + 30;
  }

  /** The day number of a date by the calendar's own lengths, from 0001-01-01 on. */
  function DayNumber(year: int, month: int, day: int): int
    requires 1 <= month <= 12
  {
    DaysThrough(year - 1) - DaysThrough(1969) + MonthDays(year, month - 1) + day - 1
  }

  lemma CountedIsDayNumber(year: int, month: int, day: int)
    requires year >= 1970 && 1 <= month <= 12 && 1 <= day <= 31
    ensures CountedDays(year, month, day) == Some(DayNumber(year, month, day))
  {
    YearDaysFormula(year);
  }

  /** Years for which no operation of the closed form, nor the seconds computed from it, overflow. */
  const YEAR_LIMIT: int := 500_000_000_000

  /** The closed form without its range checks. */
  function ClosedFormula(year: int, month: int, day: int): int {
    var y := if month <= 2 then year - 1 else year;
    var era := y / 400;
    var yoe := y - era * 400;
    var doy := (153 * (if month > 2 then month - 3 else month + 9) + 2) / 5 + day - 1;
    era * 146097 + (yoe * 365 + yoe / 4 - yoe / 100 + doy) - 719468
  }

  lemma DayOfYearInRange(shifted: int, day: int)
    requires 0 <= shifted <= 11 && 1 <= day <= 31
    ensures DayOfYear(shifted, day) == Some((153 * shifted + 2) / 5 + day - 1)
    ensures 0 <= (153 * shifted + 2) / 5 <= 337
  {
  }

  lemma NoOverflow(year: int, month: int, day: int)
    requires 1 <= year <= YEAR_LIMIT && 1 <= month <= 12 && 1 <= day <= 31
    ensures ClosedDays(year, month, day) == Some(ClosedFormula(year, month, day))
  {
    hide DayOfYear, EraDays;
    var y := if month <= 2 then year - 1 else year;
    var shifted := if month > 2 then month - 3 else month + 9;
    DayOfYearInRange(shifted, day);
    YearOfEra(y, (153 * shifted + 2) / 5 + day - 1);
  }

  lemma YearOfEra(y: int, doy: int)
    requires 0 <= y <= YEAR_LIMIT && 0 <= doy < 400
    ensures EraDays(y, doy) ==
            (var yoe := y - y / 400 * 400;
             Some(y / 400 * 146097 + (yoe * 365 + yoe / 4 - yoe / 100 + doy) - 719468))
  {
    var era := y / 400;
    var yoe := y - era * 400;
    assert 0 <= era <= 1_250_000_000 && 0 <= yoe < 400;
    assert 0 <= yoe / 100 <= yoe / 4 <= 100;
  }

  lemma FormulaIsDayNumber(year: int, month: int, day: int)
    requires 1 <= year && 1 <= month <= 12
    ensures ClosedFormula(year, month, day) == DayNumber(year, month, day)
  {
    hide DaysThrough, MonthDays;
    EraFormula(if month <= 2 then year - 1 else year);
    DaysThroughStep(year);
    ShiftedMonths(year, month);
  }

  lemma ClosedIsDayNumber(year: int, month: int, day: int)
    requires 1 <= year <= YEAR_LIMIT && 1 <= month <= 12 && 1 <= day <= 31
    ensures ClosedDays(year, month, day) == Some(DayNumber(year, month, day))
  {
    NoOverflow(year, month, day);
    FormulaIsDayNumber(year, month, day);
  }

  lemma ShiftedMonths(year: int, month: int)
    requires 1 <= month <= 12
    ensures month > 2 ==>
              (153 * (month - 3) + 2) / 5 - 719468 + YearLength(year) == MonthDays(year, month - 1) - DaysThrough(1969)
    ensures month <= 2 ==>
              (153 * (month + 9) + 2) / 5 - 719468 == MonthDays(year, month - 1) - DaysThrough(1969)
  {
    MonthDaysUnfold(year);
  }

  /** The fast form is the slow form, for every year from 1970, month and day 1..31: 30 February
      included, which neither rejects. */
  lemma ClosedFormIsCount(year: int, month: int, day: int)
    requires 1970 <= year <= YEAR_LIMIT && 1 <= month <= 12 && 1 <= day <= 31
    ensures ClosedDays(year, month, day).Some?
    ensures ClosedDays(year, month, day) == CountedDays(year, month, day)
    ensures ClosedDays(year, month, day).value >= 0
  {
    ClosedIsDayNumber(year, month, day);
    CountedIsDayNumber(year, month, day);
    YearDaysNonNegative(year);
    MonthDaysUnfold(year);
  }

  lemma {:induction false} YearDaysNonNegative(year: int)
    ensures YearDays(year) >= 0
    decreases year - 1970
  {
    if year > 1970 {
      YearDaysNonNegative(year - 1);
    }
  }

  /** Months and days that leave the closed form within u64 and i64; the parser checks neither. */
  const FIELD_LIMIT: int := 10_000_000_000_000_000

  /** The closed form underflows exactly in the months up to February of year 0 and on day 0 of March. */
  lemma UnderflowIff(year: int, month: int, day: int)
    requires 0 <= year <= YEAR_LIMIT && 0 <= month <= FIELD_LIMIT && 0 <= day <= FIELD_LIMIT
    ensures ClosedDays(year, month, day).None? <==> (year == 0 && month <= 2) || (day == 0 && month == 3)
  {
    hide EraDays, DayOfYear;
    if !(year == 0 && month <= 2) {
      var y := if month <= 2 then year - 1 else year;
      var shifted := if month > 2 then month - 3 else month + 9;
      DayOfYearUnderflow(shifted, day);
      if !(day == 0 && shifted == 0) {
        EraDaysFit(y, DayOfYear(shifted, day).value);
      }
    }
  }

  lemma DayOfYearUnderflow(shifted: int, day: int)
    requires 0 <= shifted <= FIELD_LIMIT + 9 && 0 <= day <= FIELD_LIMIT
    ensures DayOfYear(shifted, day).None? <==> shifted == 0 && day == 0
    ensures DayOfYear(shifted, day).Some? ==> 0 <= DayOfYear(shifted, day).value <= 40 * FIELD_LIMIT
  {
    assert (153 * shifted + 2) / 5 >= 1 <==> shifted != 0;
    assert 0 <= (153 * shifted + 2) / 5 <= 31 * FIELD_LIMIT + 300;
  }

  lemma EraDaysFit(y: int, doy: int)
    requires 0 <= y <= YEAR_LIMIT && 0 <= doy <= 40 * FIELD_LIMIT
    ensures EraDays(y, doy).Some?
  {
    var era := y / 400;
    var yoe := y - era * 400;
    assert 0 <= era <= 1_250_000_000 && 0 <= yoe < 400;
    assert 0 <= yoe / 100 <= yoe / 4 <= 100;
  }

  // -------------------------------------------------------------------------
  // The day count is the calendar.
  // -------------------------------------------------------------------------

  function Days(d: Date): int
    requires ValidDate(d)
  {
    DayNumber(d.year, d.month, d.day)
  }

  /** 1970-01-01 is day 0 and every date is followed by the day with the next number. */
  lemma NextDateIsNextDay(d: Date)
    requires ValidDate(d)
    ensures Days(NextDate(d)) == Days(d) + 1
    ensures Days(Date(1970, 1, 1)) == 0
  {
    hide MonthDays, DaysThrough;
    MonthDaysUnfold(d.year);
    MonthDaysUnfold(d.year + 1);
    MonthDaysUnfold(1970);
    DaysThroughStep(d.year);
  }

  lemma WithinYear(d: Date)
    requires ValidDate(d)
    ensures 0 <= MonthDays(d.year, d.month - 1) + d.day - 1 < YearLength(d.year)
  {
    MonthDaysUnfold(d.year);
  }

  lemma {:induction false} DaysThroughMonotone(a: int, b: int)
    requires a <= b
    ensures DaysThrough(a) <= DaysThrough(b)
    decreases b - a
  {
    if a < b {
      DaysThroughMonotone(a, b - 1);
      DaysThroughStep(b);
    }
  }

  lemma MonthsMonotone(y: int, m: int, n: int)
    requires 1 <= m < n <= 12
    ensures MonthDays(y, m - 1) + MonthLength(y, m) <= MonthDays(y, n - 1)
  {
    MonthDaysUnfold(y);
  }

  lemma EarlierHasSmallerDay(a: Date, b: Date)
    requires ValidDate(a) && ValidDate(b) && Earlier(a, b)
    ensures Days(a) < Days(b)
  {
    hide DaysThrough, MonthDays;
    if a.year < b.year {
      WithinYear(a);
      WithinYear(b);
      DaysThroughStep(a.year);
      DaysThroughMonotone(a.year, b.year - 1);
    } else if a.month < b.month {
      MonthsMonotone(a.year, a.month, b.month);
    }
  }

  /** Day numbers order dates as the calendar does, and tell all of them apart. */
  lemma DaysOrderDates(a: Date, b: Date)
    requires ValidDate(a) && ValidDate(b)
    ensures Days(a) < Days(b) <==> Earlier(a, b)
    ensures Days(a) == Days(b) <==> a == b
  {
    if Earlier(a, b) {
      EarlierHasSmallerDay(a, b);
    } else if Earlier(b, a) {
      EarlierHasSmallerDay(b, a);
    }
  }

  /** The date n days after 1970-01-01, by walking the calendar. */
  function DateAfter(n: nat): (d: Date)
    ensures ValidDate(d)
  {
    if n == 0 then Date(1970, 1, 1) else NextDate(DateAfter(n - 1))
  }

  /** No day number is skipped: the count is a bijection from the dates since 1970 to the naturals. */
  lemma {:induction false} EveryDayHasItsDate(n: nat)
    ensures Days(DateAfter(n)) == n && DateAfter(n).year >= 1970
  {
    if n == 0 {
      NextDateIsNextDay(Date(1970, 1, 1));
    } else {
      EveryDayHasItsDate(n - 1);
      NextDateIsNextDay(DateAfter(n - 1));
    }
  }

  lemma DateAfterDays(d: Date)
    requires ValidDate(d) && d.year >= 1970
    ensures Days(d) >= 0 && DateAfter(Days(d)) == d
  {
    YearDaysFormula(d.year);
    YearDaysNonNegative(d.year);
    WithinYear(d);
    EveryDayHasItsDate(Days(d));
    DaysOrderDates(DateAfter(Days(d)), d);
  }
}
