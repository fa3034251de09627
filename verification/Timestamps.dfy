/** The two timestamp parsers: `parse_iso8601` of the GitHub connector splits on separators,
    `parse_rfc3339` of the mailing-list connector reads fixed columns and a UTC offset.
    Inputs are ASCII, so characters and bytes have the same positions. */
module Timestamps {
  import opened Wrappers
  import opened Calendar
  import opened TextSplit

  // -------------------------------------------------------------------------
  // Number parsing, as `str::parse` does it: an optional sign, then digits only.
  // -------------------------------------------------------------------------

  predicate IsDigit(c: char) { '0' <= c <= '9' }

  predicate AllDigits(s: string) {
    forall i :: 0 <= i < |s| ==> IsDigit(s[i])
  }

  function NumberOf(s: string): (n: nat)
    requires AllDigits(s)
  {
    if s == "" then 0 else NumberOf(s[..|s| - 1]) * 10 + (s[|s| - 1] as int - '0' as int)
  }

  function ParseU64(s: string): (r: Option<int>)
    ensures r.Some? ==> r.value >= 0
  {
    var digits := if s != "" && s[0] == '+' then s[1..] else s;
    if digits == "" || !AllDigits(digits) then None else U64(NumberOf(digits))
  }

  function ParseI64(s: string): Option<int> {
    var signed := s != "" && (s[0] == '+' || s[0] == '-');
    var digits := if signed then s[1..] else s;
    if digits == "" || !AllDigits(digits) then None
    else I64((if s[0] == '-' then -1 else 1) * NumberOf(digits))
  }

  // -------------------------------------------------------------------------
  // parse_iso8601
  // -------------------------------------------------------------------------

  /** filter_map(parse): pieces that are not numbers are dropped. */
  function Numbers(parts: seq<string>): (ns: seq<int>)
    ensures forall i :: 0 <= i < |ns| ==> ns[i] >= 0
  {
    if parts == [] then []
    else (if ParseU64(parts[0]).Some? then [ParseU64(parts[0]).value] else []) + Numbers(parts[1..])
  }

  /** Seconds since the epoch, 0 on a parse failure; None when an operation overflows. */
  function ParseIso8601(s: string): Option<int> {
    var parts := SplitOnce(TrimEnd(s, 'Z'), 'T');
    if parts.None? then Some(0)
    else
      var date := Numbers(Split(parts.value.0, '-'));
      var time := Numbers(Split(parts.value.1, ':'));
      if |date| != 3 || |time| != 3 then Some(0)
      else
        var days :- ClosedDays(date[0], date[1], date[2]);
        if days < 0 then Some(0)
        else
          var daySecs :- U64(days * 86400);
          var hourSecs :- U64(time[0] * 3600);
          var sum1 :- U64(daySecs + hourSecs);
          var minSecs :- U64(time[1] * 60);
          var sum2 :- U64(sum1 + minSecs);
          U64(sum2 + time[2])
  }

  // -------------------------------------------------------------------------
  // parse_rfc3339
  // -------------------------------------------------------------------------

  function DigitRun(s: string): (n: nat)
    ensures n <= |s|
  {
    if s == "" || !IsDigit(s[0]) then 0 else 1 + DigitRun(s[1..])
  }

  /** The offset in seconds that a suffix such as `.25+05:30` states; None when its digits do not parse. */
  function ParseOffset(suffix: string): Option<int> {
    var zone := if suffix != "" && suffix[0] == '.' then suffix[1 + DigitRun(suffix[1..])..] else suffix;
    if zone == "Z" || zone == "" then Some(0)
    else if zone[0] == '+' || zone[0] == '-' then
      if |zone| < 6 then Some(0)
      else
        var oh :- ParseI64(zone[1..3]);
        var om :- ParseI64(zone[4..6]);
        Some((if zone[0] == '-' then -1 else 1) * (oh * 3600 + om * 60))
    else Some(0)
  }

  function ParseRfc3339(s: string): Option<int> {
    if |s| < 19 then None
    else
      var year :- ParseI64(s[0..4]);
      var month :- ParseI64(s[5..7]);
      var day :- ParseI64(s[8..10]);
      var hour :- ParseI64(s[11..13]);
      var min :- ParseI64(s[14..16]);
      var sec :- ParseI64(s[17..19]);
      var offset :- ParseOffset(s[19..]);
      var days :- CountedDays(year, month, day);
      var secs := days * 86400 + hour * 3600 + min * 60 + sec - offset;
      if secs < 0 then None else Some(secs)
  }

  function ParseTimestamp(s: string): int {
    var r := ParseRfc3339(s);
    if r.Some? then r.value else 0
  }

  // -------------------------------------------------------------------------
  // Printed timestamps.
  // -------------------------------------------------------------------------

  function Digit(n: int): char
    requires 0 <= n < 10
  {
    '0' + n as char
  }

  function Two(n: int): string
    requires 0 <= n < 100
  {
    [Digit(n / 10), Digit(n % 10)]
  }

  function Four(n: int): string
    requires 0 <= n < 10000
  {
    Two(n / 100) + Two(n % 100)
  }

  datatype Instant = Instant(date: Date, hour: int, minute: int, second: int)

  /** Fields with printed forms, in the parsers' own ranges. */
  predicate Printable(t: Instant) {
    && 1970 <= t.date.year <= 9999 && 1 <= t.date.month <= 12 && 1 <= t.date.day <= 31
    && 0 <= t.hour < 100 && 0 <= t.minute < 100 && 0 <= t.second < 100
  }

  /** Fields with printed forms at all. */
  predicate InColumns(t: Instant) {
    && 0 <= t.date.year < 10000 && 0 <= t.date.month < 100 && 0 <= t.date.day < 100
    && 0 <= t.hour < 100 && 0 <= t.minute < 100 && 0 <= t.second < 100
  }

  function DateText(d: Date): string
    requires 0 <= d.year < 10000 && 0 <= d.month < 100 && 0 <= d.day < 100
  {
    Four(d.year) + "-" + Two(d.month) + "-" + Two(d.day)
  }

  function TimeText(t: Instant): string
    requires InColumns(t)
  {
    Two(t.hour) + ":" + Two(t.minute) + ":" + Two(t.second)
  }

  function Stamp(t: Instant): string
    requires InColumns(t)
  {
    DateText(t.date) + "T" + TimeText(t)
  }

  function Seconds(t: Instant): int
    requires 1 <= t.date.month <= 12
  {
    DayNumber(t.date.year, t.date.month, t.date.day) * 86400 + t.hour * 3600 + t.minute * 60 + t.second
  }

  lemma TwoIsNumber(n: int)
    requires 0 <= n < 100
    ensures AllDigits(Two(n)) && NumberOf(Two(n)) == n
  {
    var s := Two(n);
    assert s[..1] == [Digit(n / 10)];
    assert s[..1][..0] == "";
    assert NumberOf(s[..1]) == n / 10;
  }

  lemma FourIsNumber(n: int)
    requires 0 <= n < 10000
    ensures AllDigits(Four(n)) && NumberOf(Four(n)) == n
  {
    var s := Four(n);
    TwoIsNumber(n / 100);
    assert s[..3][..2] == Two(n / 100);
    assert s[..3][2] == Digit(n % 100 / 10);
    assert NumberOf(s[..3]) == n / 100 * 10 + n % 100 / 10;
    assert s[3] == Digit(n % 10) by { assert n % 100 % 10 == n % 10; }
  }

  lemma ParseDigits(s: string)
    requires s != "" && AllDigits(s) && NumberOf(s) < I64_LIMIT
    ensures ParseU64(s) == Some(NumberOf(s)) && ParseI64(s) == Some(NumberOf(s))
  {
  }

  lemma SplitThree(a: string, b: string, d: string, c: char)
    requires c !in a && c !in b && c !in d
    ensures Split(a + [c] + b + [c] + d, c) == [a, b, d]
  {
    hide Split;
    assert a + [c] + b + [c] + d == a + [c] + (b + [c] + d);
    SplitPiece(a, c, b + [c] + d);
    SplitPiece(b, c, d);
    SplitLast(d, c);
  }

  lemma NumbersOfThree(a: string, b: string, d: string)
    requires ParseU64(a).Some? && ParseU64(b).Some? && ParseU64(d).Some?
    ensures Numbers([a, b, d]) == [ParseU64(a).value, ParseU64(b).value, ParseU64(d).value]
  {
    hide ParseU64;
    assert [a, b, d][1..] == [b, d] && [b, d][1..] == [d] && [d][1..] == [];
    assert Numbers([]) == [];
    assert Numbers([d]) == [ParseU64(d).value];
    assert Numbers([b, d]) == [ParseU64(b).value, ParseU64(d).value];
  }

  predicate Small(s: string, n: int) {
    s != "" && AllDigits(s) && NumberOf(s) == n < I64_LIMIT
  }

  lemma ThreeNumbers(a: string, m: int, b: string, n: int, d: string, k: int, c: char)
    requires !IsDigit(c) && Small(a, m) && Small(b, n) && Small(d, k)
    ensures Numbers(Split(a + [c] + b + [c] + d, c)) == [m, n, k]
  {
    hide Split, Numbers;
    SplitThree(a, b, d, c);
    ParseDigits(a);
    ParseDigits(b);
    ParseDigits(d);
    NumbersOfThree(a, b, d);
  }

  lemma StampParts(t: Instant)
    requires InColumns(t)
    ensures SplitOnce(TrimEnd(Stamp(t) + "Z", 'Z'), 'T') == Some((DateText(t.date), TimeText(t)))
  {
    var s := Stamp(t) + "Z";
    assert s[..|s| - 1] == Stamp(t);
    assert Stamp(t)[|Stamp(t)| - 1] == Digit(t.second % 10);
    FourIsNumber(t.date.year);
    TwoIsNumber(t.date.month);
    TwoIsNumber(t.date.day);
    assert 'T' !in DateText(t.date);
    SplitOnceAt(DateText(t.date), 'T', TimeText(t));
  }

  lemma StampNumbers(t: Instant)
    requires InColumns(t)
    ensures Numbers(Split(DateText(t.date), '-')) == [t.date.year, t.date.month, t.date.day]
    ensures Numbers(Split(TimeText(t), ':')) == [t.hour, t.minute, t.second]
  {
    hide Split, Numbers, NumberOf;
    FourIsNumber(t.date.year);
    TwoIsNumber(t.date.month);
    TwoIsNumber(t.date.day);
    TwoIsNumber(t.hour);
    TwoIsNumber(t.minute);
    TwoIsNumber(t.second);
    ThreeNumbers(Four(t.date.year), t.date.year, Two(t.date.month), t.date.month, Two(t.date.day), t.date.day, '-');
    ThreeNumbers(Two(t.hour), t.hour, Two(t.minute), t.minute, Two(t.second), t.second, ':');
  }

  /** The GitHub parser on every printed UTC timestamp. */
  lemma Iso8601Parses(t: Instant)
    requires Printable(t)
    ensures ParseIso8601(Stamp(t) + "Z") == Some(Seconds(t))
  {
    hide Split, Numbers, SplitOnce, TrimEnd, ClosedDays, DayNumber, DateText, TimeText, Stamp;
    StampParts(t);
    StampNumbers(t);
    DaysBound(t.date);
  }

  lemma DaysBound(d: Date)
    requires 1970 <= d.year <= 9999 && 1 <= d.month <= 12 && 1 <= d.day <= 31
    ensures ClosedDays(d.year, d.month, d.day) == Some(DayNumber(d.year, d.month, d.day))
    ensures CountedDays(d.year, d.month, d.day) == Some(DayNumber(d.year, d.month, d.day))
    ensures 0 <= DayNumber(d.year, d.month, d.day) < 4_000_000
  {
    ClosedFormIsCount(d.year, d.month, d.day);
    ClosedIsDayNumber(d.year, d.month, d.day);
    MonthDaysUnfold(d.year);
    DaysThroughMonotone(d.year - 1, 9998);
  }

  /** The columns of a timestamp, whatever follows it. */
  lemma StampColumns(t: Instant, suffix: string)
    requires InColumns(t)
    ensures var s := Stamp(t) + suffix;
            && |s| >= 19
            && s[0..4] == Four(t.date.year) && s[5..7] == Two(t.date.month) && s[8..10] == Two(t.date.day)
            && s[11..13] == Two(t.hour) && s[14..16] == Two(t.minute) && s[17..19] == Two(t.second)
            && s[19..] == suffix
  {
  }

  lemma ColumnsParse(t: Instant)
    requires InColumns(t)
    ensures ParseI64(Four(t.date.year)) == Some(t.date.year)
    ensures ParseI64(Two(t.date.month)) == Some(t.date.month) && ParseI64(Two(t.date.day)) == Some(t.date.day)
    ensures ParseI64(Two(t.hour)) == Some(t.hour) && ParseI64(Two(t.minute)) == Some(t.minute)
    ensures ParseI64(Two(t.second)) == Some(t.second)
  {
    hide ParseI64, NumberOf;
    FourIsNumber(t.date.year);
    TwoIsNumber(t.date.month);
    TwoIsNumber(t.date.day);
    TwoIsNumber(t.hour);
    TwoIsNumber(t.minute);
    TwoIsNumber(t.second);
    ParseDigits(Four(t.date.year));
    ParseDigits(Two(t.date.month));
    ParseDigits(Two(t.date.day));
    ParseDigits(Two(t.hour));
    ParseDigits(Two(t.minute));
    ParseDigits(Two(t.second));
  }

  lemma Rfc3339Base(t: Instant, suffix: string)
    requires Printable(t) && ParseOffset(suffix).Some?
    ensures ParseRfc3339(Stamp(t) + suffix) ==
            if Seconds(t) < ParseOffset(suffix).value then None
            else Some(Seconds(t) - ParseOffset(suffix).value)
  {
    hide ParseI64, Stamp, Two, Four, ParseOffset, CountedDays, DayNumber;
    StampColumns(t, suffix);
    ColumnsParse(t);
    DaysBound(t.date);
  }

  datatype Zone = NoZone | Utc | Offset(ahead: bool, hours: int, minutes: int)

  predicate ValidZone(z: Zone) {
    z.Offset? ==> 0 <= z.hours < 100 && 0 <= z.minutes < 100
  }

  function ZoneText(z: Zone): string
    requires ValidZone(z)
  {
    match z
    case NoZone => ""
    case Utc => "Z"
    case Offset(ahead, h, m) => (if ahead then "+" else "-") + Two(h) + ":" + Two(m)
  }

  function ZoneSeconds(z: Zone): int {
    match z
    case Offset(ahead, h, m) => (if ahead then 1 else -1) * (h * 3600 + m * 60)
    case _ => 0
  }

  lemma {:induction false} DigitRunStops(fraction: string, r: string)
    requires AllDigits(fraction) && (r == "" || !IsDigit(r[0]))
    ensures DigitRun(fraction + r) == |fraction|
  {
    if fraction == "" {
      assert fraction + r == r;
    } else {
      DigitRunStops(fraction[1..], r);
      assert (fraction + r)[1..] == fraction[1..] + r;
    }
  }

  lemma ZoneParses(z: Zone)
    requires ValidZone(z)
    ensures ParseOffset(ZoneText(z)) == Some(ZoneSeconds(z))
  {
    if z.Offset? {
      var s := ZoneText(z);
      assert s[1..3] == Two(z.hours);
      assert s[4..6] == Two(z.minutes);
      TwoIsNumber(z.hours);
      TwoIsNumber(z.minutes);
      ParseDigits(Two(z.hours));
      ParseDigits(Two(z.minutes));
    }
  }

  /** The part of an offset that is left after a fraction. */
  lemma FractionSkipped(fraction: string, zone: string)
    requires AllDigits(fraction) && (zone == "" || (!IsDigit(zone[0]) && zone[0] != '.'))
    ensures ParseOffset("." + fraction + zone) == ParseOffset(zone)
  {
    var s := "." + fraction + zone;
    assert s[1..] == fraction + zone;
    DigitRunStops(fraction, zone);
    assert s[1 + |fraction|..] == zone;
    hide DigitRun, ParseI64;
  }

  /** The RFC 3339 parser (section 5.6): a fraction is ignored, an offset is subtracted, and the
      result is None exactly when the UTC time is before the epoch. */
  lemma Rfc3339Parses(t: Instant, fraction: Option<string>, z: Zone)
    requires Printable(t) && ValidZone(z) && (fraction.Some? ==> AllDigits(fraction.value))
    ensures var utc := Seconds(t) - ZoneSeconds(z);
            var text := Stamp(t) + (if fraction.Some? then "." + fraction.value + ZoneText(z) else ZoneText(z));
            && ParseRfc3339(text) == (if utc < 0 then None else Some(utc))
            && ParseTimestamp(text) == (if utc < 0 then 0 else utc)
  {
    ZoneParses(z);
    if fraction.Some? {
      FractionSkipped(fraction.value, ZoneText(z));
      Rfc3339Base(t, "." + fraction.value + ZoneText(z));
    } else {
      Rfc3339Base(t, ZoneText(z));
    }
  }

  /** Both parsers agree on every printed UTC timestamp. */
  lemma ParsersAgree(t: Instant)
    requires Printable(t)
    ensures ParseIso8601(Stamp(t) + "Z") == Some(ParseTimestamp(Stamp(t) + "Z")) == Some(Seconds(t))
    ensures Seconds(t) >= 0
  {
    Iso8601Parses(t);
    Rfc3339Parses(t, None, Utc);
    DaysBound(t.date);
  }

  // -------------------------------------------------------------------------
  // What does not parse.
  // -------------------------------------------------------------------------

  /** A sign is read in front of digits, a minus only for signed numbers; the value must fit. */
  lemma SignedNumbers(digits: string)
    requires digits != "" && AllDigits(digits)
    ensures ParseU64(digits) == ParseU64("+" + digits) ==
            if NumberOf(digits) < 0x1_0000_0000_0000_0000 then Some(NumberOf(digits)) else None
    ensures ParseU64("-" + digits) == None
    ensures ParseI64(digits) == ParseI64("+" + digits) ==
            if NumberOf(digits) < 0x8000_0000_0000_0000 then Some(NumberOf(digits)) else None
    ensures var n: int := NumberOf(digits);
            ParseI64("-" + digits) == if n <= 0x8000_0000_0000_0000 then Some(-n) else None
  {
    hide NumberOf;
    assert ("+" + digits)[1..] == digits && ("-" + digits)[1..] == digits;
    assert !AllDigits("-" + digits) by { assert !IsDigit(("-" + digits)[0]); }
  }

  /** Anything else is no number. */
  lemma NoNumber(s: string, i: nat)
    requires s == "" || s == "+" || s == "-" || (i < |s| && !IsDigit(s[i]) && (i > 0 || (s[0] != '+' && s[0] != '-')))
    ensures ParseU64(s) == None && ParseI64(s) == None
  {
    hide NumberOf;
    if s != "" && s != "+" && s != "-" && i > 0 {
      assert s[1..][i - 1] == s[i];
    }
  }

  /** The RFC 3339 parser gives no time exactly for a text that is too short, a column that is no
      number, a month or day that does not exist, an offset that does not parse, or a time before the
      epoch; `parse_timestamp` makes it 0. */
  lemma Rfc3339FailsIff(s: string)
    ensures ParseRfc3339(s).None? <==>
            |s| < 19 || ParseI64(s[0..4]).None? || ParseI64(s[5..7]).None? || ParseI64(s[8..10]).None?
            || ParseI64(s[11..13]).None? || ParseI64(s[14..16]).None? || ParseI64(s[17..19]).None?
            || ParseOffset(s[19..]).None?
            || !(1 <= ParseI64(s[5..7]).value <= 12) || !(1 <= ParseI64(s[8..10]).value <= 31)
            || (var year, month, day := ParseI64(s[0..4]).value, ParseI64(s[5..7]).value, ParseI64(s[8..10]).value;
                CountedDays(year, month, day).value * 86400 + ParseI64(s[11..13]).value * 3600
                  + ParseI64(s[14..16]).value * 60 + ParseI64(s[17..19]).value < ParseOffset(s[19..]).value)
    ensures ParseRfc3339(s).None? ==> ParseTimestamp(s) == 0
  {
    hide ParseI64, ParseOffset, YearDays, MonthDays;
  }

  /** A printed month or day that does not exist. */
  lemma NoSuchDate(t: Instant, suffix: string)
    requires InColumns(t) && (!(1 <= t.date.month <= 12) || !(1 <= t.date.day <= 31))
    ensures ParseRfc3339(Stamp(t) + suffix) == None && ParseTimestamp(Stamp(t) + suffix) == 0
  {
    hide ParseI64, Stamp, Two, Four, ParseOffset, CountedDays;
    StampColumns(t, suffix);
    ColumnsParse(t);
    Rfc3339FailsIff(Stamp(t) + suffix);
  }

  /** An offset of fewer than six characters, or one that starts with anything but a sign, is ignored. */
  lemma OffsetIgnored(zone: string)
    requires |zone| < 6 || (zone[0] != '+' && zone[0] != '-')
    requires zone == "" || zone[0] != '.'
    ensures ParseOffset(zone) == Some(0)
  {
  }

  lemma {:induction false} NoSplit(s: string, c: char)
    requires c !in s
    ensures SplitOnce(s, c) == None
  {
    if s != "" {
      NoSplit(s[1..], c);
    }
  }

  /** The GitHub parser makes 0 of a text without a `T`, and of one whose date or time does not have
      exactly three numbers between its separators. */
  lemma Iso8601FailsToZero(s: string, date: string, time: string)
    requires 'T' !in date
    ensures 'T' !in s ==> ParseIso8601(s) == Some(0)
    ensures (time == "" || time[|time| - 1] != 'Z') &&
            (|Numbers(Split(date, '-'))| != 3 || |Numbers(Split(time, ':'))| != 3) ==>
              ParseIso8601(date + ['T'] + time + "Z") == Some(0)
  {
    hide Split, Numbers, SplitOnce, ClosedDays;
    TrimEndKeeps(s, 'Z');
    if 'T' !in s {
      assert 'T' !in TrimEnd(s, 'Z');
      NoSplit(TrimEnd(s, 'Z'), 'T');
    }
    if time == "" || time[|time| - 1] != 'Z' {
      var whole := date + ['T'] + time;
      assert (whole + "Z")[..|whole|] == whole;
      assert whole[|whole| - 1] == if time == "" then 'T' else time[|time| - 1];
      assert TrimEnd(whole + "Z", 'Z') == TrimEnd(whole, 'Z') == whole;
      SplitOnceAt(date, 'T', time);
    }
  }

  /** And 0 of every printed date before the epoch, from year 1 on. */
  lemma BeforeEpochIsZero(t: Instant)
    requires InColumns(t) && 1 <= t.date.year < 1970 && 1 <= t.date.month <= 12 && 1 <= t.date.day <= 31
    ensures ParseIso8601(Stamp(t) + "Z") == Some(0)
  {
    hide Split, Numbers, SplitOnce, TrimEnd, ClosedDays, DateText, TimeText, Stamp, DayNumber;
    StampParts(t);
    StampNumbers(t);
    ClosedIsDayNumber(t.date.year, t.date.month, t.date.day);
    NegativeDay(t.date.year, t.date.month, t.date.day);
  }

  lemma NegativeDay(year: int, month: int, day: int)
    requires 1 <= year < 1970 && 1 <= month <= 12 && 1 <= day <= 31
    ensures DayNumber(year, month, day) < 0
  {
    MonthDaysUnfold(year);
    DaysThroughMonotone(year, 1969);
    DaysThroughStep(year);
    hide DaysThrough, MonthDays;
  }

  // -------------------------------------------------------------------------
  // Order.
  // -------------------------------------------------------------------------

  predicate ValidInstant(t: Instant) {
    Printable(t) && ValidDate(t.date) && t.hour < 24 && t.minute < 60 && t.second < 60
  }

  predicate Before(a: Instant, b: Instant) {
    Earlier(a.date, b.date) ||
    (a.date == b.date && (a.hour < b.hour || (a.hour == b.hour &&
     (a.minute < b.minute || (a.minute == b.minute && a.second < b.second)))))
  }

  /** Lexicographic order of strings. */
  predicate LexLess(s: string, t: string) {
    t != "" && (s == "" || s[0] < t[0] || (s[0] == t[0] && LexLess(s[1..], t[1..])))
  }

  lemma {:induction false} LexConcat(a: string, b: string, c: string, d: string)
    requires |a| == |c|
    ensures LexLess(a + b, c + d) <==> LexLess(a, c) || (a == c && LexLess(b, d))
  {
    if a == "" {
      assert a + b == b && c + d == d;
    } else {
      LexConcat(a[1..], b, c[1..], d);
      assert (a + b)[1..] == a[1..] + b && (c + d)[1..] == c[1..] + d;
      assert a == [a[0]] + a[1..] && c == [c[0]] + c[1..];
    }
  }

  lemma DigitOrder(m: int, n: int)
    requires 0 <= m < 10 && 0 <= n < 10
    ensures Digit(m) < Digit(n) <==> m < n
    ensures Digit(m) == Digit(n) <==> m == n
  {
    assert Digit(m) as int == 48 + m && Digit(n) as int == 48 + n;
  }

  lemma LexPair(a: char, b: char, c: char, d: char)
    ensures LexLess([a, b], [c, d]) <==> a < c || (a == c && b < d)
  {
    assert [b][1..] == "" && [d][1..] == "";
    assert LexLess([b], [d]) <==> b < d;
    assert [a, b][1..] == [b] && [c, d][1..] == [d];
  }

  lemma LexTwo(m: int, n: int)
    requires 0 <= m < 100 && 0 <= n < 100
    ensures LexLess(Two(m), Two(n)) <==> m < n
    ensures Two(m) == Two(n) <==> m == n
  {
    hide LexLess, Digit;
    LexPair(Digit(m / 10), Digit(m % 10), Digit(n / 10), Digit(n % 10));
    DigitOrder(m / 10, n / 10);
    DigitOrder(m % 10, n % 10);
    assert Two(m)[0] == Digit(m / 10) && Two(m)[1] == Digit(m % 10);
    assert Two(n)[0] == Digit(n / 10) && Two(n)[1] == Digit(n % 10);
  }

  lemma LexFour(m: int, n: int)
    requires 0 <= m < 10000 && 0 <= n < 10000
    ensures LexLess(Four(m), Four(n)) <==> m < n
    ensures Four(m) == Four(n) <==> m == n
  {
    LexConcat(Two(m / 100), Two(m % 100), Two(n / 100), Two(n % 100));
    LexTwo(m / 100, n / 100);
    LexTwo(m % 100, n % 100);
    FourIsNumber(m);
    FourIsNumber(n);
  }

  lemma LexTwoMore(sep: string, m: int, s: string, n: int, t: string)
    requires 0 <= m < 100 && 0 <= n < 100 && |sep| == 1
    ensures LexLess(sep + (Two(m) + s), sep + (Two(n) + t)) <==> m < n || (m == n && LexLess(s, t))
  {
    LexConcat(sep, Two(m) + s, sep, Two(n) + t);
    LexIrreflexive(sep);
    LexConcat(Two(m), s, Two(n), t);
    LexTwo(m, n);
  }

  lemma LexIrreflexive(s: string)
    ensures !LexLess(s, s)
  {
  }

  function Fields(t: Instant): string
    requires Printable(t)
  {
    Four(t.date.year) + ("-" + (Two(t.date.month) + ("-" + (Two(t.date.day) +
      ("T" + (Two(t.hour) + (":" + (Two(t.minute) + (":" + (Two(t.second) + ""))))))))))
  }

  lemma FieldsAreStamp(t: Instant)
    requires Printable(t)
    ensures Fields(t) == Stamp(t)
  {
  }

  lemma StampOrder(a: Instant, b: Instant)
    requires Printable(a) && Printable(b)
    ensures LexLess(Stamp(a), Stamp(b)) <==> Before(a, b)
  {
    FieldsAreStamp(a);
    FieldsAreStamp(b);
    hide LexLess, Two, Four;
    var s1 := ":" + (Two(a.second) + "");
    var t1 := ":" + (Two(b.second) + "");
    var s2 := ":" + (Two(a.minute) + s1);
    var t2 := ":" + (Two(b.minute) + t1);
    var s3 := "T" + (Two(a.hour) + s2);
    var t3 := "T" + (Two(b.hour) + t2);
    var s4 := "-" + (Two(a.date.day) + s3);
    var t4 := "-" + (Two(b.date.day) + t3);
    LexIrreflexive("");
    LexTwoMore(":", a.second, "", b.second, "");
    LexTwoMore(":", a.minute, s1, b.minute, t1);
    LexTwoMore("T", a.hour, s2, b.hour, t2);
    LexTwoMore("-", a.date.day, s3, b.date.day, t3);
    LexTwoMore("-", a.date.month, s4, b.date.month, t4);
    LexFour(a.date.year, b.date.year);
    assert |Four(a.date.year)| == |Four(b.date.year)| by { FourLength(a.date.year); FourLength(b.date.year); }
    LexConcat(Four(a.date.year), "-" + (Two(a.date.month) + s4), Four(b.date.year), "-" + (Two(b.date.month) + t4));
  }

  lemma FourLength(n: int)
    requires 0 <= n < 10000
    ensures |Four(n)| == 4
  {
  }

  lemma SecondsOrder(a: Instant, b: Instant)
    requires ValidInstant(a) && ValidInstant(b) && Before(a, b)
    ensures Seconds(a) < Seconds(b)
  {
    hide DayNumber;
    DaysOrderDates(a.date, b.date);
  }

  /** For valid times, parsed seconds, date-time order and the order of the texts are the same. */
  lemma TimestampsCompareAsText(a: Instant, b: Instant)
    requires ValidInstant(a) && ValidInstant(b)
    ensures ParseTimestamp(Stamp(a) + "Z") < ParseTimestamp(Stamp(b) + "Z") <==> Before(a, b)
    ensures LexLess(Stamp(a), Stamp(b)) <==> Before(a, b)
    ensures ParseTimestamp(Stamp(a) + "Z") == ParseTimestamp(Stamp(b) + "Z") <==> a == b
  {
    ParsersAgree(a);
    ParsersAgree(b);
    StampOrder(a, b);
    if Before(a, b) {
      SecondsOrder(a, b);
    } else if a != b {
      SecondsOrder(b, a);
    }
  }
}
