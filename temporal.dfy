/** The part of the ECMAScript Temporal API the scraper uses: ISO 8601 calendar
    dates (`Temporal.PlainDate`) in the proleptic Gregorian calendar, adding one
    day to them, wall-clock times (`Temporal.PlainTime`), their `toString()`
    forms, and reading them from strings (`from`). */
module Temporal {
  import opened Outcomes
  import opened Digits
  import opened Seqs

  /** A year, month and day, not necessarily a date. */
  datatype IsoDate = IsoDate(year: int, month: int, day: int)

  /** An hour, minute and second, not necessarily a time of day. */
  datatype IsoTime = IsoTime(hour: int, minute: int, second: int)

  // ---------------------------------------------------------------------
  // The proleptic Gregorian calendar

  predicate IsLeapYear(y: int) {
    y % 4 == 0 && (y % 100 != 0 || y % 400 == 0)
  }

  function DaysInYear(y: int): int {
    if IsLeapYear(y) then 366 else 365
  }

  function DaysInMonth(y: int, m: int): (n: int)
    requires 1 <= m <= 12
    ensures 28 <= n <= 31
  {
    if m == 2 then (if IsLeapYear(y) then 29 else 28)
    else if m == 4 || m == 6 || m == 9 || m == 11 then 30
    else 31
  }

  /** Days of year `y` before the first of month `m`. */
  function DaysBeforeMonth(y: int, m: int): int
    requires 1 <= m <= 12
  {
    var leap := if IsLeapYear(y) then 1 else 0;
    match m
    case 1 => 0
    case 2 => 31
    case 3 => 59 + leap
    case 4 => 90 + leap
    case 5 => 120 + leap
    case 6 => 151 + leap
    case 7 => 181 + leap
    case 8 => 212 + leap
    case 9 => 243 + leap
    case 10 => 273 + leap
    case 11 => 304 + leap
    case _ => 334 + leap
  }

  /** Days from 0000-01-01 to the first of January of year `y` (negative for
      years before 0): 365 per year plus one per leap year in between. */
  function DaysBeforeYear(y: int): int {
    365 * y + (y + 3) / 4 - (y + 99) / 100 + (y + 399) / 400
  }

  /** Days from 0000-01-01 to 1970-01-01. */
  const UnixEpochOffset: int := 719528

  /** A month and a day that exist in the ISO calendar (any year). */
  predicate IsIsoDate(d: IsoDate) {
    1 <= d.month <= 12 && 1 <= d.day <= DaysInMonth(d.year, d.month)
  }

  /** Days since 1970-01-01, negative before it. */
  function EpochDay(d: IsoDate): int
    requires IsIsoDate(d)
  {
    DaysBeforeYear(d.year) + DaysBeforeMonth(d.year, d.month) + d.day - 1 - UnixEpochOffset
  }

  /** Temporal's limits on a PlainDate: -271821-04-19 through +275760-09-13,
      one day either side of 10^8 days from the Unix epoch. */
  const MinEpochDay: int := -100_000_001
  const MaxEpochDay: int := 100_000_000

  /** The last date Temporal accepts, +275760-09-13 (epoch day `MaxEpochDay`). */
  const LastDay: IsoDate := IsoDate(275760, 9, 13)

  /** A value `Temporal.PlainDate` can hold. */
  predicate IsValidDate(d: IsoDate) {
    IsIsoDate(d) && MinEpochDay <= EpochDay(d) <= MaxEpochDay
  }

  /** A value `Temporal.PlainTime` can hold, to whole seconds. */
  predicate IsValidTime(t: IsoTime) {
    0 <= t.hour <= 23 && 0 <= t.minute <= 59 && 0 <= t.second <= 59
  }

  /** A `Temporal.PlainDate` in the ISO 8601 calendar. */
  type PlainDate = d: IsoDate | IsValidDate(d) witness IsoDate(1970, 1, 1)

  /** A `Temporal.PlainTime` without fractional seconds. */
  type PlainTime = t: IsoTime | IsValidTime(t) witness IsoTime(0, 0, 0)

  /** Calendar order: earlier year, or same year and earlier month, or same
      month and earlier day. */
  predicate Before(a: IsoDate, b: IsoDate) {
    a.year < b.year
    || (a.year == b.year && a.month < b.month)
    || (a.year == b.year && a.month == b.month && a.day < b.day)
  }

  /** `(y + k - 1) / k` counts the multiples of `k` below `y` (from 0); moving
      to `y + 1` adds one exactly when `y` itself is a multiple. */
  lemma MultiplesStep4(y: int)
    ensures (y + 4) / 4 == (y + 3) / 4 + (if y % 4 == 0 then 1 else 0)
  {
  }

  lemma MultiplesStep100(y: int)
    ensures (y + 100) / 100 == (y + 99) / 100 + (if y % 100 == 0 then 1 else 0)
  {
  }

  lemma MultiplesStep400(y: int)
    ensures (y + 400) / 400 == (y + 399) / 400 + (if y % 400 == 0 then 1 else 0)
  {
  }

  /** A multiple of 400 is a multiple of 100, which is a multiple of 4. */
  lemma DivisibilityChain(y: int)
    ensures y % 400 == 0 ==> y % 100 == 0
    ensures y % 100 == 0 ==> y % 4 == 0
  {
    if y % 400 == 0 {
      MultipleOf100(4 * (y / 400));
    }
    if y % 100 == 0 {
      MultipleOf4(25 * (y / 100));
    }
  }

  lemma MultipleOf100(k: int)
    ensures (100 * k) % 100 == 0
  {
  }

  lemma MultipleOf4(k: int)
    ensures (4 * k) % 4 == 0
  {
  }

  lemma DaysBeforeYearStep(y: int)
    ensures DaysBeforeYear(y + 1) == DaysBeforeYear(y) + DaysInYear(y)
  {
    MultiplesStep4(y);
    MultiplesStep100(y);
    MultiplesStep400(y);
    DivisibilityChain(y);
  }

  lemma DaysBeforeMonthStep(y: int, m: int)
    requires 1 <= m <= 12
    ensures m < 12 ==> DaysBeforeMonth(y, m + 1) == DaysBeforeMonth(y, m) + DaysInMonth(y, m)
    ensures m == 12 ==> DaysBeforeMonth(y, m) + DaysInMonth(y, m) == DaysInYear(y)
  {
  }

  /** Every year after `a` starts no earlier than the day after `a` ends. */
  lemma {:induction false} DaysBeforeYearMonotone(a: int, b: int)
    requires a < b
    ensures DaysBeforeYear(a) + DaysInYear(a) <= DaysBeforeYear(b)
    decreases b - a
  {
    DaysBeforeYearStep(a);
    if a + 1 < b {
      DaysBeforeYearMonotone(a + 1, b);
    }
  }

  /** Within a year, the day number of a date lies in the year's range. */
  lemma DayOfYearBounds(d: IsoDate)
    requires IsIsoDate(d)
    ensures 0 <= DaysBeforeMonth(d.year, d.month) + d.day - 1 < DaysInYear(d.year)
  {
    DaysBeforeMonthMonotone(d.year, d.month, 12);
    DaysBeforeMonthStep(d.year, 12);
  }

  lemma {:induction false} DaysBeforeMonthMonotone(y: int, a: int, b: int)
    requires 1 <= a <= b <= 12
    ensures a < b ==> DaysBeforeMonth(y, a) + DaysInMonth(y, a) <= DaysBeforeMonth(y, b)
    decreases b - a
  {
    if a < b {
      DaysBeforeMonthStep(y, a);
      DaysBeforeMonthMonotone(y, a + 1, b);
    }
  }

  /** `EpochDay` is an order isomorphism: calendar order is the order of the day
      numbers, in both directions, and distinct dates have distinct numbers. */
  lemma EpochDayOrder(a: IsoDate, b: IsoDate)
    requires IsIsoDate(a) && IsIsoDate(b)
    ensures Before(a, b) <==> EpochDay(a) < EpochDay(b)
    ensures a == b <==> EpochDay(a) == EpochDay(b)
  {
    if Before(a, b) {
      EpochDayMonotone(a, b);
    } else if Before(b, a) {
      EpochDayMonotone(b, a);
    }
  }

  lemma EpochDayMonotone(a: IsoDate, b: IsoDate)
    requires IsIsoDate(a) && IsIsoDate(b) && Before(a, b)
    ensures EpochDay(a) < EpochDay(b)
  {
    DayOfYearBounds(a);
    DayOfYearBounds(b);
    if a.year < b.year {
      DaysBeforeYearMonotone(a.year, b.year);
    } else if a.month < b.month {
      DaysBeforeMonthMonotone(a.year, a.month, b.month);
    }
  }

  /** The calendar day after `d`, with no range limit. */
  function NextDay(d: IsoDate): (r: IsoDate)
    requires IsIsoDate(d)
    ensures IsIsoDate(r) && Before(d, r)
  {
    if d.day < DaysInMonth(d.year, d.month) then IsoDate(d.year, d.month, d.day + 1)
    else if d.month < 12 then IsoDate(d.year, d.month + 1, 1)
    else IsoDate(d.year + 1, 1, 1)
  }

  /** The next calendar day is one day number on. */
  lemma NextDaySteps(d: IsoDate)
    requires IsIsoDate(d)
    ensures EpochDay(NextDay(d)) == EpochDay(d) + 1
  {
    if d.day < DaysInMonth(d.year, d.month) {
    } else if d.month < 12 {
      DaysBeforeMonthStep(d.year, d.month);
    } else {
      DaysBeforeMonthStep(d.year, 12);
      DaysBeforeYearStep(d.year);
    }
  }

  /** `date.add({ days: 1 })`: the next calendar day, or a RangeError when that
      day is past Temporal's last representable date. */
  function AddOneDay(d: PlainDate): (r: Outcome<PlainDate>)
    ensures r.Failure? <==> EpochDay(d) == MaxEpochDay
    ensures r.Done? ==> EpochDay(r.value) == EpochDay(d) + 1
    ensures r.Done? ==> Before(d, r.value)
  {
    NextDaySteps(d);
    if IsValidDate(NextDay(d)) then Done(NextDay(d)) else Failure
  }

  /** No date lies strictly between a date and the day `AddOneDay` gives. */
  lemma AddOneDayIsNext(d: PlainDate, e: IsoDate)
    requires IsIsoDate(e) && AddOneDay(d).Done?
    ensures !(Before(d, e) && Before(e, AddOneDay(d).value))
  {
    EpochDayOrder(d, e);
    EpochDayOrder(e, AddOneDay(d).value);
  }

  /** The first and last dates Temporal accepts, and the Unix epoch. */
  lemma DateLimits()
    ensures EpochDay(IsoDate(1970, 1, 1)) == 0
    ensures IsValidDate(IsoDate(-271821, 4, 19)) && EpochDay(IsoDate(-271821, 4, 19)) == MinEpochDay
    ensures IsValidDate(IsoDate(275760, 9, 13)) && EpochDay(IsoDate(275760, 9, 13)) == MaxEpochDay
    ensures AddOneDay(IsoDate(275760, 9, 13)) == Failure
  {
  }

  /** A valid date's year lies between -271821 and 275760. */
  lemma YearRange(d: PlainDate)
    ensures -271821 <= d.year <= 275760
  {
    DayOfYearBounds(d);
  }

  // ---------------------------------------------------------------------
  // Text forms

  /** `toString()` of a year: four digits for years 0 through 9999, otherwise a
      sign and six digits. */
  function YearToString(y: int): (r: string)
    requires -1_000_000 < y < 1_000_000
    ensures |r| == 4 || |r| == 7
  {
    if 0 <= y <= 9999 then PadDigits(y, 4)
    else if y < 0 then "-" + PadDigits(-y, 6)
    else "+" + PadDigits(y, 6)
  }

  /** `PlainDate.prototype.toString()`: year, month and day joined by `-`,
      month and day as two digits. */
  function DateToString(d: PlainDate): (r: string)
    ensures ' ' !in r
  {
    YearRange(d);
    YearToString(d.year) + "-" + PadDigits(d.month, 2) + "-" + PadDigits(d.day, 2)
  }

  /** `PlainTime.prototype.toString()` for a time without fractional seconds:
      hour, minute and second as two digits each, joined by `:`. */
  function TimeToString(t: PlainTime): (r: string)
    ensures |r| == 8 && r[2] == ':' && r[5] == ':' && ' ' !in r
  {
    PadDigits(t.hour, 2) + ":" + PadDigits(t.minute, 2) + ":" + PadDigits(t.second, 2)
  }

  /** A year as an ISO 8601 date string writes it: four digits, or a sign and
      six digits where `-000000` is not allowed. */
  function ParseYear(s: string): (r: Option<int>)
    ensures r.Some? ==> |s| == 4 || |s| == 7
  {
    if |s| == 4 && AllDigits(s) then Some(ParseDigits(s).value)
    else if |s| == 7 && (s[0] == '+' || s[0] == '-') && AllDigits(s[1..]) then
      var n: int := ParseDigits(s[1..]).value;
      if s[0] == '-' && n == 0 then None
      else if s[0] == '-' then Some(-n) else Some(n)
    else None
  }

  /** `Temporal.PlainDate.from` on a date string of the form `YYYY-MM-DD` or
      `±YYYYYY-MM-DD`: a RangeError unless the string has that form and names a
      date that exists and lies within Temporal's limits. */
  function ParseDate(s: string): (r: Outcome<PlainDate>)
    ensures r.Done? ==> (|s| == 10 || |s| == 13) && s[|s| - 6] == '-' && s[|s| - 3] == '-'
    ensures r.Done? ==> AllDigits(s[|s| - 5..|s| - 3]) && AllDigits(s[|s| - 2..])
  {
    var n := |s|;
    if n < 10 || s[n - 6] != '-' || s[n - 3] != '-' then Failure
    else
      var year := ParseYear(s[..n - 6]);
      var month := ParseDigits(s[n - 5..n - 3]);
      var day := ParseDigits(s[n - 2..]);
      if year.None? || month.None? || day.None? then Failure
      else
        var d := IsoDate(year.value, month.value, day.value);
        if IsValidDate(d) then Done(d) else Failure
  }

  /** `Temporal.PlainTime.from` on a string of the form `HH:MM` or `HH:MM:SS`
      (the ISO 8601 extended time format without fractions, offsets or
      annotations): hours 00-23, minutes 00-59, seconds 00-60, where a leap
      second 60 is read as 59; anything else is a RangeError. */
  function ParseTime(s: string): (r: Outcome<PlainTime>)
    ensures r.Done? ==> (|s| == 5 || (|s| == 8 && s[5] == ':')) && s[2] == ':'
    ensures r.Done? ==> AllDigits(s[..2]) && AllDigits(s[3..5]) && (|s| == 8 ==> AllDigits(s[6..]))
  {
    if !(|s| == 5 || (|s| == 8 && s[5] == ':')) || s[2] != ':' then Failure
    else
      var hour := ParseDigits(s[..2]);
      var minute := ParseDigits(s[3..5]);
      var second := if |s| == 8 then ParseDigits(s[6..]) else Some(0);
      if hour.None? || minute.None? || second.None? then Failure
      else if hour.value > 23 || minute.value > 59 || second.value > 60 then Failure
      else Done(IsoTime(hour.value, minute.value, if second.value == 60 then 59 else second.value))
  }

  /** Reading back the text form of a year gives the year. */
  lemma YearRoundTrip(y: int)
    requires -1_000_000 < y < 1_000_000
    ensures ParseYear(YearToString(y)) == Some(y)
  {
    if 0 <= y <= 9999 {
      ParsePadDigits(y, 4);
    } else {
      SignedYearRoundTrip(y);
    }
  }

  /** The six-digit form with a sign reads back as the year. */
  lemma SignedYearRoundTrip(y: int)
    requires -1_000_000 < y < 1_000_000 && !(0 <= y <= 9999)
    ensures ParseYear(YearToString(y)) == Some(y)
  {
    var n := if y < 0 then -y else y;
    var sign := if y < 0 then '-' else '+';
    ParsePadDigits(n, 6);
    AppendHeadTail([sign], PadDigits(n, 6));
  }

  /** Where the year, month and day sit in the text form of a date. */
  lemma DateStringFields(d: PlainDate)
    ensures var s := DateToString(d); var n := |s|;
      && n >= 10 && s[n - 6] == '-' && s[n - 3] == '-'
      && s[..n - 6] == YearToString(d.year)
      && s[n - 5..n - 3] == PadDigits(d.month, 2)
      && s[n - 2..] == PadDigits(d.day, 2)
  {
    YearRange(d);
    var y := YearToString(d.year);
    var s := DateToString(d);
    assert s == y + "-" + PadDigits(d.month, 2) + "-" + PadDigits(d.day, 2);
  }

  /** Reading back the text form of a date gives the date. */
  lemma DateRoundTrip(d: PlainDate)
    ensures ParseDate(DateToString(d)) == Done(d)
  {
    YearRange(d);
    DateStringFields(d);
    YearRoundTrip(d.year);
    ParsePadDigits(d.month, 2);
    ParsePadDigits(d.day, 2);
  }

  /** For a four-digit year the text form of a date is `YYYY-MM-DD`. */
  lemma DateShape(d: PlainDate)
    requires 0 <= d.year <= 9999
    ensures var s := DateToString(d);
      && |s| == 10 && s[4] == '-' && s[7] == '-'
      && s[..4] == PadDigits(d.year, 4) && s[5..7] == PadDigits(d.month, 2) && s[8..] == PadDigits(d.day, 2)
  {
    var y, m, dd := PadDigits(d.year, 4), PadDigits(d.month, 2), PadDigits(d.day, 2);
    assert DateToString(d) == y + "-" + m + "-" + dd;
  }

  /** Where the hour, minute and second sit in the text form of a time. */
  lemma TimeShape(t: PlainTime)
    ensures var s := TimeToString(t);
      s[..2] == PadDigits(t.hour, 2) && s[3..5] == PadDigits(t.minute, 2) && s[6..] == PadDigits(t.second, 2)
  {
  }

  /** Reading back the text form of a time gives the time. */
  lemma TimeRoundTrip(t: PlainTime)
    ensures ParseTime(TimeToString(t)) == Done(t)
  {
    TimeShape(t);
    ParsePadDigits(t.hour, 2);
    ParsePadDigits(t.minute, 2);
    ParsePadDigits(t.second, 2);
  }

  /** A date read from the ten-character form `YYYY-MM-DD` prints as the same
      string; only the signed six-digit year form can print differently. */
  lemma ParseDateThenPrint(s: string)
    requires ParseDate(s).Done? && |s| == 10
    ensures DateToString(ParseDate(s).value) == s
  {
    var d := ParseDate(s).value;
    var y, m, dd := s[..4], s[5..7], s[8..];
    PadParseDigits(y);
    PadParseDigits(m);
    PadParseDigits(dd);
    DateShape(d);
    var t := DateToString(d);
    assert t[..4] == y && t[5..7] == m && t[8..] == dd;
    forall k | 0 <= k < 10 ensures t[k] == s[k] {
      if k < 4 { assert t[k] == t[..4][k]; assert s[k] == y[k]; }
      else if 5 <= k < 7 { assert t[k] == t[5..7][k - 5]; assert s[k] == m[k - 5]; }
      else if 8 <= k { assert t[k] == t[8..][k - 8]; assert s[k] == dd[k - 8]; }
    }
    assert t == s;
  }

  /** What a successful `ParseTime` read: the shape of the string and the
      numeral each field came from. */
  lemma ParsedTimeValues(s: string)
    requires ParseTime(s).Done?
    ensures var t := ParseTime(s).value;
      && (|s| == 5 || (|s| == 8 && s[5] == ':')) && s[2] == ':'
      && AllDigits(s[..2]) && t.hour == ParseDigits(s[..2]).value
      && AllDigits(s[3..5]) && t.minute == ParseDigits(s[3..5]).value
      && (|s| == 5 ==> t.second == 0)
      && (|s| == 8 ==> AllDigits(s[6..]) && ParseDigits(s[6..]).value <= 60)
      && (|s| == 8 ==> t.second == if ParseDigits(s[6..]).value == 60 then 59 else ParseDigits(s[6..]).value)
  {
  }

  /** The fields of a parsed time, written back as two digits, are the digit
      pairs they were read from (the second, unless it was the leap second). */
  lemma ParsedTimeFields(s: string)
    requires ParseTime(s).Done?
    ensures var t := ParseTime(s).value;
      && PadDigits(t.hour, 2) == s[..2]
      && PadDigits(t.minute, 2) == s[3..5]
      && (|s| == 8 && s[6..] != "60" ==> PadDigits(t.second, 2) == s[6..])
  {
    ParsedTimeValues(s);
    PadParseDigits(s[..2]);
    PadParseDigits(s[3..5]);
    if |s| == 8 {
      SecondsBack(s[6..]);
    }
  }

  /** Two digits read as a second of at most 60 and written back give the
      same digits, except for the leap second. */
  lemma SecondsBack(ss: string)
    requires |ss| == 2 && AllDigits(ss)
    ensures var n := ParseDigits(ss).value; n != 60 ==> PadDigits(n, 2) == ss
    ensures ss != "60" ==> ParseDigits(ss).value != 60
  {
    PadParseDigits(ss);
    LeapSecondDigits();
  }

  lemma LeapSecondDigits()
    ensures PadDigits(60, 2) == "60"
  {
    assert PadDigits(6, 1) == PadDigits(0, 0) + [DigitChar(6)] == "6";
    assert PadDigits(60, 2) == PadDigits(6, 1) + [DigitChar(0)];
  }

  /** A time read from a string prints with that string's first five
      characters: the hour, the colon and the minute. */
  lemma HourMinuteEcho(s: string)
    requires ParseTime(s).Done?
    ensures TimeToString(ParseTime(s).value)[..5] == s[..5]
  {
    var t := ParseTime(s).value;
    var p := TimeToString(t);
    ParsedTimeFields(s);
    TimeShape(t);
    assert p[..5] == p[..2] + [p[2]] + p[3..5];
    assert s[..5] == s[..2] + [s[2]] + s[3..5];
  }

  /** Every hour and minute written as two-digit numerals around a colon, the
      `HH:MM` form a schedule lists, reads as that time at second 0. */
  lemma HourMinuteReads(h: nat, m: nat)
    requires h <= 23 && m <= 59
    ensures ParseTime(PadDigits(h, 2) + ":" + PadDigits(m, 2)) == Done(IsoTime(h, m, 0))
  {
    var s := PadDigits(h, 2) + ":" + PadDigits(m, 2);
    assert s[..2] == PadDigits(h, 2);
    assert s[3..5] == PadDigits(m, 2);
    ParsePadDigits(h, 2);
    ParsePadDigits(m, 2);
  }

  /** The leap second: a time whose second is written `60` reads as the same
      time written with `59`. */
  lemma LeapSecondAsFiftyNine(p: string)
    requires |p| == 6
    ensures ParseTime(p + "60") == ParseTime(p + "59")
  {
    var a, b := p + "60", p + "59";
    assert a[..2] == p[..2] == b[..2] && a[3..5] == p[3..5] == b[3..5];
    assert a[2] == p[2] == b[2] && a[5] == p[5] == b[5];
    assert a[6..] == "60" && b[6..] == "59";
    assert ParseDigits("6") == Some(6) && ParseDigits("5") == Some(5);
    assert ParseDigits("60") == Some(60) && ParseDigits("59") == Some(59);
  }

  /** A time read from `HH:MM` prints as `HH:MM:00`, and one read from
      `HH:MM:SS` prints as the same string unless its second was the leap
      second 60. */
  lemma ParseTimeThenPrint(s: string)
    requires ParseTime(s).Done?
    ensures var r := TimeToString(ParseTime(s).value);
      (|s| == 5 ==> r == s + ":00") && (|s| == 8 && s[6..] != "60" ==> r == s)
  {
    var t := ParseTime(s).value;
    ParsedTimeFields(s);
    var hh, mm := s[..2], s[3..5];
    if |s| == 5 {
      assert t.second == 0;
      assert s == hh + ":" + mm;
      assert TimeToString(t) == hh + ":" + mm + ":" + "00";
    } else if s[6..] != "60" {
      assert s == hh + ":" + mm + ":" + s[6..];
      assert TimeToString(t) == hh + ":" + mm + ":" + s[6..];
    }
  }
}
