/** The two format checks of the wizard: `datetime.strptime(s, '%Y-%m-%d')`
    and `datetime.strptime(s, '%H:%M')`. Each is modelled as a parser that
    returns the value it denotes, or None where Python raises ValueError.
    The field recognisers follow the per-directive patterns of CPython's
    `_strptime` module, which accept one-digit months, days, hours and
    minutes, and a space-padded one-digit day. */
module Strptime {

  datatype Option<T> = None | Some(value: T)

  datatype CalendarDate = CalendarDate(year: int, month: int, day: int)

  datatype ClockTime = ClockTime(hour: int, minute: int)

  /* ---------- digits and canonical spellings ---------- */

  /** An ASCII decimal digit. */
  predicate IsDigit(c: char) {
    '0' <= c <= '9'
  }

  function DigitValue(c: char): (v: nat)
    requires IsDigit(c)
    ensures v <= 9
  {
    c as int - '0' as int
  }

  function DigitChar(v: nat): (c: char)
    requires v <= 9
    ensures IsDigit(c) && DigitValue(c) == v
  {
    ('0' as int + v) as char
  }

  /** `v` written with exactly two digits, zero-padded. */
  function Pad2(v: nat): string
    requires v < 100
  {
    [DigitChar(v / 10), DigitChar(v % 10)]
  }

  /** `v` written with exactly four digits, zero-padded. */
  function Pad4(v: nat): string
    requires v < 10000
  {
    Pad2(v / 100) + Pad2(v % 100)
  }

  /** A spelling of `v` that a strptime field of at most two digits accepts:
      zero-padded to two digits, or a single digit. */
  ghost predicate SpellsNumber(f: string, v: nat) {
    v < 100 && (f == Pad2(v) || (v < 10 && f == [DigitChar(v)]))
  }

  /** The day field additionally accepts a space followed by one digit. */
  ghost predicate SpellsDay(f: string, v: nat) {
    SpellsNumber(f, v) || (v < 10 && f == [' ', DigitChar(v)])
  }

  lemma OneDigitSpelling(f: string)
    requires |f| == 1 && IsDigit(f[0])
    ensures f == [DigitChar(DigitValue(f[0]))]
  {
  }

  lemma TwoDigitSpelling(f: string)
    requires |f| == 2 && IsDigit(f[0]) && IsDigit(f[1])
    ensures f == Pad2(10 * DigitValue(f[0]) + DigitValue(f[1]))
  {
    var v := 10 * DigitValue(f[0]) + DigitValue(f[1]);
    assert v / 10 == DigitValue(f[0]) && v % 10 == DigitValue(f[1]);
  }

  /* ---------- field recognisers, one per directive ---------- */

  /** %Y: exactly four digits. */
  function YearField(f: string): Option<nat> {
    if |f| == 4 && IsDigit(f[0]) && IsDigit(f[1]) && IsDigit(f[2]) && IsDigit(f[3]) then
      Some(1000 * DigitValue(f[0]) + 100 * DigitValue(f[1]) + 10 * DigitValue(f[2]) + DigitValue(f[3]))
    else
      None
  }

  /** %m: `1[0-2]|0[1-9]|[1-9]`. */
  function MonthField(f: string): Option<nat> {
    if |f| == 2 && f[0] == '1' && '0' <= f[1] <= '2' then Some(10 + DigitValue(f[1]))
    else if |f| == 2 && f[0] == '0' && '1' <= f[1] <= '9' then Some(DigitValue(f[1]))
    else if |f| == 1 && '1' <= f[0] <= '9' then Some(DigitValue(f[0]))
    else None
  }

  /** %d: `3[01]|[12]\d|0[1-9]|[1-9]| [1-9]`. */
  function DayField(f: string): Option<nat> {
    if |f| == 2 && f[0] == '3' && '0' <= f[1] <= '1' then Some(30 + DigitValue(f[1]))
    else if |f| == 2 && '1' <= f[0] <= '2' && IsDigit(f[1]) then Some(10 * DigitValue(f[0]) + DigitValue(f[1]))
    else if |f| == 2 && f[0] == '0' && '1' <= f[1] <= '9' then Some(DigitValue(f[1]))
    else if |f| == 1 && '1' <= f[0] <= '9' then Some(DigitValue(f[0]))
    else if |f| == 2 && f[0] == ' ' && '1' <= f[1] <= '9' then Some(DigitValue(f[1]))
    else None
  }

  /** %H: `2[0-3]|[0-1]\d|\d`. */
  function HourField(f: string): Option<nat> {
    if |f| == 2 && f[0] == '2' && '0' <= f[1] <= '3' then Some(20 + DigitValue(f[1]))
    else if |f| == 2 && '0' <= f[0] <= '1' && IsDigit(f[1]) then Some(10 * DigitValue(f[0]) + DigitValue(f[1]))
    else if |f| == 1 && IsDigit(f[0]) then Some(DigitValue(f[0]))
    else None
  }

  /** %M: `[0-5]\d|\d`. */
  function MinuteField(f: string): Option<nat> {
    if |f| == 2 && '0' <= f[0] <= '5' && IsDigit(f[1]) then Some(10 * DigitValue(f[0]) + DigitValue(f[1]))
    else if |f| == 1 && IsDigit(f[0]) then Some(DigitValue(f[0]))
    else None
  }

  /** The year field reads exactly the four-digit zero-padded spellings. */
  lemma YearFieldExact(f: string, v: nat)
    ensures YearField(f) == Some(v) <==> v < 10000 && f == Pad4(v)
  {
    if YearField(f) == Some(v) {
      var hi, lo := 10 * DigitValue(f[0]) + DigitValue(f[1]), 10 * DigitValue(f[2]) + DigitValue(f[3]);
      TwoDigitSpelling(f[..2]);
      TwoDigitSpelling(f[2..]);
      assert v == 100 * hi + lo;
      assert v / 100 == hi && v % 100 == lo;
      assert f == f[..2] + f[2..];
    }
    if v < 10000 && f == Pad4(v) {
      assert f[..2] == Pad2(v / 100) && f[2..] == Pad2(v % 100);
      assert 100 * (v / 100) + v % 100 == v;
    }
  }

  /** The month field reads exactly the one- and two-digit spellings of 1..12. */
  lemma MonthFieldExact(f: string, v: nat)
    ensures MonthField(f) == Some(v) <==> 1 <= v <= 12 && SpellsNumber(f, v)
  {
    if MonthField(f) == Some(v) {
      if |f| == 2 {
        TwoDigitSpelling(f);
      } else {
        OneDigitSpelling(f);
      }
    }
  }

  /** The day field reads exactly the one- and two-digit spellings of 1..31
      and the space-padded spellings of 1..9. */
  lemma DayFieldExact(f: string, v: nat)
    ensures DayField(f) == Some(v) <==> 1 <= v <= 31 && SpellsDay(f, v)
  {
    if DayField(f) == Some(v) {
      if |f| == 2 && f[0] != ' ' {
        TwoDigitSpelling(f);
      } else if |f| == 1 {
        OneDigitSpelling(f);
      } else {
        assert f == [' ', f[1]];
      }
    }
  }

  /** The hour field reads exactly the one- and two-digit spellings of 0..23. */
  lemma HourFieldExact(f: string, v: nat)
    ensures HourField(f) == Some(v) <==> v <= 23 && SpellsNumber(f, v)
  {
    if HourField(f) == Some(v) {
      if |f| == 2 {
        TwoDigitSpelling(f);
      } else {
        OneDigitSpelling(f);
      }
    }
  }

  /** The minute field reads exactly the one- and two-digit spellings of 0..59. */
  lemma MinuteFieldExact(f: string, v: nat)
    ensures MinuteField(f) == Some(v) <==> v <= 59 && SpellsNumber(f, v)
  {
    if MinuteField(f) == Some(v) {
      if |f| == 2 {
        TwoDigitSpelling(f);
      } else {
        OneDigitSpelling(f);
      }
    }
  }

  /* ---------- the Gregorian calendar ---------- */

  predicate IsLeapYear(y: int) {
    y % 4 == 0 && (y % 100 != 0 || y % 400 == 0)
  }

  /** Length of month `m` of year `y`, as Python's `datetime` computes it. */
  function DaysInMonth(y: int, m: int): (n: int)
    requires 1 <= m <= 12
    ensures 28 <= n <= 31
    ensures n == 28 <==> m == 2 && !IsLeapYear(y)
    ensures n == 29 <==> m == 2 && IsLeapYear(y)
    ensures n == 31 <==> m in {1, 3, 5, 7, 8, 10, 12}
  {
    [31, 28, 31, 30, 31, 30, 31, 31, 30, 31, 30, 31][m - 1] + (if m == 2 && IsLeapYear(y) then 1 else 0)
  }

  /** A date `datetime.date` accepts whose year has four digits. */
  predicate IsCalendarDate(d: CalendarDate) {
    1 <= d.year <= 9999 && 1 <= d.month <= 12 && 1 <= d.day <= DaysInMonth(d.year, d.month)
  }

  predicate IsClockTime(t: ClockTime) {
    0 <= t.hour <= 23 && 0 <= t.minute <= 59
  }

  /* ---------- whole formats ---------- */

  /** `s` is an accepted spelling of `d` under '%Y-%m-%d'. */
  ghost predicate SpellsDate(s: string, d: CalendarDate) {
    && 0 <= d.year < 10000 && 0 <= d.month && 0 <= d.day
    && exists m: string, dd: string ::
         SpellsNumber(m, d.month) && SpellsDay(dd, d.day) && s == Pad4(d.year) + "-" + m + "-" + dd
  }

  /** `s` is an accepted spelling of `t` under '%H:%M'. */
  ghost predicate SpellsTime(s: string, t: ClockTime) {
    && 0 <= t.hour && 0 <= t.minute
    && exists hh: string, mm: string ::
         SpellsNumber(hh, t.hour) && SpellsNumber(mm, t.minute) && s == hh + ":" + mm
  }

  /** Where the separator after a field of one or two characters sits in `s`,
      or 0 if neither position holds `sep`. */
  function SplitAt(s: string, sep: char): (cut: nat)
    ensures cut <= 2 && (cut > 0 ==> cut < |s| && s[cut] == sep)
  {
    if |s| >= 2 && s[1] == sep then 1
    else if |s| >= 3 && s[2] == sep then 2
    else 0
  }

  /** `datetime.strptime(s, '%Y-%m-%d')`: the date `s` denotes, or None where
      Python raises ValueError (no match, unconverted trailing text, or a day
      past the end of its month, or year 0). */
  function ParseDate(s: string): (r: Option<CalendarDate>)
    ensures r.Some? ==> IsCalendarDate(r.value)
  {
    if |s| < 5 || s[4] != '-' then None
    else
      var rest := s[5..];
      var cut := SplitAt(rest, '-');
      if cut == 0 then None
      else
        match (YearField(s[..4]), MonthField(rest[..cut]), DayField(rest[cut + 1..]))
        case (Some(y), Some(m), Some(d)) =>
          MonthFieldExact(rest[..cut], m);
          DayFieldExact(rest[cut + 1..], d);
          if 1 <= y && d <= DaysInMonth(y, m) then Some(CalendarDate(y, m, d)) else None
        case _ => None
  }

  /** `datetime.strptime(s, '%H:%M')`: the time `s` denotes, or None where
      Python raises ValueError. */
  function ParseTime(s: string): (r: Option<ClockTime>)
    ensures r.Some? ==> IsClockTime(r.value)
  {
    var cut := SplitAt(s, ':');
    if cut == 0 then None
    else
      match (HourField(s[..cut]), MinuteField(s[cut + 1..]))
      case (Some(h), Some(m)) =>
        HourFieldExact(s[..cut], h);
        MinuteFieldExact(s[cut + 1..], m);
        Some(ClockTime(h, m))
      case _ => None
  }

  /** The predicate the date step checks: strptime does not raise. */
  predicate ValidDate(s: string) {
    ParseDate(s).Some?
  }

  /** The predicate the time step checks: strptime does not raise. */
  predicate ValidTime(s: string) {
    ParseTime(s).Some?
  }

  /* ---------- the parsers against the spellings ---------- */

  lemma SpellingHasNoSeparator(f: string, v: nat, sep: char)
    requires SpellsDay(f, v) && !IsDigit(sep) && sep != ' '
    ensures 1 <= |f| <= 2 && f[0] != sep && f[|f| - 1] != sep
  {
  }

  lemma ParseDateSound(s: string)
    requires ParseDate(s).Some?
    ensures SpellsDate(s, ParseDate(s).value)
  {
    var d := ParseDate(s).value;
    var rest := s[5..];
    var cut := SplitAt(rest, '-');
    var m, dd := rest[..cut], rest[cut + 1..];
    YearFieldExact(s[..4], d.year);
    MonthFieldExact(m, d.month);
    DayFieldExact(dd, d.day);
    assert rest == m + "-" + dd;
    assert s == s[..4] + "-" + rest;
  }

  lemma ParseDateComplete(s: string, d: CalendarDate)
    requires IsCalendarDate(d) && SpellsDate(s, d)
    ensures ParseDate(s) == Some(d)
  {
    var m: string, dd: string :|
      SpellsNumber(m, d.month) && SpellsDay(dd, d.day) && s == Pad4(d.year) + "-" + m + "-" + dd;
    assert s[..4] == Pad4(d.year);
    assert s[4] == '-';
    var rest := s[5..];
    assert rest == m + "-" + dd;
    SpellingHasNoSeparator(m, d.month, '-');
    var cut := SplitAt(rest, '-');
    assert cut == |m|;
    assert rest[..cut] == m && rest[cut + 1..] == dd;
    YearFieldExact(s[..4], d.year);
    MonthFieldExact(m, d.month);
    DayFieldExact(dd, d.day);
  }

  /** The date check accepts exactly the spellings of real calendar dates,
      and reads each spelling as the date it spells. */
  lemma ParseDateExact(s: string, d: CalendarDate)
    ensures ParseDate(s) == Some(d) <==> IsCalendarDate(d) && SpellsDate(s, d)
  {
    if ParseDate(s) == Some(d) {
      ParseDateSound(s);
    }
    if IsCalendarDate(d) && SpellsDate(s, d) {
      ParseDateComplete(s, d);
    }
  }

  lemma ParseTimeSound(s: string)
    requires ParseTime(s).Some?
    ensures SpellsTime(s, ParseTime(s).value)
  {
    var t := ParseTime(s).value;
    var cut := SplitAt(s, ':');
    var hh, mm := s[..cut], s[cut + 1..];
    HourFieldExact(hh, t.hour);
    MinuteFieldExact(mm, t.minute);
    assert s == hh + ":" + mm;
  }

  lemma ParseTimeComplete(s: string, t: ClockTime)
    requires IsClockTime(t) && SpellsTime(s, t)
    ensures ParseTime(s) == Some(t)
  {
    var hh: string, mm: string :|
      SpellsNumber(hh, t.hour) && SpellsNumber(mm, t.minute) && s == hh + ":" + mm;
    SpellingHasNoSeparator(hh, t.hour, ':');
    var cut := SplitAt(s, ':');
    assert cut == |hh|;
    assert s[..cut] == hh && s[cut + 1..] == mm;
    HourFieldExact(hh, t.hour);
    MinuteFieldExact(mm, t.minute);
  }

  /** The time check accepts exactly the spellings of 24-hour clock times,
      and reads each spelling as the time it spells. */
  lemma ParseTimeExact(s: string, t: ClockTime)
    ensures ParseTime(s) == Some(t) <==> IsClockTime(t) && SpellsTime(s, t)
  {
    if ParseTime(s) == Some(t) {
      ParseTimeSound(s);
    }
    if IsClockTime(t) && SpellsTime(s, t) {
      ParseTimeComplete(s, t);
    }
  }

  /* ---------- canonical formatting ---------- */

  /** The ISO spelling `YYYY-MM-DD`. */
  function FormatDate(d: CalendarDate): string
    requires IsCalendarDate(d)
  {
    Pad4(d.year) + "-" + Pad2(d.month) + "-" + Pad2(d.day)
  }

  /** The spelling `HH:MM`. */
  function FormatTime(t: ClockTime): string
    requires IsClockTime(t)
  {
    Pad2(t.hour) + ":" + Pad2(t.minute)
  }

  /** Every calendar date, written as `YYYY-MM-DD`, passes the date check and
      reads back as itself. */
  lemma FormatDateRoundTrip(d: CalendarDate)
    requires IsCalendarDate(d)
    ensures ParseDate(FormatDate(d)) == Some(d)
  {
    assert SpellsNumber(Pad2(d.month), d.month) && SpellsDay(Pad2(d.day), d.day);
    ParseDateComplete(FormatDate(d), d);
  }

  /** Every clock time, written as `HH:MM`, passes the time check and reads
      back as itself. */
  lemma FormatTimeRoundTrip(t: ClockTime)
    requires IsClockTime(t)
    ensures ParseTime(FormatTime(t)) == Some(t)
  {
    assert SpellsNumber(Pad2(t.hour), t.hour) && SpellsNumber(Pad2(t.minute), t.minute);
    ParseTimeComplete(FormatTime(t), t);
  }

  /** Dates the check accepts in the strict ISO spelling, a leap day among
      them. */
  lemma AcceptedDateExamples()
    ensures ParseDate("2024-03-10") == Some(CalendarDate(2024, 3, 10))
    ensures ParseDate("2024-02-29") == Some(CalendarDate(2024, 2, 29))
  {
  }

  /** Dates the check accepts through the one-digit and space-padded
      leniencies. */
  lemma LenientDateExamples()
    ensures ParseDate("2024-3-5") == Some(CalendarDate(2024, 3, 5))
    ensures ParseDate("2024-03- 5") == Some(CalendarDate(2024, 3, 5))
  {
  }

  /** Dates the check rejects. */
  lemma RejectedDateExamples()
    ensures !ValidDate("10 March") && !ValidDate("2023-02-29") && !ValidDate("0000-01-01")
    ensures !ValidDate("2024-04-31") && !ValidDate("2024-03-10 ")
  {
  }

  /** Times the check accepts and rejects. */
  lemma TimeExamples()
    ensures ParseTime("19:30") == Some(ClockTime(19, 30)) && ParseTime("7:05") == Some(ClockTime(7, 5))
    ensures !ValidTime("24:00") && !ValidTime("12:60") && !ValidTime("19:30:00") && !ValidTime("7 pm")
  {
  }
}
