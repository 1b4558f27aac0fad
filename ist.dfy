/**
 * `to_ist`: parse a ThingSpeak `created_at` string with the format `%Y-%m-%dT%H:%M:%SZ`,
 * add the fixed India Standard Time offset of 5 h 30 min, and render the result with
 * `%d-%m-%y %I:%M:%S %p`.
 */
module Ist {
  import opened Base
  import opened Calendar
  import opened Feed

  /** The offset of India Standard Time from UTC, in seconds (5 h 30 min). */
  const OffsetSeconds := 5 * 3600 + 30 * 60

  predicate IsDigit(c: char) { '0' <= c <= '9' }

  function DigitValue(c: char): int
    requires IsDigit(c)
  {
    c as int - '0' as int
  }

  function DigitChar(n: int): (c: char)
    requires 0 <= n < 10
    ensures IsDigit(c) && DigitValue(c) == n
  {
    ('0' as int + n) as char
  }

  // ---------------------------------------------------------------------------
  // Parsing: datetime.strptime(s, "%Y-%m-%dT%H:%M:%SZ")
  // ---------------------------------------------------------------------------

  // strptime turns the format into a regular expression, matched case-insensitively
  // against the whole string.  Its field patterns are:
  //   %Y  four digits
  //   %m  1[0-2] | 0[1-9] | [1-9]              (one or two digits, 1..12)
  //   %d  3[01] | [12]\d | 0[1-9] | [1-9] | " "[1-9]   (one or two digits, 1..31, or space and digit)
  //   %H  2[0-3] | [0-1]\d | \d                (one or two digits, 0..23)
  //   %M  [0-5]\d | \d                         (one or two digits, 0..59)
  //   %S  6[0-1] | [0-5]\d | \d                (one or two digits, 0..61)
  // Every field is followed by a literal that is neither a digit nor a space, so each
  // field is exactly the text before the next separator, and each pattern above is the
  // set of one- or two-character digit strings whose value lies in the stated range
  // (plus " d" for the day).  Afterwards the datetime constructor rejects year 0,
  // seconds 60 and 61, and days past the end of the month.  Every failure is a ValueError.

  predicate IsDash(c: char) { c == '-' }
  predicate IsT(c: char) { c == 'T' || c == 't' }
  predicate IsColon(c: char) { c == ':' }
  predicate IsZ(c: char) { c == 'Z' || c == 'z' }

  /** The value of a one- or two-digit field. */
  function NumberField(tok: string): Option<int> {
    if |tok| == 1 && IsDigit(tok[0]) then Some(DigitValue(tok[0]))
    else if |tok| == 2 && IsDigit(tok[0]) && IsDigit(tok[1]) then Some(10 * DigitValue(tok[0]) + DigitValue(tok[1]))
    else None
  }

  /** The value of a `%d` field, which also admits a space before a single non-zero digit. */
  function DayField(tok: string): Option<int> {
    if |tok| == 2 && tok[0] == ' ' && '1' <= tok[1] <= '9' then Some(DigitValue(tok[1]))
    else NumberField(tok)
  }

  /** The value of a `%Y` field. */
  function YearField(tok: string): Option<int> {
    if |tok| == 4 && IsDigit(tok[0]) && IsDigit(tok[1]) && IsDigit(tok[2]) && IsDigit(tok[3])
    then Some(1000 * DigitValue(tok[0]) + 100 * DigitValue(tok[1]) + 10 * DigitValue(tok[2]) + DigitValue(tok[3]))
    else None
  }

  /** A field value in lo .. hi, or a ValueError. */
  function InRange(v: Option<int>, lo: int, hi: int): (r: Result<int>)
    ensures r.Ok? <==> v.Some? && lo <= v.value <= hi
    ensures r.Ok? ==> r.value == v.value
    ensures r.Err? ==> r.error == ValueError
  {
    if v.Some? && lo <= v.value <= hi then Ok(v.value) else Err(ValueError)
  }

  /**
   * The one- or two-character field at the front of `s` and the text after the separator
   * that ends it, or a ValueError.
   */
  function SplitField(s: string, isSep: char -> bool): (r: Result<(string, string)>)
    ensures r.Ok? ==> 1 <= |r.value.0| <= 2 && |r.value.0| < |s| && isSep(s[|r.value.0|])
    ensures r.Ok? ==> s == r.value.0 + [s[|r.value.0|]] + r.value.1
    ensures r.Err? ==> r.error == ValueError
  {
    if 1 < |s| && isSep(s[1]) then Ok((s[..1], s[2..]))
    else if 2 < |s| && isSep(s[2]) then Ok((s[..2], s[3..]))
    else Err(ValueError)
  }

  /** `datetime.strptime(s, "%Y-%m-%dT%H:%M:%SZ")`. */
  function ParseUtc(s: string): (r: Result<DateTime>)
    ensures r.Ok? ==> Valid(r.value)
    ensures r.Err? ==> r.error == ValueError
  {
    if |s| < 5 || !IsDash(s[4]) then Err(ValueError)
    else
      var year :- InRange(YearField(s[..4]), MinYear, MaxYear);
      ParseAfterYear(year, s[5..])
  }

  /** The month, the day and the clock that follow the year and its dash. */
  function ParseAfterYear(year: int, s: string): (r: Result<DateTime>)
    requires MinYear <= year <= MaxYear
    ensures r.Ok? ==> Valid(r.value) && r.value.year == year
    ensures r.Err? ==> r.error == ValueError
  {
    var date :- ParseMonthDay(year, s);
    var clock :- ParseClock(date.2);
    Ok(DateTime(year, date.0, date.1, clock.0, clock.1, clock.2))
  }

  /** The month, its dash, the day and the `T`, with the text that follows the `T`. */
  function ParseMonthDay(year: int, s: string): (r: Result<(int, int, string)>)
    requires MinYear <= year <= MaxYear
    ensures r.Ok? ==> ValidDate(year, r.value.0, r.value.1)
    ensures r.Err? ==> r.error == ValueError
  {
    var m :- SplitField(s, IsDash);
    var month :- InRange(NumberField(m.0), 1, 12);
    var d :- SplitField(m.1, IsT);
    var day :- InRange(DayField(d.0), 1, DaysInMonth(year, month));
    Ok((month, day, d.1))
  }

  /** The hour, the minute and the second that follow the `T`. */
  function ParseClock(s: string): (r: Result<(int, int, int)>)
    ensures r.Ok? ==> 0 <= r.value.0 <= 23 && 0 <= r.value.1 <= 59 && 0 <= r.value.2 <= 59
    ensures r.Err? ==> r.error == ValueError
  {
    var h :- SplitField(s, IsColon);
    var hour :- InRange(NumberField(h.0), 0, 23);
    var mi :- SplitField(h.1, IsColon);
    var minute :- InRange(NumberField(mi.0), 0, 59);
    var second :- ParseSecond(mi.1);
    Ok((hour, minute, second))
  }

  /**
   * The second and the closing `Z`, which must end the string; `%S` admits 60 and 61,
   * which `datetime` then rejects.
   */
  function ParseSecond(s: string): (r: Result<int>)
    ensures r.Ok? ==> 0 <= r.value <= 59
    ensures r.Err? ==> r.error == ValueError
  {
    var sec :- SplitField(s, IsZ);
    var second :- InRange(NumberField(sec.0), 0, 61);
    if sec.1 != [] || second > 59 then Err(ValueError) else Ok(second)
  }

  /** Two zero-padded decimal digits. */
  function Pad2(n: int): (s: string)
    requires 0 <= n < 100
    ensures |s| == 2 && IsDigit(s[0]) && IsDigit(s[1])
    ensures 10 * DigitValue(s[0]) + DigitValue(s[1]) == n
  {
    [DigitChar(n / 10), DigitChar(n % 10)]
  }

  function Pad4(n: int): (s: string)
    requires 0 <= n < 10000
    ensures YearField(s) == Some(n)
  {
    Pad2(n / 100) + Pad2(n % 100)
  }

  // The grammar of the format, written independently of the parser: the strings it
  // matches, with field values that form a valid date-time, are exactly the renderings
  // of valid date-times under some layout.

  /** How a `%d` field is written: `5`, `05` or ` 5`. */
  datatype DayForm = OneDigit | TwoDigits | SpaceDigit

  /** The width of each one-or-two-digit field and the case of the `T` and the `Z`. */
  datatype Layout = Layout(
    wideMonth: bool, day: DayForm, wideHour: bool, wideMinute: bool, wideSecond: bool,
    upperT: bool, upperZ: bool)

  /** The layout ThingSpeak writes: every field two digits wide, upper-case letters. */
  const Canonical := Layout(true, TwoDigits, true, true, true, true, true)

  /** A one-digit field is only possible for values below 10. */
  predicate Fits(t: DateTime, l: Layout) {
    && (!l.wideMonth ==> t.month < 10)
    && (l.day != TwoDigits ==> t.day < 10)
    && (!l.wideHour ==> t.hour < 10)
    && (!l.wideMinute ==> t.minute < 10)
    && (!l.wideSecond ==> t.second < 10)
  }

  function Field(n: int, wide: bool): string
    requires 0 <= n < (if wide then 100 else 10)
  {
    if wide then Pad2(n) else [DigitChar(n)]
  }

  function DayText(n: int, form: DayForm): string
    requires 1 <= n < (if form == TwoDigits then 100 else 10)
  {
    match form
    case OneDigit => [DigitChar(n)]
    case TwoDigits => Pad2(n)
    case SpaceDigit => [' ', DigitChar(n)]
  }

  /** A valid date-time written in a layout the format's pattern matches. */
  function Render(t: DateTime, l: Layout): string
    requires Valid(t) && Fits(t, l)
  {
    WithClock(t, l, RenderClock(t, l))
  }

  /** The date of `t` in layout `l`, its `T`, and then `clock`. */
  function WithClock(t: DateTime, l: Layout, clock: string): string
    requires Valid(t) && Fits(t, l)
  {
    Pad4(t.year) + "-" + AfterYear(t, l, clock)
  }

  function AfterYear(t: DateTime, l: Layout, clock: string): string
    requires Valid(t) && Fits(t, l)
  {
    Field(t.month, l.wideMonth) + "-" + (DayText(t.day, l.day) + (if l.upperT then "T" else "t") + clock)
  }

  function RenderClock(t: DateTime, l: Layout): string
    requires Valid(t) && Fits(t, l)
  {
    Field(t.hour, l.wideHour) + ":" + (Field(t.minute, l.wideMinute) + ":" + RenderSecond(t, l))
  }

  function RenderSecond(t: DateTime, l: Layout): string
    requires Valid(t) && Fits(t, l)
  {
    Field(t.second, l.wideSecond) + (if l.upperZ then "Z" else "z")
  }

  /** The canonical `YYYY-MM-DDTHH:MM:SSZ` text of a UTC date-time, as ThingSpeak writes it. */
  function FormatUtc(t: DateTime): (s: string)
    requires Valid(t)
    ensures |s| == 20
  {
    Render(t, Canonical)
  }

  /** A field that holds no separator at its second position splits off in front of its separator. */
  lemma SplitFieldOf(tok: string, sep: char, rest: string, isSep: char -> bool)
    requires 1 <= |tok| <= 2 && (|tok| == 2 ==> !isSep(tok[1])) && isSep(sep)
    ensures SplitField(tok + [sep] + rest, isSep) == Ok((tok, rest))
  {
    var s := tok + [sep] + rest;
    assert s[..|tok|] == tok && s[|tok| + 1..] == rest;
  }

  /** A final field splits off in front of its separator with nothing left over. */
  lemma SplitFinalField(tok: string, sep: char, isSep: char -> bool)
    requires 1 <= |tok| <= 2 && (|tok| == 2 ==> !isSep(tok[1])) && isSep(sep)
    ensures SplitField(tok + [sep], isSep) == Ok((tok, []))
  {
    assert tok + [sep] + [] == tok + [sep];
    SplitFieldOf(tok, sep, [], isSep);
  }

  lemma DigitCharValue(c: char)
    requires IsDigit(c)
    ensures DigitChar(DigitValue(c)) == c
  {
  }

  /** A one- or two-digit field is the rendering of its value. */
  lemma NumberFieldInverse(tok: string, n: int)
    requires NumberField(tok) == Some(n)
    ensures 0 <= n < (if |tok| == 2 then 100 else 10) && (|tok| == 1 || |tok| == 2)
    ensures tok == Field(n, |tok| == 2)
  {
    DigitCharValue(tok[0]);
    if |tok| == 2 {
      DigitCharValue(tok[1]);
    }
  }

  /** A `%d` field is the rendering of its value in one of the three day forms. */
  lemma DayFieldInverse(tok: string, n: int) returns (form: DayForm)
    requires DayField(tok) == Some(n) && 1 <= n
    ensures n < (if form == TwoDigits then 100 else 10)
    ensures tok == DayText(n, form)
  {
    if |tok| == 2 && tok[0] == ' ' {
      DigitCharValue(tok[1]);
      form := SpaceDigit;
    } else {
      NumberFieldInverse(tok, n);
      form := if |tok| == 2 then TwoDigits else OneDigit;
    }
  }

  /** A `%Y` field is the four-digit rendering of its value. */
  lemma YearFieldInverse(tok: string, n: int)
    requires YearField(tok) == Some(n)
    ensures 0 <= n < 10000 && tok == Pad4(n)
  {
    DigitCharValue(tok[0]);
    DigitCharValue(tok[1]);
    DigitCharValue(tok[2]);
    DigitCharValue(tok[3]);
    assert n / 100 == 10 * DigitValue(tok[0]) + DigitValue(tok[1]);
    assert n % 100 == 10 * DigitValue(tok[2]) + DigitValue(tok[3]);
  }

  lemma FieldValue(n: int, wide: bool)
    requires 0 <= n < (if wide then 100 else 10)
    ensures NumberField(Field(n, wide)) == Some(n)
    ensures |Field(n, wide)| == (if wide then 2 else 1) && IsDigit(Field(n, wide)[|Field(n, wide)| - 1])
  {
  }

  lemma DayTextValue(n: int, form: DayForm)
    requires 1 <= n < (if form == TwoDigits then 100 else 10)
    ensures DayField(DayText(n, form)) == Some(n)
    ensures 1 <= |DayText(n, form)| <= 2 && IsDigit(DayText(n, form)[|DayText(n, form)| - 1])
  {
  }

  /** The second and its `Z` parse when nothing follows them, and are a ValueError otherwise. */
  lemma ParseRenderSecond(t: DateTime, l: Layout, tail: string)
    requires Valid(t) && Fits(t, l)
    ensures ParseSecond(RenderSecond(t, l) + tail) == if tail == [] then Ok(t.second) else Err(ValueError)
  {
    var zc := if l.upperZ then 'Z' else 'z';
    FieldValue(t.second, l.wideSecond);
    assert RenderSecond(t, l) + tail == Field(t.second, l.wideSecond) + [zc] + tail;
    SplitFieldOf(Field(t.second, l.wideSecond), zc, tail, IsZ);
  }

  lemma ParseRenderClock(t: DateTime, l: Layout, tail: string)
    requires Valid(t) && Fits(t, l)
    ensures ParseClock(RenderClock(t, l) + tail) ==
      if tail == [] then Ok((t.hour, t.minute, t.second)) else Err(ValueError)
  {
    var hourText, minuteText := Field(t.hour, l.wideHour), Field(t.minute, l.wideMinute);
    FieldValue(t.hour, l.wideHour);
    FieldValue(t.minute, l.wideMinute);
    var afterHour := minuteText + ":" + (RenderSecond(t, l) + tail);
    Associative(hourText + ":", minuteText + ":" + RenderSecond(t, l), tail);
    Associative(minuteText + ":", RenderSecond(t, l), tail);
    SplitFieldOf(hourText, ':', afterHour, IsColon);
    SplitFieldOf(minuteText, ':', RenderSecond(t, l) + tail, IsColon);
    ParseRenderSecond(t, l, tail);
  }

  lemma ParseRenderMonthDay(t: DateTime, l: Layout, clock: string)
    requires Valid(t) && Fits(t, l)
    ensures ParseMonthDay(t.year, AfterYear(t, l, clock)) == Ok((t.month, t.day, clock))
  {
    var tc := if l.upperT then 'T' else 't';
    var monthText, dayText := Field(t.month, l.wideMonth), DayText(t.day, l.day);
    FieldValue(t.month, l.wideMonth);
    DayTextValue(t.day, l.day);
    var afterMonth := dayText + [tc] + clock;
    SplitFieldOf(monthText, '-', afterMonth, IsDash);
    SplitFieldOf(dayText, tc, clock, IsT);
  }

  /** The text of a valid date and its `T` is parsed as the clock text that follows it is. */
  lemma DateThenClock(t: DateTime, l: Layout, clock: string)
    requires Valid(t) && Fits(t, l)
    ensures ParseUtc(WithClock(t, l, clock)) ==
      (match ParseClock(clock)
       case Ok(c) => Ok(DateTime(t.year, t.month, t.day, c.0, c.1, c.2))
       case Err(e) => Err(e))
  {
    var s := WithClock(t, l, clock);
    assert s[..4] == Pad4(t.year) && s[4] == '-' && s[5..] == AfterYear(t, l, clock);
    ParseRenderMonthDay(t, l, clock);
  }

  /** Every rendering of a valid date-time, in every layout, parses back to it. */
  lemma ParseRender(t: DateTime, l: Layout)
    requires Valid(t) && Fits(t, l)
    ensures ParseUtc(Render(t, l)) == Ok(t)
  {
    DateThenClock(t, l, RenderClock(t, l));
    assert RenderClock(t, l) + [] == RenderClock(t, l);
    ParseRenderClock(t, l, []);
  }

  /** Text after the closing `Z` of a rendering is a ValueError. */
  lemma TrailingTextRejected(t: DateTime, l: Layout, tail: string)
    requires Valid(t) && Fits(t, l) && tail != []
    ensures ParseUtc(Render(t, l) + tail) == Err(ValueError)
  {
    var clock := RenderClock(t, l);
    var monthText, dayT := Field(t.month, l.wideMonth) + "-", DayText(t.day, l.day) + (if l.upperT then "T" else "t");
    calc {
      Render(t, l) + tail;
      (Pad4(t.year) + "-") + (monthText + (dayT + clock)) + tail;
      { Associative(Pad4(t.year) + "-", monthText + (dayT + clock), tail); }
      (Pad4(t.year) + "-") + ((monthText + (dayT + clock)) + tail);
      { Associative(monthText, dayT + clock, tail); }
      (Pad4(t.year) + "-") + (monthText + ((dayT + clock) + tail));
      { Associative(dayT, clock, tail); }
      (Pad4(t.year) + "-") + (monthText + (dayT + (clock + tail)));
      WithClock(t, l, clock + tail);
    }
    DateThenClock(t, l, clock + tail);
    ParseRenderClock(t, l, tail);
  }

  lemma Associative(a: string, b: string, c: string)
    ensures a + b + c == a + (b + c)
  {
  }

  /** Seconds 60 and 61, which the `%S` pattern admits, are a ValueError on every date. */
  lemma LeapSecondRejected(t: DateTime, l: Layout, second: int)
    requires Valid(t) && Fits(t, l) && 60 <= second <= 61
    ensures ParseUtc(WithClock(t, l, Pad2(t.hour) + ":" + (Pad2(t.minute) + ":" + (Pad2(second) + "Z")))) == Err(ValueError)
  {
    var afterMinute := Pad2(second) + "Z";
    var afterHour := Pad2(t.minute) + ":" + afterMinute;
    FieldValue(t.hour, true);
    FieldValue(t.minute, true);
    FieldValue(second, true);
    SplitFieldOf(Pad2(t.hour), ':', afterHour, IsColon);
    SplitFieldOf(Pad2(t.minute), ':', afterMinute, IsColon);
    SplitFinalField(Pad2(second), 'Z', IsZ);
    assert ParseSecond(afterMinute) == Err(ValueError);
    assert ParseClock(Pad2(t.hour) + ":" + afterHour) == Err(ValueError);
    DateThenClock(t, l, Pad2(t.hour) + ":" + afterHour);
  }

  /**
   * A day past the end of its month, such as 30 February, is a ValueError although the
   * `%d` pattern admits it.
   */
  lemma DayPastMonthEndRejected(year: int, month: int, day: int, clock: string)
    requires MinYear <= year <= MaxYear && 1 <= month <= 12 && DaysInMonth(year, month) < day <= 31
    ensures ParseUtc(Pad4(year) + "-" + (Pad2(month) + "-" + (Pad2(day) + "T" + clock))) == Err(ValueError)
  {
    var afterMonth := Pad2(day) + ['T'] + clock;
    var afterYear := Pad2(month) + ['-'] + afterMonth;
    var s := Pad4(year) + ['-'] + afterYear;
    assert s[..4] == Pad4(year) && s[4] == '-' && s[5..] == afterYear;
    FieldValue(month, true);
    FieldValue(day, true);
    SplitFieldOf(Pad2(month), '-', afterMonth, IsDash);
    SplitFieldOf(Pad2(day), 'T', clock, IsT);
  }

  /** Every canonical timestamp parses back to the date-time it was written from. */
  lemma ParseFormatUtc(t: DateTime)
    requires Valid(t)
    ensures ParseUtc(FormatUtc(t)) == Ok(t)
  {
    ParseRender(t, Canonical);
  }

  lemma SecondIsRendering(s: string, t: DateTime, base: Layout) returns (l: Layout)
    requires Valid(t) && Fits(t, base) && ParseSecond(s) == Ok(t.second)
    ensures l == base.(wideSecond := l.wideSecond, upperZ := l.upperZ)
    ensures Fits(t, l) && RenderSecond(t, l) == s
  {
    var sec := SplitField(s, IsZ).value;
    NumberFieldInverse(sec.0, t.second);
    var zc := s[|sec.0|];
    l := base.(wideSecond := |sec.0| == 2, upperZ := zc == 'Z');
    assert [zc] == (if l.upperZ then "Z" else "z");
  }

  lemma ClockIsRendering(s: string, t: DateTime, base: Layout) returns (l: Layout)
    requires Valid(t) && Fits(t, base) && ParseClock(s) == Ok((t.hour, t.minute, t.second))
    ensures l == base.(wideHour := l.wideHour, wideMinute := l.wideMinute, wideSecond := l.wideSecond, upperZ := l.upperZ)
    ensures Fits(t, l) && RenderClock(t, l) == s
  {
    var h := SplitField(s, IsColon).value;
    var mi := SplitField(h.1, IsColon).value;
    NumberFieldInverse(h.0, t.hour);
    NumberFieldInverse(mi.0, t.minute);
    var inner := base.(wideHour := |h.0| == 2, wideMinute := |mi.0| == 2);
    l := SecondIsRendering(mi.1, t, inner);
  }

  lemma AfterYearIsRendering(s: string, t: DateTime) returns (l: Layout)
    requires Valid(t) && ParseAfterYear(t.year, s) == Ok(t)
    ensures Fits(t, l) && AfterYear(t, l, RenderClock(t, l)) == s
  {
    var date := ParseMonthDay(t.year, s).value;
    var m := SplitField(s, IsDash).value;
    var d := SplitField(m.1, IsT).value;
    assert date == (t.month, t.day, d.1);
    NumberFieldInverse(m.0, t.month);
    var dayForm := DayFieldInverse(d.0, t.day);
    var tc := m.1[|d.0|];
    var base := Layout(|m.0| == 2, dayForm, true, true, true, tc == 'T', true);
    assert [tc] == (if base.upperT then "T" else "t");
    l := ClockIsRendering(d.1, t, base);
  }

  /** An accepted string is a four-digit year, a dash, and a month, day and clock. */
  lemma ParsedYear(s: string, t: DateTime)
    requires ParseUtc(s) == Ok(t)
    ensures |s| >= 5 && s[4] == '-' && YearField(s[..4]) == Some(t.year)
    ensures ParseAfterYear(t.year, s[5..]) == Ok(t)
  {
  }

  /** Every string that parses is the rendering, in some layout, of the date-time it parses to. */
  lemma ParsedIsRendering(s: string, t: DateTime) returns (l: Layout)
    requires ParseUtc(s) == Ok(t)
    ensures Valid(t) && Fits(t, l) && Render(t, l) == s
  {
    ParsedYear(s, t);
    YearFieldInverse(s[..4], t.year);
    l := AfterYearIsRendering(s[5..], t);
    Reassemble(s, t, l);
  }

  lemma Reassemble(s: string, t: DateTime, l: Layout)
    requires Valid(t) && Fits(t, l) && |s| >= 5 && s[4] == '-'
    requires s[..4] == Pad4(t.year) && s[5..] == AfterYear(t, l, RenderClock(t, l))
    ensures Render(t, l) == s
  {
    assert s == s[..4] + "-" + s[5..];
  }

  /**
   * A string parses to `t` exactly when `t` is valid and the string is a rendering of `t`
   * in some layout: `strptime` accepts exactly the strings its pattern matches.
   */
  lemma ParseUtcMatchesGrammar(s: string, t: DateTime)
    ensures ParseUtc(s) == Ok(t) <==> Valid(t) && exists l :: Fits(t, l) && Render(t, l) == s
  {
    if ParseUtc(s) == Ok(t) {
      var l := ParsedIsRendering(s, t);
    }
    if Valid(t) && exists l :: Fits(t, l) && Render(t, l) == s {
      var l :| Fits(t, l) && Render(t, l) == s;
      ParseRender(t, l);
    }
  }

  /** A string that renders no valid date-time in any layout is rejected with ValueError. */
  lemma ParseUtcRejects(s: string)
    requires forall t, l :: Valid(t) && Fits(t, l) ==> Render(t, l) != s
    ensures ParseUtc(s) == Err(ValueError)
  {
    if ParseUtc(s).Ok? {
      var l := ParsedIsRendering(s, ParseUtc(s).value);
    }
  }

  // ---------------------------------------------------------------------------
  // Shifting: utc_time + timedelta(hours=5, minutes=30)
  // ---------------------------------------------------------------------------

  /**
   * The date-time 5 h 30 min after `t`, carrying into the next day, month and year;
   * an OverflowError when that lies beyond the last representable second.
   */
  function ShiftIst(t: DateTime): (r: Result<DateTime>)
    requires Valid(t)
    ensures r.Ok? ==> Valid(r.value) && Instant(r.value) == Instant(t) + OffsetSeconds
    ensures r.Ok? ==> r.value.second == t.second
    ensures r.Err? <==> Instant(t) + OffsetSeconds > Instant(Last)
    ensures r.Err? ==> r.error == OverflowError
  {
    var minutes := t.hour * 60 + t.minute + OffsetSeconds / 60;
    if minutes < 24 * 60 then
      var r := t.(hour := minutes / 60, minute := minutes % 60);
      InstantRange(r);
      Ok(r)
    else
      var next := NextDay(t);
      if next.year > MaxYear then Err(OverflowError)
      else
        var r := next.(hour := (minutes - 24 * 60) / 60, minute := (minutes - 24 * 60) % 60);
        InstantRange(r);
        Ok(r)
  }

  // ---------------------------------------------------------------------------
  // Formatting: ist_time.strftime("%d-%m-%y %I:%M:%S %p")
  // ---------------------------------------------------------------------------

  /** `%I`: the hour on a 12-hour clock, 12 standing for 0 and for 12. */
  function Hour12(hour: int): (h: int)
    requires 0 <= hour < 24
    ensures 1 <= h <= 12
  {
    if hour % 12 == 0 then 12 else hour % 12
  }

  /** `%p` in the C locale. */
  function Meridiem(hour: int): (m: string)
    ensures m == "AM" || m == "PM"
    ensures m == "AM" <==> hour < 12
  {
    if hour < 12 then "AM" else "PM"
  }

  /** The 24-hour hour that a reader recovers from a 12-hour hour and its meridiem. */
  function Hour24(hour12: int, meridiem: string): int {
    hour12 % 12 + (if meridiem == "PM" then 12 else 0)
  }

  /** The text `dd-mm-yy hh:MM:SS AM` or `... PM` of a date-time. */
  function FormatIst(t: DateTime): (s: string)
    requires Valid(t)
    ensures |s| == 20
    ensures s[2] == '-' && s[5] == '-' && s[8] == ' ' && s[11] == ':' && s[14] == ':' && s[17] == ' '
    ensures s[18..] == Meridiem(t.hour)
  {
    Pad2(t.day) + "-" + Pad2(t.month) + "-" + Pad2(t.year % 100) + " " +
    Pad2(Hour12(t.hour)) + ":" + Pad2(t.minute) + ":" + Pad2(t.second) + " " + Meridiem(t.hour)
  }

  /** The value of two decimal digits. */
  function Read2(s: string): int
    requires |s| == 2 && IsDigit(s[0]) && IsDigit(s[1])
  {
    10 * DigitValue(s[0]) + DigitValue(s[1])
  }

  /**
   * The rendered text is 20 characters long and a reader recovers from it the day, the
   * month, the year modulo 100, the 12-hour hour, the minute and the second, and from the
   * 12-hour hour and the meridiem the original hour of the day.
   */
  lemma FormatIstLayout(t: DateTime)
    requires Valid(t)
    ensures var s := FormatIst(t);
      && |s| == 20
      && s[2] == '-' && s[5] == '-' && s[8] == ' ' && s[11] == ':' && s[14] == ':' && s[17] == ' '
      && Read2(s[0..2]) == t.day && Read2(s[3..5]) == t.month && Read2(s[6..8]) == t.year % 100
      && Read2(s[9..11]) == Hour12(t.hour) && Read2(s[12..14]) == t.minute && Read2(s[15..17]) == t.second
      && s[18..] == Meridiem(t.hour)
      && Hour24(Read2(s[9..11]), s[18..]) == t.hour
  {
  }

  /** Midnight is rendered as 12 AM and noon as 12 PM. */
  lemma MidnightAndNoon()
    ensures Hour12(0) == 12 && Meridiem(0) == "AM"
    ensures Hour12(12) == 12 && Meridiem(12) == "PM"
  {
  }

  // ---------------------------------------------------------------------------
  // to_ist
  // ---------------------------------------------------------------------------

  /**
   * `to_ist(created_at)`: a TypeError unless the value is a string, the parse error, the
   * overflow error, or the rendering of the shifted date-time.
   */
  function ToIst(createdAt: Json): (r: Result<string>)
    ensures r.Err? && r.error == TypeError <==> !createdAt.Text?
    ensures createdAt.Text? ==> (r.Ok? <==> ParseUtc(createdAt.s).Ok? && ShiftIst(ParseUtc(createdAt.s).value).Ok?)
    ensures r.Ok? ==> |r.value| == 20
  {
    if !createdAt.Text? then Err(TypeError)
    else
      var utc :- ParseUtc(createdAt.s);
      var ist :- ShiftIst(utc);
      FormatIstLayout(ist);
      Ok(FormatIst(ist))
  }

  /**
   * On a string that parses, `to_ist` renders exactly the valid date-time that lies
   * 5 h 30 min later, and fails only when no such date-time is representable.
   */
  lemma ToIstDenotesShift(s: string, utc: DateTime, ist: DateTime)
    requires ParseUtc(s) == Ok(utc)
    requires Valid(ist) && Instant(ist) == Instant(utc) + OffsetSeconds
    ensures ToIst(Text(s)) == Ok(FormatIst(ist))
  {
    InstantRange(ist);
    var shifted := ShiftIst(utc);
    InstantInjective(shifted.value, ist);
  }

  /** `to_ist` fails exactly when the string does not parse or the shift leaves year 9999. */
  lemma ToIstFailure(s: string)
    ensures ToIst(Text(s)).Err? <==>
      ParseUtc(s).Err? || Instant(ParseUtc(s).value) + OffsetSeconds > Instant(Last)
  {
  }

  /**
   * A string that is no rendering of a valid date-time, in any layout the format's pattern
   * matches, makes `to_ist` raise ValueError.
   */
  lemma ToIstRejectsNonMatching(s: string)
    requires forall t, l :: Valid(t) && Fits(t, l) ==> Render(t, l) != s
    ensures ToIst(Text(s)) == Err(ValueError)
  {
    ParseUtcRejects(s);
  }

  /** 20:00 UTC on 28 February 2024, a leap year, is 01:30 on 29 February in IST. */
  lemma LeapDayRollover()
    ensures ShiftIst(DateTime(2024, 2, 28, 20, 0, 0)) == Ok(DateTime(2024, 2, 29, 1, 30, 0))
  {
  }

  /** 29 February 2024, 01:30:00 is rendered with a two-digit year and a zero-padded 12-hour hour. */
  lemma LeapDayRendering()
    ensures FormatIst(DateTime(2024, 2, 29, 1, 30, 0)) == "29-02-24 01:30:00 AM"
  {
  }

  /** In 2023, not a leap year, the same instant rolls over to 1 March. */
  lemma CommonYearRollover()
    ensures ShiftIst(DateTime(2023, 2, 28, 20, 0, 0)) == Ok(DateTime(2023, 3, 1, 1, 30, 0))
  {
  }

  /** The last evening of a year carries into the next year, shown past midnight as 12 AM. */
  lemma YearRollover()
    ensures ShiftIst(DateTime(2023, 12, 31, 18, 45, 7)) == Ok(DateTime(2024, 1, 1, 0, 15, 7))
  {
  }

  /** A quarter past midnight is rendered as 12:15 AM. */
  lemma AfterMidnightRendering()
    ensures FormatIst(DateTime(2024, 1, 1, 0, 15, 7)) == "01-01-24 12:15:07 AM"
  {
  }

  /** Shifting the last evening of year 9999 overflows. */
  lemma LastYearOverflows()
    ensures ShiftIst(DateTime(9999, 12, 31, 20, 0, 0)) == Err(OverflowError)
  {
  }

  /** strptime also accepts one-digit fields and lower-case separators. */
  lemma ShortFieldsAccepted()
    ensures ParseUtc("2024-1-5t3:4:5z") == Ok(DateTime(2024, 1, 5, 3, 4, 5))
  {
    var t, l := DateTime(2024, 1, 5, 3, 4, 5), Layout(false, OneDigit, false, false, false, false, false);
    assert Pad4(2024) == "2024";
    assert Render(t, l) == "2024-1-5t3:4:5z";
    ParseRender(t, l);
  }
}
