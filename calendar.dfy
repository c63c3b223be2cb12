/** Calendar dates and the fixed `datetime.strptime` formats the program accepts
    (`%m/%d/%Y`, `%m-%d-%Y`, `%Y-%m-%d`, `%Y/%m/%d` and `%H:%M`), with
    `strftime('%Y-%m-%d')` as the canonical rendering. */
module Calendar {
  import opened Wrappers
  import opened Text

  datatype CivilDate = CivilDate(year: int, month: int, day: int)

  predicate IsLeapYear(y: int) {
    y % 4 == 0 && (y % 100 != 0 || y % 400 == 0)
  }

  function DaysInMonth(y: int, m: int): (n: int)
    requires 1 <= m <= 12
    ensures 28 <= n <= 31
  {
    if m == 2 then (if IsLeapYear(y) then 29 else 28)
    else if m == 4 || m == 6 || m == 9 || m == 11 then 30
    else 31
  }

  /** A date `datetime.date` accepts: years 1 to 9999 and a day that exists in its month. */
  predicate ValidDate(d: CivilDate) {
    && 1 <= d.year <= 9999
    && 1 <= d.month <= 12
    && 1 <= d.day <= DaysInMonth(d.year, d.month)
  }

  /** The dates a parser can return. */
  type Date = d: CivilDate | ValidDate(d) witness CivilDate(1970, 1, 1)

  // ---------------------------------------------------------------------------
  // The fields of a format: each directive accepts a fixed set of spellings
  // ---------------------------------------------------------------------------

  predicate NonZeroDigit(c: char) { '1' <= c <= '9' }

  /** `%m`: `1[0-2]`, `0[1-9]` or `[1-9]`. */
  function MonthField(t: string): (r: Option<int>)
    ensures r.Some? ==> 1 <= r.value <= 12
  {
    if |t| == 2 && t[0] == '1' && '0' <= t[1] <= '2' then Some(10 + DigitValue(t[1]))
    else if |t| == 2 && t[0] == '0' && NonZeroDigit(t[1]) then Some(DigitValue(t[1]))
    else if |t| == 1 && NonZeroDigit(t[0]) then Some(DigitValue(t[0]))
    else None
  }

  /** `%d`: `3[01]`, `[12][0-9]`, `0[1-9]`, `[1-9]` or a space and `[1-9]`. */
  function DayField(t: string): (r: Option<int>)
    ensures r.Some? ==> 1 <= r.value <= 31
  {
    if |t| == 2 && t[0] == '3' && '0' <= t[1] <= '1' then Some(30 + DigitValue(t[1]))
    else if |t| == 2 && '1' <= t[0] <= '2' && IsDigit(t[1]) then Some(10 * DigitValue(t[0]) + DigitValue(t[1]))
    else if |t| == 2 && (t[0] == '0' || t[0] == ' ') && NonZeroDigit(t[1]) then Some(DigitValue(t[1]))
    else if |t| == 1 && NonZeroDigit(t[0]) then Some(DigitValue(t[0]))
    else None
  }

  /** `%Y`: exactly four digits. */
  function YearField(t: string): (r: Option<int>)
    ensures r.Some? ==> 0 <= r.value <= 9999
  {
    if |t| == 4 && AllDigits(t) then
      DigitsBound(t);
      Some(DigitsValue(t))
    else None
  }

  lemma {:induction false} DigitsBound(t: string)
    requires AllDigits(t)
    ensures DigitsValue(t) < Pow10(|t|)
    decreases |t|
  {
    if t != [] { DigitsBound(t[..|t| - 1]); }
  }

  /** `%H`: `2[0-3]`, `[01][0-9]` or one digit. */
  function HourField(t: string): (r: Option<int>)
    ensures r.Some? ==> 0 <= r.value <= 23
  {
    if |t| == 2 && t[0] == '2' && '0' <= t[1] <= '3' then Some(20 + DigitValue(t[1]))
    else if |t| == 2 && '0' <= t[0] <= '1' && IsDigit(t[1]) then Some(10 * DigitValue(t[0]) + DigitValue(t[1]))
    else if |t| == 1 && IsDigit(t[0]) then Some(DigitValue(t[0]))
    else None
  }

  /** `%M`: `[0-5][0-9]` or one digit. */
  function MinuteField(t: string): (r: Option<int>)
    ensures r.Some? ==> 0 <= r.value <= 59
  {
    if |t| == 2 && '0' <= t[0] <= '5' && IsDigit(t[1]) then Some(10 * DigitValue(t[0]) + DigitValue(t[1]))
    else if |t| == 1 && IsDigit(t[0]) then Some(DigitValue(t[0]))
    else None
  }

  // ---------------------------------------------------------------------------
  // Date formats
  // ---------------------------------------------------------------------------

  datatype FieldOrder = MonthDayYear | YearMonthDay

  /** A three-field date format: the order of its fields and the separator between them. */
  datatype DateFormat = DateFormat(order: FieldOrder, sep: char)

  const SlashMonthDayYear := DateFormat(MonthDayYear, '/')   // '%m/%d/%Y'
  const DashMonthDayYear := DateFormat(MonthDayYear, '-')    // '%m-%d-%Y'
  const DashYearMonthDay := DateFormat(YearMonthDay, '-')    // '%Y-%m-%d'
  const SlashYearMonthDay := DateFormat(YearMonthDay, '/')   // '%Y/%m/%d'

  /** `datetime.strptime(s, fmt).date()`, `None` where it raises `ValueError`: the string
      must be exactly three fields between two separators, each field spelled as its
      directive allows, and the fields must name a date that exists. No field
      spelling contains a separator, so the fields are the pieces of `s` between them. */
  function ParseDate(s: string, fmt: DateFormat): (r: Option<Date>)
    ensures r.Some? ==> |Split(s, fmt.sep)| == 3
  {
    var parts := Split(s, fmt.sep);
    if |parts| != 3 then None
    else
      var (y, m, d) :=
        if fmt.order == MonthDayYear then (YearField(parts[2]), MonthField(parts[0]), DayField(parts[1]))
        else (YearField(parts[0]), MonthField(parts[1]), DayField(parts[2]));
      if y.None? || m.None? || d.None? then None
      else
        var date := CivilDate(y.value, m.value, d.value);
        if ValidDate(date) then Some(date) else None
  }

  /** `strftime('%Y-%m-%d')`: four-digit year, two-digit month and day. */
  function FormatIso(d: Date): string {
    PadInt(d.year, 4) + "-" + PadInt(d.month, 2) + "-" + PadInt(d.day, 2)
  }

  /** Two digits read back by the two-character spellings of `%m`, `%d`, `%H` and `%M`. */
  lemma TwoDigits(t: string)
    requires |t| == 2 && AllDigits(t)
    ensures DigitsValue(t) == 10 * DigitValue(t[0]) + DigitValue(t[1])
  {
    var head := t[..1];
    assert head[..0] == [] && head[0] == t[0];
    assert DigitsValue(head) == DigitValue(t[0]);
  }

  /** The two-digit rendering of a number below 100. */
  lemma PadTwo(n: int)
    requires 0 <= n < 100
    ensures var t := PadInt(n, 2); |t| == 2 && AllDigits(t) && 10 * DigitValue(t[0]) + DigitValue(t[1]) == n
  {
    PadNat(n, 2);
    TwoDigits(PadInt(n, 2));
  }

  /** `%m` reads back a zero-padded month. */
  lemma MonthFieldOfPad(n: int)
    requires 1 <= n <= 12
    ensures MonthField(PadInt(n, 2)) == Some(n)
  {
    PadTwo(n);
  }

  /** `%d` reads back a zero-padded day. */
  lemma DayFieldOfPad(n: int)
    requires 1 <= n <= 31
    ensures DayField(PadInt(n, 2)) == Some(n)
  {
    PadTwo(n);
  }

  /** `%Y` reads back a four-digit year. */
  lemma YearFieldOfPad(n: int)
    requires 1 <= n <= 9999
    ensures YearField(PadInt(n, 4)) == Some(n)
  {
    PadNat(n, 4);
  }

  /** A string of three separator-free fields parses as its fields say. */
  lemma ParseDateFields(a: string, b: string, c: string, fmt: DateFormat)
    requires fmt.sep !in a && fmt.sep !in b && fmt.sep !in c
    ensures var (y, m, d) :=
        if fmt.order == MonthDayYear then (YearField(c), MonthField(a), DayField(b))
        else (YearField(a), MonthField(b), DayField(c));
      ParseDate(a + [fmt.sep] + b + [fmt.sep] + c, fmt)
      == if y.Some? && m.Some? && d.Some? && ValidDate(CivilDate(y.value, m.value, d.value))
         then Some(CivilDate(y.value, m.value, d.value)) else None
  {
    SplitTwice(a, b, c, fmt.sep);
  }

  /** Rendering a date as `YYYY-MM-DD` and parsing it back with `%Y-%m-%d` gives the date. */
  lemma IsoRoundTrip(d: Date)
    ensures ParseDate(FormatIso(d), DashYearMonthDay) == Some(d)
  {
    var y, m, dd := PadInt(d.year, 4), PadInt(d.month, 2), PadInt(d.day, 2);
    PadNat(d.year, 4);
    PadNat(d.month, 2);
    PadNat(d.day, 2);
    YearFieldOfPad(d.year);
    MonthFieldOfPad(d.month);
    DayFieldOfPad(d.day);
    assert '-' !in y && '-' !in m && '-' !in dd;
    ParseDateFields(y, m, dd, DashYearMonthDay);
  }

  /** No format tried before `%Y-%m-%d` accepts a rendered date: it has no `/`, and its
      four-digit first field is not a month. */
  lemma IsoOnlyYearFirst(d: Date)
    ensures ParseDate(FormatIso(d), SlashMonthDayYear).None?
    ensures ParseDate(FormatIso(d), DashMonthDayYear).None?
    ensures ParseDate(FormatIso(d), SlashYearMonthDay).None?
  {
    var y, m, dd := PadInt(d.year, 4), PadInt(d.month, 2), PadInt(d.day, 2);
    PadNat(d.year, 4);
    PadNat(d.month, 2);
    PadNat(d.day, 2);
    assert '-' !in y && '-' !in m && '-' !in dd;
    assert '/' !in FormatIso(d);
    ParseDateFields(y, m, dd, DashMonthDayYear);
    assert MonthField(y).None?;
  }

  /** `M/D/YYYY` with a valid date is read as that date. */
  lemma SlashDateParses(mText: string, dText: string, yText: string)
    requires MonthField(mText).Some? && DayField(dText).Some? && YearField(yText).Some?
    requires ValidDate(CivilDate(YearField(yText).value, MonthField(mText).value, DayField(dText).value))
    ensures ParseDate(mText + "/" + dText + "/" + yText, SlashMonthDayYear)
         == Some(CivilDate(YearField(yText).value, MonthField(mText).value, DayField(dText).value))
  {
    assert '/' !in mText && '/' !in dText && '/' !in yText;
    ParseDateFields(mText, dText, yText, SlashMonthDayYear);
  }

  // ---------------------------------------------------------------------------
  // Clock times
  // ---------------------------------------------------------------------------

  /** `datetime.strptime(s, '%H:%M')` as (hour, minute), `None` where it raises. */
  function ParseClock(s: string): (r: Option<(int, int)>)
    ensures r.Some? ==> 0 <= r.value.0 <= 23 && 0 <= r.value.1 <= 59
  {
    var parts := Split(s, ':');
    if |parts| != 2 then None
    else match (HourField(parts[0]), MinuteField(parts[1]))
      case (Some(h), Some(m)) => Some((h, m))
      case _ => None
  }

  /** `strftime('%H:%M')`. */
  function FormatClock(h: int, m: int): string
    requires 0 <= h <= 23 && 0 <= m <= 59
  {
    PadInt(h, 2) + ":" + PadInt(m, 2)
  }

  /** A rendered clock time parses back with `%H:%M`. */
  lemma ClockRoundTrip(h: int, m: int)
    requires 0 <= h <= 23 && 0 <= m <= 59
    ensures ParseClock(FormatClock(h, m)) == Some((h, m))
  {
    HourOfPad(h);
    MinuteOfPad(m);
    ClockOfPieces(PadInt(h, 2), PadInt(m, 2));
  }

  lemma HourOfPad(h: int)
    requires 0 <= h <= 23
    ensures HourField(PadInt(h, 2)) == Some(h) && ':' !in PadInt(h, 2)
  {
    PadTwo(h);
    var hs := PadInt(h, 2);
    assert hs == [hs[0], hs[1]];
  }

  lemma MinuteOfPad(m: int)
    requires 0 <= m <= 59
    ensures MinuteField(PadInt(m, 2)) == Some(m) && ':' !in PadInt(m, 2)
  {
    PadTwo(m);
    var ms := PadInt(m, 2);
    assert ms == [ms[0], ms[1]];
  }

  /** `2023-02-30` has the shape of a `%Y-%m-%d` date but names no day, so it is refused. */
  lemma NoSuchDayExample()
    ensures ParseDate("2023-02-30", DashYearMonthDay).None?
  {
    assert "2023-02-30" == "2023" + "-" + "02" + "-" + "30";
    NoSuchDayPieces();
    NoSuchDayFields();
    ParseDateFields("2023", "02", "30", DashYearMonthDay);
  }

  lemma NoSuchDayPieces()
    ensures DashYearMonthDay.sep == '-' && DashYearMonthDay.order != MonthDayYear
    ensures '-' !in "2023" && '-' !in "02" && '-' !in "30"
  {
  }

  /** February 2023 has no 30th. */
  lemma NoSuchDayFields()
    ensures YearField("2023") == Some(2023) && MonthField("02") == Some(2) && DayField("30") == Some(30)
    ensures !ValidDate(CivilDate(2023, 2, 30))
  {
    assert DigitsValue("2023") == 2023 by {
      assert "2023"[..3] == "202" && "202"[..2] == "20" && "20"[..1] == "2" && "2"[..0] == [];
    }
  }

  /** `12/15/2023` is not a `%Y-%m-%d` date. */
  lemma WrongSeparatorExample()
    ensures ParseDate("12/15/2023", DashYearMonthDay).None?
  {
    assert '-' !in "12/15/2023";
  }

  /** `14:30` is a `%H:%M` time and `24:00` is not. */
  lemma ClockExamples()
    ensures ParseClock("14:30") == Some((14, 30))
    ensures ParseClock("24:00").None?
  {
    assert "14:30" == "14" + ":" + "30";
    assert "24:00" == "24" + ":" + "00";
    ClockPiecesExamples();
    ClockOfPieces("14", "30");
    ClockOfPieces("24", "00");
  }

  lemma ClockPiecesExamples()
    ensures ':' !in "14" && ':' !in "30" && ':' !in "24" && ':' !in "00"
    ensures HourField("14") == Some(14) && MinuteField("30") == Some(30) && HourField("24").None?
  {
  }

  /** `%H:%M` reads the two sides of the colon. */
  lemma ClockOfPieces(a: string, b: string)
    requires ':' !in a && ':' !in b
    ensures ParseClock(a + ":" + b)
         == if HourField(a).Some? && MinuteField(b).Some? then Some((HourField(a).value, MinuteField(b).value)) else None
  {
    SplitOnce(a, b, ':');
  }
}
