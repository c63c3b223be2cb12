/** What the keyword-driven front end of `app.py` guarantees: how a booking changes the
    table, what the listing shows, which row the next-appointment lookup picks, what
    the date and time clean-up of `extract_appointment_details` produces, and which
    messages can write. */
module FrontendLaws {
  import opened Wrappers
  import opened Text
  import opened Calendar
  import Database
  import opened Frontend

  // ---------------------------------------------------------------------------
  // `book_appointment`
  // ---------------------------------------------------------------------------

  /** A booking is refused with the format message unless both the date and the time
      parse; it is refused whatever the name when the slot is already taken; otherwise
      exactly one row, with the next id and the given fields, is appended. Afterwards
      the slot is taken exactly when it was before or the booking was well spelled. */
  lemma BookMeaning(l: Ledger, name: string, date: string, time: string, purpose: string)
    ensures var (l', reply) := Book(l, name, date, time, purpose);
      && (!WellSpelled(date, time) ==> l' == l && reply == FormatError)
      && (Taken(l.rows, date, time) ==> l' == l)
      && (l' != l <==> WellSpelled(date, time) && !Taken(l.rows, date, time))
      && (l' != l ==> l' == Ledger(l.rows + [Booking(l.nextId, name, date, time, purpose)], l.nextId + 1))
      && (Taken(l'.rows, date, time) <==> Taken(l.rows, date, time) || WellSpelled(date, time))
  {
    var (l', reply) := Book(l, name, date, time, purpose);
    if WellSpelled(date, time) && !Taken(l.rows, date, time) {
      assert l'.rows[|l.rows|] in l'.rows;
      assert |l'.rows| != |l.rows|;
    }
    if Taken(l.rows, date, time) {
      var b :| b in l.rows && b.date == date && b.time == time;
      assert b in l'.rows;
    }
  }

  /** A booking keeps the ids below the counter and never books a slot twice. */
  lemma BookKeepsWellFormed(l: Ledger, name: string, date: string, time: string, purpose: string)
    requires WellFormed(l)
    ensures WellFormed(Book(l, name, date, time, purpose).0)
  {
    var l' := Book(l, name, date, time, purpose).0;
    if l' != l {
      var rows := l'.rows;
      forall i, j | 0 <= i < j < |rows| ensures rows[i].date != rows[j].date || rows[i].time != rows[j].time {
        if j == |l.rows| {
          assert rows[i] in l.rows;
        }
      }
    }
  }

  /** The clash check compares the text: on the same day, `09:05` and `9:05` are two
      different slots, so both are booked although `strptime` reads them as the same
      time. */
  lemma TextualClashExample()
    ensures var first := Book(Ledger([], 1), Alice, Day, ZeroFive, Purpose).0;
      && first.rows == [Booking(1, Alice, Day, ZeroFive, Purpose)]
      && Book(first, Bob, Day, BareFive, Purpose).0.rows
         == [Booking(1, Alice, Day, ZeroFive, Purpose), Booking(2, Bob, Day, BareFive, Purpose)]
  {
    DayParses();
    FiveParses();
    assert ZeroFive != BareFive by { assert |ZeroFive| != |BareFive|; }
    SpellingsBookedApart(Alice, Bob, Day, ZeroFive, BareFive, Purpose);
  }

  /** Two spellings of a time that both parse are two slots: booking both into an empty
      table keeps both rows. */
  lemma SpellingsBookedApart(a: string, b: string, date: string, t1: string, t2: string, purpose: string)
    requires WellSpelled(date, t1) && WellSpelled(date, t2) && t1 != t2
    ensures var first := Book(Ledger([], 1), a, date, t1, purpose).0;
      && first.rows == [Booking(1, a, date, t1, purpose)]
      && Book(first, b, date, t2, purpose).0.rows
         == [Booking(1, a, date, t1, purpose), Booking(2, b, date, t2, purpose)]
  {
    var first := Booking(1, a, date, t1, purpose);
    BookAppends(Ledger([], 1), a, date, t1, purpose);
    assert [] + [first] == [first];
    assert !Taken([first], date, t2);
    BookAppends(Ledger([first], 2), b, date, t2, purpose);
  }

  /** A well-spelled booking of a free slot appends its row and advances the counter. */
  lemma BookAppends(l: Ledger, name: string, date: string, time: string, purpose: string)
    requires WellSpelled(date, time) && !Taken(l.rows, date, time)
    ensures Book(l, name, date, time, purpose).0
         == Ledger(l.rows + [Booking(l.nextId, name, date, time, purpose)], l.nextId + 1)
  {
  }


  const Alice: string := "Alice"
  const Bob: string := "Bob"
  const Day: string := "2024-03-05"
  const ZeroFive: string := "09:05"
  const BareFive: string := "9:05"
  const Purpose: string := "checkup"

  lemma DayParses()
    ensures ParseDate(Day, DashYearMonthDay).Some?
  {
    var y, m, d := Day[..4], Day[5..7], Day[8..];
    assert Day == y + "-" + m + "-" + d;
    assert DigitsValue(y[..1]) == 2;
    assert DigitsValue(y[..2]) == 20 by { assert y[..2][..1] == y[..1]; }
    assert DigitsValue(y[..3]) == 202 by { assert y[..3][..2] == y[..2]; }
    assert DigitsValue(y) == 2024 by { assert y[..3] == y[..|y| - 1]; }
    assert MonthField(m) == Some(3) && DayField(d) == Some(5);
    ParseDateFields(y, m, d, DashYearMonthDay);
  }

  lemma FiveParses()
    ensures ParseClock(ZeroFive) == Some((9, 5)) && ParseClock(BareFive) == Some((9, 5))
  {
    assert ZeroFive == "09" + ":" + "05";
    assert BareFive == "9" + ":" + "05";
    FivePieces();
    ClockOfPieces("09", "05");
    ClockOfPieces("9", "05");
  }

  lemma FivePieces()
    ensures ':' !in "09" && ':' !in "9" && ':' !in "05"
    ensures HourField("09") == Some(9) && HourField("9") == Some(9) && MinuteField("05") == Some(5)
  {
  }

  // ---------------------------------------------------------------------------
  // `get_appointments`
  // ---------------------------------------------------------------------------

  /** With neither filter given, the query returns every row in order. */
  lemma {:induction false} FoundNoFilter(rows: seq<Booking>, name: Option<string>, date: Option<string>)
    requires !Database.Truthy(name) && !Database.Truthy(date)
    ensures Found(rows, name, date) == rows
  {
    if rows != [] {
      FoundNoFilter(rows[1..], name, date);
      assert rows == [rows[0]] + rows[1..];
    }
  }

  /** The lines of the first `m` rows begin the lines of the first `n`. */
  lemma {:induction false} LinesPrefix(found: seq<Booking>, m: nat, n: nat)
    requires m <= n <= |found|
    ensures Lines(found, m) <= Lines(found, n)
    decreases n
  {
    if m < n {
      LinesPrefix(found, m, n - 1);
    }
  }

  /** Every row that the filters select has its own line in the reply. */
  lemma ListingShowsFound(rows: seq<Booking>, name: Option<string>, date: Option<string>, b: Booking)
    requires b in rows && Wanted(b, name, date)
    ensures Contains(Listing(rows, name, date), Line(b))
  {
    var found := Found(rows, name, date);
    var k :| 0 <= k < |found| && found[k] == b;
    LineInLines(ListHead, found, k);
  }

  /** The line of each found row occurs in the listing made of all their lines. */
  lemma LineInLines(head: string, found: seq<Booking>, k: nat)
    requires k < |found|
    ensures Contains(head + Lines(found, |found|), Line(found[k]))
  {
    LinesPrefix(found, k + 1, |found|);
    PrefixUnder(head, Lines(found, k + 1), Lines(found, |found|));
    LinesStep(found, k);
    Regroup(head, Lines(found, k), Line(found[k]));
    ContainsAfterPrefix(head + Lines(found, |found|), head + Lines(found, k), Line(found[k]));
  }

  lemma LinesStep(found: seq<Booking>, k: nat)
    requires k < |found|
    ensures Lines(found, k + 1) == Lines(found, k) + Line(found[k])
  {
  }

  lemma Regroup(a: string, b: string, c: string)
    ensures a + (b + c) == a + b + c
  {
  }

  /** A common head keeps one string a prefix of another. */
  lemma PrefixUnder(head: string, p: string, t: string)
    requires p <= t
    ensures head + p <= head + t
  {
    assert (head + t)[..|head + p|] == head + p;
  }

  /** What follows a prefix inside a string occurs in it. */
  lemma ContainsAfterPrefix(text: string, pre: string, x: string)
    requires pre + x <= text
    ensures Contains(text, x)
  {
    assert text[|pre|..|pre| + |x|] == (pre + x)[|pre|..];
    assert OccursAt(text, x, |pre|);
  }

  /** With no row selected, the reply says so and names the filters that were given. */
  lemma ListingWhenNoneWanted(rows: seq<Booking>, name: Option<string>, date: Option<string>)
    requires forall b :: b in rows ==> !Wanted(b, name, date)
    ensures Listing(rows, name, date) == NothingFound(name, date)
  {
    FoundNone(rows, name, date);
  }

  lemma {:induction false} FoundNone(rows: seq<Booking>, name: Option<string>, date: Option<string>)
    requires forall b :: b in rows ==> !Wanted(b, name, date)
    ensures Found(rows, name, date) == []
  {
    if rows != [] {
      assert rows[0] in rows;
      FoundNone(rows[1..], name, date);
    }
  }

  // ---------------------------------------------------------------------------
  // `get_next_appointment`
  // ---------------------------------------------------------------------------

  lemma EarlierIrreflexive(a: Booking)
    ensures !Earlier(a, a)
  {
    Database.TextLessIrreflexive(a.date);
    Database.TextLessIrreflexive(a.time);
  }

  lemma EarlierTransitive(a: Booking, b: Booking, c: Booking)
    requires Earlier(a, b) && Earlier(b, c)
    ensures Earlier(a, c)
  {
    if Database.TextLess(a.date, b.date) && Database.TextLess(b.date, c.date) {
      Database.TextLessTransitive(a.date, b.date, c.date);
    } else if a.date == b.date && b.date == c.date {
      Database.TextLessTransitive(a.time, b.time, c.time);
    }
  }

  /** `ORDER BY date, time LIMIT 1` finds nothing exactly when no row is upcoming, and
      otherwise an upcoming row of the table that no upcoming row precedes. */
  lemma {:induction false} NextOfMeaning(rows: seq<Booking>, name: Option<string>, today: string, now: string)
    ensures NextOf(rows, name, today, now).None? <==> forall b :: b in rows ==> !Upcoming(b, name, today, now)
    ensures NextOf(rows, name, today, now).Some? ==>
      var x := NextOf(rows, name, today, now).value;
      && x in rows && Upcoming(x, name, today, now)
      && forall b :: b in rows && Upcoming(b, name, today, now) ==> !Earlier(b, x)
  {
    if rows != [] {
      var prefix, last := rows[..|rows| - 1], rows[|rows| - 1];
      NextOfMeaning(prefix, name, today, now);
      assert rows == prefix + [last];
      var best := NextOf(prefix, name, today, now);
      EarlierIrreflexive(last);
      if Upcoming(last, name, today, now) && (best.None? || Earlier(last, best.value)) {
        forall b | b in prefix && Upcoming(b, name, today, now) ensures !Earlier(b, last) {
          if Earlier(b, last) {
            EarlierTransitive(b, last, best.value);
          }
        }
      }
    }
  }

  /** When no two rows share a slot, the row found comes strictly before every other
      upcoming row. */
  lemma NextIsEarliest(rows: seq<Booking>, name: Option<string>, today: string, now: string, b: Booking)
    requires NoClash(rows)
    requires NextOf(rows, name, today, now).Some?
    requires b in rows && Upcoming(b, name, today, now) && b != NextOf(rows, name, today, now).value
    ensures Earlier(NextOf(rows, name, today, now).value, b)
  {
    var x := NextOf(rows, name, today, now).value;
    NextOfMeaning(rows, name, today, now);
    var i :| 0 <= i < |rows| && rows[i] == x;
    var j :| 0 <= j < |rows| && rows[j] == b;
    assert x.date != b.date || x.time != b.time;
    Database.TextLessTotal(x.date, b.date);
    Database.TextLessTotal(x.time, b.time);
  }

  /** Times are compared as text, so an unpadded `9:30` today counts as later than
      `10:15` and is still offered as upcoming. */
  lemma UnpaddedTimeLooksLater(b: Booking)
    requires b.time == NineThirty
    ensures Upcoming(b, None, b.date, TenFifteen)
  {
    Database.TextLessIrreflexive(b.date);
  }

  const NineThirty: string := "9:30"
  const TenFifteen: string := "10:15"

  // ---------------------------------------------------------------------------
  // The time clean-up of `extract_appointment_details`
  // ---------------------------------------------------------------------------

  /** Removing a pattern whose first character does not occur changes nothing. */
  lemma {:induction false} RemoveAllAbsent(s: string, pat: string)
    requires pat != [] && pat[0] !in s
    ensures RemoveAll(s, pat) == s
    decreases |s|
  {
    if |s| >= |pat| {
      assert s[..|pat|][0] == s[0];
      RemoveAllAbsent(s[1..], pat);
      assert s == [s[0]] + s[1..];
    }
  }

  /** Removing a pattern that occurs only as the suffix leaves what precedes it. */
  lemma {:induction false} RemoveAllTail(a: string, pat: string)
    requires pat != [] && pat[0] !in a
    ensures RemoveAll(a + pat, pat) == a
    decreases |a|
  {
    var s := a + pat;
    if a == [] {
      assert s[..|pat|] == pat && s[|pat|..] == [];
    } else {
      assert s[..|pat|][0] == a[0];
      assert s[1..] == a[1..] + pat;
      RemoveAllTail(a[1..], pat);
      assert a == [a[0]] + a[1..];
    }
  }

  const Space: string := " "

  /** A string that neither starts nor ends with white space, followed by at most one
      space, strips to itself. */
  lemma StripGap(s: string, gap: string)
    requires |s| > 0 && !IsSpace(s[0]) && !IsSpace(s[|s| - 1]) && (gap == [] || gap == Space)
    ensures Strip(s + gap) == s
  {
    StripNoop(s);
    if gap != [] {
      var t := s + gap;
      assert TrimStart(t) == t;
      assert t[..|t| - 1] == s;
      assert TrimEnd(t) == TrimEnd(s);
    }
  }

  /** `H:MMpm` and `H:MM pm`: an hour below 12 gains 12, hour 12 and above is kept,
      and the suffix is dropped from the minutes. */
  lemma PmTime(hh: string, mm: string, gap: string)
    requires |hh| > 0 && AllDigits(hh) && |mm| > 0 && AllDigits(mm) && (gap == [] || gap == Space)
    ensures var h := DigitsValue(hh);
      ConvertTime(hh + ":" + (mm + gap + Pm)) == Some(IntToString(if h < 12 then h + 12 else h) + ":" + mm)
  {
    var h := HourValue(hh);
    PmFacts(hh, mm, gap);
    PmFromFacts(hh, mm, gap, h);
  }

  /** The hour a run of digits spells. */
  lemma HourValue(hh: string) returns (h: int)
    requires |hh| > 0 && AllDigits(hh)
    ensures h == DigitsValue(hh)
  {
    h := DigitsValue(hh);
  }

  lemma PmFromFacts(hh: string, mm: string, gap: string, h: int)
    requires var t := hh + ":" + (mm + gap + Pm);
      && Contains(Lower(t), Pm) && ':' in t
      && Split(t, ':') == [hh, mm + gap + Pm] && ParseInt(hh) == Some(h)
      && Strip(RemoveAll(RemoveAll(mm + gap + Pm, Pm), PmUpper)) == mm
    ensures ConvertTime(hh + ":" + (mm + gap + Pm)) == Some(IntToString(if h < 12 then h + 12 else h) + ":" + mm)
  {
    PmRewrite(hh + ":" + (mm + gap + Pm), hh, mm + gap + Pm, h, mm);
  }

  /** What the "pm" branch finds in such a time: the suffix, one colon, the hour as an
      integer and the minutes under the suffix. */
  lemma PmFacts(hh: string, mm: string, gap: string)
    requires |hh| > 0 && AllDigits(hh) && |mm| > 0 && AllDigits(mm) && (gap == [] || gap == Space)
    ensures var t := hh + ":" + (mm + gap + Pm);
      && Contains(Lower(t), Pm) && ':' in t
      && Split(t, ':') == [hh, mm + gap + Pm] && ParseInt(hh) == Some(DigitsValue(hh))
      && Strip(RemoveAll(RemoveAll(mm + gap + Pm, Pm), PmUpper)) == mm
  {
    PmSuffixFound(hh, mm, gap);
    PmSplit(hh, mm, gap);
    ParseIntDigits(hh);
    MinutesOf(mm, gap);
  }

  lemma PmSuffixFound(hh: string, mm: string, gap: string)
    ensures Contains(Lower(hh + ":" + (mm + gap + Pm)), Pm)
  {
    var t := hh + ":" + (mm + gap + Pm);
    assert Pm == ['p', 'm'];
    assert t[|t| - 2] == 'p' && t[|t| - 1] == 'm';
    SuffixPair(t, 'p', 'm');
  }

  lemma PmSplit(hh: string, mm: string, gap: string)
    requires AllDigits(hh) && AllDigits(mm) && (gap == [] || gap == Space)
    ensures ':' in hh + ":" + (mm + gap + Pm)
    ensures Split(hh + ":" + (mm + gap + Pm), ':') == [hh, mm + gap + Pm]
  {
    assert ':' !in hh && ':' !in mm + gap + Pm;
    ColonSplit(hh, mm + gap + Pm);
  }


  /** The "pm" branch of the rewrite, once the pieces are known. */
  lemma PmRewrite(t: string, hh: string, tail: string, h: int, mm: string)
    requires Contains(Lower(t), Pm) && ':' in t
    requires Split(t, ':') == [hh, tail] && ParseInt(hh) == Some(h)
    requires Strip(RemoveAll(RemoveAll(tail, Pm), PmUpper)) == mm
    ensures ConvertTime(t) == Some(IntToString(if h < 12 then h + 12 else h) + ":" + mm)
  {
  }

  /** A string ending in a lower-case pair contains that pair once lowered. */
  lemma SuffixPair(t: string, a: char, b: char)
    requires |t| >= 2 && t[|t| - 2] == a && t[|t| - 1] == b && 'a' <= a <= 'z' && 'a' <= b <= 'z'
    ensures Contains(Lower(t), [a, b])
  {
    PairAt(Lower(t), |t| - 2, a, b);
  }

  /** One colon between two colon-free pieces. */
  lemma ColonSplit(a: string, b: string)
    requires ':' !in a && ':' !in b
    ensures ':' in a + ":" + b && Split(a + ":" + b, ':') == [a, b]
  {
    assert a + ":" + b == a + [':'] + b;
    assert (a + ":" + b)[|a|] == ':';
    SplitOnce(a, b, ':');
  }

  /** The minutes lose the suffix and the space before it. */
  lemma MinutesOf(mm: string, gap: string)
    requires |mm| > 0 && AllDigits(mm) && (gap == [] || gap == Space)
    ensures Strip(RemoveAll(RemoveAll(mm + gap + Pm, Pm), PmUpper)) == mm
  {
    assert 'p' !in mm + gap && 'P' !in mm + gap;
    RemoveAllTail(mm + gap, Pm);
    RemoveAllAbsent(mm + gap, PmUpper);
    StripGap(mm, gap);
  }

  /** `H:MMam` and `H:MM am`: the suffix is dropped and the hour is kept as written. */
  lemma AmTime(hh: string, mm: string, gap: string)
    requires |hh| > 0 && AllDigits(hh) && |mm| > 0 && AllDigits(mm) && (gap == [] || gap == Space)
    ensures ConvertTime(hh + ":" + mm + gap + Am) == Some(hh + ":" + mm)
  {
    var clock := hh + ":" + mm;
    var t := clock + gap + Am;
    NoPm(clock, gap);
    assert Am == ['a', 'm'];
    assert t[|t| - 2] == 'a' && t[|t| - 1] == 'm';
    SuffixPair(t, 'a', 'm');
    assert t[|hh|] == ':';
    ClockStrips(hh, mm, gap);
  }

  /** A clock time with an "am" suffix has no "pm" in it. */
  lemma NoPm(clock: string, gap: string)
    requires forall k :: 0 <= k < |clock| ==> IsDigit(clock[k]) || clock[k] == ':'
    requires gap == [] || gap == Space
    ensures !Contains(Lower(clock + gap + Am), Pm)
  {
    var t := clock + gap + Am;
    forall k | 0 <= k < |t| ensures LowerChar(t[k]) != 'p' {
      if k < |clock| {
        assert t[k] == clock[k];
      }
    }
    AbsentPair(t, 'p', 'm');
    assert Pm == ['p', 'm'];
  }

  /** The clock time loses the suffix and the space before it. */
  lemma ClockStrips(hh: string, mm: string, gap: string)
    requires |hh| > 0 && AllDigits(hh) && |mm| > 0 && AllDigits(mm) && (gap == [] || gap == Space)
    ensures Strip(RemoveAll(RemoveAll(hh + ":" + mm + gap + Am, Am), AmUpper)) == hh + ":" + mm
  {
    var clock := hh + ":" + mm;
    assert 'a' !in clock + gap && 'A' !in clock + gap;
    RemoveAllTail(clock + gap, Am);
    RemoveAllAbsent(clock + gap, AmUpper);
    assert clock[0] == hh[0] && clock[|clock| - 1] == mm[|mm| - 1];
    StripGap(clock, gap);
  }

  const Two: string := "2"
  const Fourteen: string := "14"

  /** `2:30 pm` becomes `14:30`. */
  lemma AfternoonExample()
    ensures ConvertTime(Two + ":" + (Thirty + Space + Pm)) == Some(Fourteen + ":" + Thirty)
  {
    assert DigitsValue(Two) == 2;
    FourteenText();
    PmTime(Two, Thirty, Space);
  }

  lemma FourteenText()
    ensures IntToString(14) == Fourteen
  {
    assert NatToString(14) == NatToString(1) + [DigitChar(4)];
  }

  const Twelve: string := "12"
  const Thirty: string := "30"

  /** `12:30 am` becomes `12:30`, which `%H:%M` reads as half past noon: a booking for
      just after midnight is stored twelve hours late. */
  lemma MidnightReadAsNoon()
    ensures ConvertTime(Twelve + ":" + Thirty + Space + Am) == Some(Twelve + ":" + Thirty)
    ensures ParseClock(Twelve + ":" + Thirty) == Some((12, 30))
  {
    TwelveThirtyPieces();
    AmTime(Twelve, Thirty, Space);
    ClockOfPieces(Twelve, Thirty);
  }

  lemma TwelveThirtyPieces()
    ensures |Twelve| > 0 && AllDigits(Twelve) && |Thirty| > 0 && AllDigits(Thirty)
    ensures ':' !in Twelve && ':' !in Thirty
    ensures HourField(Twelve) == Some(12) && MinuteField(Thirty) == Some(30)
  {
  }

  /** A time without a colon (`2pm`, `3 am`) is kept as captured, and `%H:%M` refuses
      it, so such a booking ends with the format message. */
  lemma BareHourRefused(t: string, l: Ledger, name: string, date: string, purpose: string)
    requires ':' !in t
    ensures ConvertTime(t) == Some(t)
    ensures Book(l, name, date, t, purpose) == (l, FormatError)
  {
  }

  /** The only failures of the rewrite: a "pm" time with a colon that does not split
      into two pieces, or whose hour is not an integer. */
  lemma ConvertTimeFails(t: string)
    ensures ConvertTime(t).None? <==>
      && Contains(Lower(t), Pm) && ':' in t
      && (|Split(t, ':')| != 2 || ParseInt(Split(t, ':')[0]).None?)
  {
  }

  // ---------------------------------------------------------------------------
  // The date clean-up of `extract_appointment_details`
  // ---------------------------------------------------------------------------

  const Slash: string := "/"

  /** `M/D/Y` becomes `Y-MM-DD`: month and day zero-filled to two digits, a two-digit
      year prefixed with `20`, a longer one kept. */
  lemma SlashRewrite(m: string, d: string, y: string)
    requires 1 <= |m| <= 2 && 1 <= |d| <= 2 && 2 <= |y|
    requires AllDigits(m) && AllDigits(d) && AllDigits(y)
    ensures ConvertDate(m + Slash + d + Slash + y)
         == (if |y| == 2 then Century + y else y) + "-" + ZeroFill(m, 2) + "-" + ZeroFill(d, 2)
  {
    SlashPieces(m, d, y);
    SlashConvert(m + Slash + d + Slash + y, m, d, y);
  }

  /** Such a date has the shape the pattern looks for and splits at its two slashes. */
  lemma SlashPieces(m: string, d: string, y: string)
    requires 1 <= |m| <= 2 && 1 <= |d| <= 2 && 2 <= |y|
    requires AllDigits(m) && AllDigits(d) && AllDigits(y)
    ensures SlashDate(m + Slash + d + Slash + y) && Split(m + Slash + d + Slash + y, '/') == [m, d, y]
  {
    var s := m + Slash + d + Slash + y;
    assert s == m + ['/'] + d + ['/'] + y;
    SlashShape(s, m, d, y);
    assert '/' !in m && '/' !in d && '/' !in y;
    SplitTwice(m, d, y, '/');
  }

  lemma SlashShape(s: string, m: string, d: string, y: string)
    requires 1 <= |m| <= 2 && 1 <= |d| <= 2 && 2 <= |y|
    requires AllDigits(m) && AllDigits(d) && AllDigits(y)
    requires s == m + ['/'] + d + ['/'] + y
    ensures SlashDate(s)
  {
    assert s[|m|] == '/' && s[|m| + 1 + |d|] == '/';
    assert DigitsIn(s, 0, |m|) by {
      assert forall k :: 0 <= k < |m| ==> s[k] == m[k];
    }
    assert DigitsIn(s, |m| + 1, |m| + 1 + |d|) by {
      assert forall k :: |m| + 1 <= k < |m| + 1 + |d| ==> s[k] == d[k - |m| - 1];
    }
    assert DigitsIn(s, |m| + |d| + 2, |m| + |d| + 4) by {
      assert s[|m| + |d| + 2] == y[0] && s[|m| + |d| + 3] == y[1];
    }
    assert SlashAt(s, |m|, |d|);
  }

  /** The rewrite of a slash date, once its pieces are known. */
  lemma SlashConvert(s: string, m: string, d: string, y: string)
    requires SlashDate(s) && Split(s, '/') == [m, d, y]
    ensures ConvertDate(s) == (if |y| == 2 then Century + y else y) + "-" + ZeroFill(m, 2) + "-" + ZeroFill(d, 2)
  {
  }

  const Three: string := "3"
  const Five: string := "5"
  const TwentyFour: string := "24"

  /** `3/5/24` becomes `2024-03-05`. */
  lemma SlashExample()
    ensures ConvertDate(Three + Slash + Five + Slash + TwentyFour) == Day
  {
    SlashExampleDigits();
    SlashExampleFilled();
    SlashExampleJoined();
    SlashRewrite(Three, Five, TwentyFour);
  }

  lemma SlashExampleDigits()
    ensures 1 <= |Three| <= 2 && 1 <= |Five| <= 2 && |TwentyFour| == 2
    ensures AllDigits(Three) && AllDigits(Five) && AllDigits(TwentyFour)
  {
  }

  lemma SlashExampleFilled()
    ensures ZeroFill(Three, 2) == "03" && ZeroFill(Five, 2) == "05"
  {
    assert ZeroFill(Three, 2) == Zeros(1) + Three;
    assert ZeroFill(Five, 2) == Zeros(1) + Five;
  }

  lemma SlashExampleJoined()
    ensures Century + TwentyFour + "-" + "03" + "-" + "05" == Day
  {
  }

  /** A one- or two-digit month or day reads the same before and after zero-filling. */
  lemma ZeroFillFields(t: string)
    requires 1 <= |t| <= 2 && AllDigits(t)
    ensures MonthField(ZeroFill(t, 2)) == MonthField(t)
    ensures DayField(ZeroFill(t, 2)) == DayField(t)
  {
    if |t| == 1 {
      assert ZeroFill(t, 2) == Zeros(1) + t;
      assert ZeroFill(t, 2) == ['0', t[0]];
    }
  }

  /** With a four-digit year the rewrite keeps the meaning: `%Y-%m-%d` reads the
      rewritten date exactly as `%m/%d/%Y` reads the original. */
  lemma SlashRewriteKeepsDate(m: string, d: string, y: string)
    requires 1 <= |m| <= 2 && 1 <= |d| <= 2 && |y| == 4
    requires AllDigits(m) && AllDigits(d) && AllDigits(y)
    ensures ParseDate(ConvertDate(m + Slash + d + Slash + y), DashYearMonthDay)
         == ParseDate(m + Slash + d + Slash + y, SlashMonthDayYear)
  {
    SlashRewrite(m, d, y);
    ZeroFillFields(m);
    ZeroFillFields(d);
    FilledNoDash(m);
    FilledNoDash(d);
    DigitsNoSeparator(y);
    DashSide(y, ZeroFill(m, 2), ZeroFill(d, 2));
    SlashSide(m, d, y);
  }

  /** A zero-filled run of digits holds no dash. */
  lemma FilledNoDash(t: string)
    requires 1 <= |t| <= 2 && AllDigits(t)
    ensures '-' !in ZeroFill(t, 2)
  {
    assert ZeroFill(t, 2) == t || ZeroFill(t, 2) == ['0', t[0]];
  }

  /** A run of digits holds neither separator. */
  lemma DigitsNoSeparator(t: string)
    requires AllDigits(t)
    ensures '-' !in t && '/' !in t
  {
  }

  /** How `%Y-%m-%d` reads three dash-free fields joined by dashes. */
  lemma DashSide(y: string, m: string, d: string)
    requires '-' !in y && '-' !in m && '-' !in d
    ensures ParseDate(y + "-" + m + "-" + d, DashYearMonthDay)
         == var (yy, mm, dd) := (YearField(y), MonthField(m), DayField(d));
            if yy.Some? && mm.Some? && dd.Some? && ValidDate(CivilDate(yy.value, mm.value, dd.value))
            then Some(CivilDate(yy.value, mm.value, dd.value)) else None
  {
    assert y + "-" + m + "-" + d == y + [DashYearMonthDay.sep] + m + [DashYearMonthDay.sep] + d;
    ParseDateFields(y, m, d, DashYearMonthDay);
  }

  /** How `%m/%d/%Y` reads three slash-free fields joined by slashes. */
  lemma SlashSide(m: string, d: string, y: string)
    requires AllDigits(m) && AllDigits(d) && AllDigits(y)
    ensures ParseDate(m + Slash + d + Slash + y, SlashMonthDayYear)
         == var (yy, mm, dd) := (YearField(y), MonthField(m), DayField(d));
            if yy.Some? && mm.Some? && dd.Some? && ValidDate(CivilDate(yy.value, mm.value, dd.value))
            then Some(CivilDate(yy.value, mm.value, dd.value)) else None
  {
    DigitsNoSeparator(m);
    DigitsNoSeparator(d);
    DigitsNoSeparator(y);
    assert m + Slash + d + Slash + y == m + [SlashMonthDayYear.sep] + d + [SlashMonthDayYear.sep] + y;
    ParseDateFields(m, d, y, SlashMonthDayYear);
  }

  /** A date already written `YYYY-MM-DD` is left alone. */
  lemma IsoDateKept(date: Date)
    ensures ConvertDate(FormatIso(date)) == FormatIso(date)
  {
    assert Pow10(4) == 10000;
    PadNat(date.year, 4);
    var s := FormatIso(date);
    assert s[1] == PadInt(date.year, 4)[1] && s[2] == PadInt(date.year, 4)[2];
  }

  // ---------------------------------------------------------------------------
  // `process_message`
  // ---------------------------------------------------------------------------

  /** A booking keyword anywhere in the message sends it to the booking path, even when
      it also asks to check or find something. */
  lemma BookingKeywordWins(message: string, i: nat)
    requires i < |BookingKeywords| && Contains(Lower(message), BookingKeywords[i])
    ensures RouteOf(message) == ToBooking
  {
  }

  const CheckSchedule: string := "Check my schedule"

  /** "Check my schedule" asks to look something up but is routed to booking, because
      "schedule" is a booking keyword. */
  lemma CheckScheduleIsBooking()
    ensures RouteOf(CheckSchedule) == ToBooking
  {
    ScheduleWithin(Check, Schedule);
    assert CheckSchedule == Check + Schedule;
  }

  const Check: string := "Check my "
  const Schedule: string := "schedule"

  /** A message that ends in the lower-case word "schedule" is routed to booking. */
  lemma ScheduleWithin(a: string, w: string)
    requires w == Schedule
    ensures RouteOf(a + w) == ToBooking
  {
    var lowered := Lower(a + w);
    forall k | 0 <= k < |w| ensures lowered[|a| + k] == w[k] {
      assert (a + w)[|a| + k] == w[k];
    }
    assert lowered[|a|..|a| + |w|] == w;
    assert BookingKeywords[1] == w;
    assert OccursAt(lowered, BookingKeywords[1], |a|);
    BookingKeywordWins(a + w, 1);
  }

  /** With no booking keyword, "next" or "upcoming" is itself a retrieval keyword, so the
      message always reaches the next-appointment lookup, which leaves the table alone. */
  lemma NextWordRoutesToNext(l: Ledger, message: string, caps: Captures, forName: Option<string>, clock: Clock)
    requires forall i :: 0 <= i < |BookingKeywords| ==> !Contains(Lower(message), BookingKeywords[i])
    requires Contains(Lower(message), NextWord) || Contains(Lower(message), UpcomingWord)
    ensures RouteOf(message) == ToNext
    ensures Respond(l, message, caps, forName, clock)
         == (l, Some(NextText(NextOf(l.rows, NextName(forName), clock.today, clock.now))))
  {
    var lowered := Lower(message);
    assert RetrievalKeywords[5] == NextWord && RetrievalKeywords[6] == UpcomingWord;
    if Contains(lowered, NextWord) {
      assert Contains(lowered, RetrievalKeywords[5]);
    } else {
      assert Contains(lowered, RetrievalKeywords[6]);
    }
  }

  /** A message with no keyword of either list gets the fixed fallback and writes nothing. */
  lemma NoKeywordFallback(l: Ledger, message: string, caps: Captures, forName: Option<string>, clock: Clock)
    requires forall i :: 0 <= i < |BookingKeywords| ==> !Contains(Lower(message), BookingKeywords[i])
    requires forall i :: 0 <= i < |RetrievalKeywords| ==> !Contains(Lower(message), RetrievalKeywords[i])
    ensures Respond(l, message, caps, forName, clock) == (l, Some(Fallback))
  {
  }

  /** Only the booking path writes, and then by one row with the next id; the table
      stays well formed whatever the message. */
  lemma RespondWrites(l: Ledger, message: string, caps: Captures, forName: Option<string>, clock: Clock)
    requires WellFormed(l)
    ensures var l' := Respond(l, message, caps, forName, clock).0;
      && WellFormed(l')
      && (l' != l ==>
            && RouteOf(message) == ToBooking
            && |l'.rows| == |l.rows| + 1 && l'.rows[..|l.rows|] == l.rows
            && l'.rows[|l.rows|].id == l.nextId && l'.nextId == l.nextId + 1)
  {
    if RouteOf(message) == ToBooking {
      match ExtractDetails(message, caps, clock)
      case None =>
      case Some(r) =>
        if Missing(r) == [] {
          BookMeaning(l, r.name, r.date.value, r.time.value, r.purpose);
          BookKeepsWellFormed(l, r.name, r.date.value, r.time.value, r.purpose);
        }
    }
  }

  /** A booking request without a date or a time writes nothing and asks for what is
      missing, the date named before the time. */
  lemma MissingDetailsAsked(l: Ledger, message: string, caps: Captures, forName: Option<string>, clock: Clock)
    requires RouteOf(message) == ToBooking
    requires ExtractDetails(message, caps, clock).Some?
    requires var r := ExtractDetails(message, caps, clock).value; r.date.None? || r.time.None?
    ensures var r := ExtractDetails(message, caps, clock).value;
      Respond(l, message, caps, forName, clock)
      == (l, Some(NeedHead + if r.date.None? && r.time.None? then DateWord + Comma + TimeWord
                             else if r.date.None? then DateWord else TimeWord))
  {
    var r := ExtractDetails(message, caps, clock).value;
    if r.date.None? && r.time.None? {
      assert Missing(r) == [DateWord, TimeWord];
      assert Join(Missing(r), Comma) == DateWord + Comma + Join([TimeWord], Comma);
    } else if r.date.None? {
      assert Missing(r) == [DateWord];
    } else {
      assert Missing(r) == [TimeWord];
    }
  }

  /** Without a captured date, "tomorrow" wins over "today" whatever else the message
      says. */
  lemma TomorrowBeforeToday(message: string, caps: Captures, clock: Clock)
    requires caps.date.None? && Contains(Lower(message), TomorrowWord)
    ensures PickDate(message, caps.date, clock) == Some(clock.tomorrow)
  {
  }

  /** Extraction fails only where the time rewrite fails, and otherwise fills the
      defaults for what was not captured. */
  lemma ExtractMeaning(message: string, caps: Captures, clock: Clock)
    ensures ExtractDetails(message, caps, clock).None?
        <==> caps.time.Some? && ConvertTime(Strip(caps.time.value)).None?
    ensures ExtractDetails(message, caps, clock).Some? ==>
      var r := ExtractDetails(message, caps, clock).value;
      && (caps.name.None? ==> r.name == Unknown)
      && (caps.purpose.None? ==> r.purpose == NotSpecified)
      && (r.time.None? <==> caps.time.None?)
      && r.date == PickDate(message, caps.date, clock)
  {
  }
}
