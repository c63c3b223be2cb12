/** What `extract_appointment_details` (src/utils.py) promises: canonical times stay
    canonical, the case split on the hour, the strings it leaves alone, the dates it
    rewrites, how a field line is read, and how the sections are found and cut out. */
module ExtractorLaws {
  import opened Wrappers
  import opened Text
  import opened Calendar
  import opened Extractor

  // ---------------------------------------------------------------------------
  // Time
  // ---------------------------------------------------------------------------

  /** A time with one colon whose second half is not an integer is kept as it is. */
  lemma ColonMinuteNotIntegerKept(t: string)
    requires ':' in t && |Split(t, ':')| == 2 && ParseInt(Split(t, ':')[1]).None?
    ensures NormalizeTime(t) == t
  {
  }

  /** The colon branch when both halves are integers and no `am`/`pm` is present. */
  lemma ColonIntegersBranch(t: string, h: int, m: int)
    requires ':' in t && |Split(t, ':')| == 2
    requires ParseInt(Split(t, ':')[0]) == Some(h) && ParseInt(Split(t, ':')[1]) == Some(m)
    requires !Contains(Lower(t), "am") && !Contains(Lower(t), "pm")
    ensures NormalizeTime(t) == TwelveHourClock(h, PadInt(m, 2))
  {
  }

  /** The branch without a colon when the first word is an integer. */
  lemma BareHourBranch(t: string, w: string, h: int)
    requires ':' !in t && FirstWord(t) == Some(w) && ParseInt(w) == Some(h)
    ensures NormalizeTime(t) == TwelveHourClock(DayHalf(t, h), "00")
  {
  }

  /** A rendered `H:MM AM/PM` splits at its colon into the hour and `MM AM/PM`, and the
      second half, holding a letter, is not an integer. */
  lemma ClockHalves(hour: int, minutes: string)
    requires forall i :: 0 <= i < |minutes| ==> IsDigit(minutes[i]) || minutes[i] == '-'
    ensures var t := TwelveHourClock(hour, minutes);
      ':' in t && |Split(t, ':')| == 2 && ParseInt(Split(t, ':')[1]).None?
  {
    var x := ClockHour(hour);
    var suffix := if hour < 12 then " AM" else " PM";
    var rest := minutes + suffix;
    IntToStringChars(hour);
    IntToStringChars(hour - 12);
    assert ':' !in x;
    assert ':' !in rest;
    assert TwelveHourClock(hour, minutes) == x + [':'] + rest;
    SplitOnce(x, rest, ':');
    assert rest[|minutes| + 1] == suffix[1];
    ParseIntRejectsLetter(rest, |minutes| + 1);
  }

  /** A rendered `H:MM AM/PM` is left alone: its minutes part carries the `AM`/`PM`
      letters, so it is not an integer. */
  lemma ClockIsFixed(hour: int, minutes: string)
    requires forall i :: 0 <= i < |minutes| ==> IsDigit(minutes[i]) || minutes[i] == '-'
    ensures NormalizeTime(TwelveHourClock(hour, minutes)) == TwelveHourClock(hour, minutes)
  {
    ClockHalves(hour, minutes);
    ColonMinuteNotIntegerKept(TwelveHourClock(hour, minutes));
  }

  /** Canonicalising a time twice changes nothing more than canonicalising it once. */
  lemma NormalizeTimeIdempotent(t: string)
    ensures NormalizeTime(NormalizeTime(t)) == NormalizeTime(t)
  {
    if ':' in t {
      var parts := Split(t, ':');
      if |parts| == 2 && ParseInt(parts[0]).Some? && ParseInt(parts[1]).Some? &&
         !Contains(Lower(t), "am") && !Contains(Lower(t), "pm") {
        ColonClockFixed(t, ParseInt(parts[0]).value, ParseInt(parts[1]).value);
      }
    } else {
      var w := FirstWord(t);
      if w.Some? && ParseInt(w.value).Some? {
        BareClockFixed(t, w.value, ParseInt(w.value).value);
      }
    }
  }

  /** A time rewritten by the colon branch is a fixed point. */
  lemma ColonClockFixed(t: string, h: int, m: int)
    requires ':' in t && |Split(t, ':')| == 2
    requires ParseInt(Split(t, ':')[0]) == Some(h) && ParseInt(Split(t, ':')[1]) == Some(m)
    requires !Contains(Lower(t), "am") && !Contains(Lower(t), "pm")
    ensures NormalizeTime(NormalizeTime(t)) == NormalizeTime(t)
  {
    ColonIntegersBranch(t, h, m);
    PadIntChars(m, 2);
    ClockIsFixed(h, PadInt(m, 2));
  }

  /** A time rewritten by the bare-hour branch is a fixed point. */
  lemma BareClockFixed(t: string, w: string, h: int)
    requires ':' !in t && FirstWord(t) == Some(w) && ParseInt(w) == Some(h)
    ensures NormalizeTime(NormalizeTime(t)) == NormalizeTime(t)
  {
    BareHourBranch(t, w, h);
    HourClockFixed(DayHalf(t, h));
  }

  /** `H:00 AM/PM` is a fixed point. */
  lemma HourClockFixed(hour: int)
    ensures NormalizeTime(TwelveHourClock(hour, "00")) == TwelveHourClock(hour, "00")
  {
    ZeroMinutesAreDigits();
    ClockIsFixed(hour, "00");
  }

  lemma ZeroMinutesAreDigits()
    ensures forall i :: 0 <= i < |"00"| ==> IsDigit("00"[i]) || "00"[i] == '-'
  {
  }

  /** Characters that may make up an integer hold no letter, and neither does a colon. */
  lemma NumeralsAroundColon(a: string, b: string)
    requires forall i :: 0 <= i < |a| ==> NumeralChar(a[i])
    requires forall i :: 0 <= i < |b| ==> NumeralChar(b[i])
    ensures forall k :: 0 <= k < |a + [':'] + b| ==> !IsAsciiLetter((a + [':'] + b)[k])
  {
  }

  /** Two integers around one colon hold no letter, so the `am`/`pm` test in the colon
      branch never fails once both halves are integers. */
  lemma ColonIntegersHaveNoLetters(t: string)
    ensures (|Split(t, ':')| == 2 && ParseInt(Split(t, ':')[0]).Some? && ParseInt(Split(t, ':')[1]).Some?) ==>
            forall k :: 0 <= k < |t| ==> !IsAsciiLetter(t[k])
  {
    var parts := Split(t, ':');
    if |parts| == 2 {
      ParseIntChars(parts[0]);
      ParseIntChars(parts[1]);
      if ParseInt(parts[0]).Some? && ParseInt(parts[1]).Some? {
        SplitTwoParts(t, ':');
        NumeralsAroundColon(parts[0], parts[1]);
      }
    }
  }

  /** `H:M` with two integers becomes the 12-hour rendering of hour `H`, the minute
      padded to two digits: hour 0 is `12:MM AM`, 1 to 11 are AM, 12 is `12:MM PM`
      and later hours lose 12 and are PM. */
  lemma ColonTime(a: string, b: string, h: int, m: int)
    requires ':' !in a && ':' !in b
    requires ParseInt(a) == Some(h) && ParseInt(b) == Some(m)
    ensures NormalizeTime(a + ":" + b) == TwelveHourClock(h, PadInt(m, 2))
    ensures 0 <= m <= 99 ==> |PadInt(m, 2)| == 2
  {
    var t := a + ":" + b;
    SplitOnce(a, b, ':');
    ColonIntegersHaveNoLetters(t);
    forall k | 0 <= k < |t| ensures LowerChar(t[k]) != 'a' && LowerChar(t[k]) != 'p' {
      assert !IsAsciiLetter(t[k]);
    }
    AbsentPair(t, 'a', 'm');
    AbsentPair(t, 'p', 'm');
    ColonIntegersBranch(t, h, m);
    if 0 <= m <= 99 {
      PadNat(m, 2);
    }
  }

  /** `"N pm"` for N from 1 to 11 moves to the afternoon: `N:00 PM`. */
  lemma BareHourPm(n: int)
    requires 1 <= n <= 11
    ensures NormalizeTime(IntToString(n) + " pm") == IntToString(n) + ":" + "00" + " PM"
  {
    var t := IntToString(n) + " pm";
    BarePmPieces(n);
    BareHourBranch(t, IntToString(n), n);
  }

  /** What the bare-hour branch reads from `"N pm"`: the word `N`, a `pm`, hour N + 12. */
  lemma BarePmPieces(n: int)
    requires 1 <= n <= 11
    ensures var t := IntToString(n) + " pm";
      && ':' !in t && FirstWord(t) == Some(IntToString(n)) && ParseInt(IntToString(n)) == Some(n)
      && DayHalf(t, n) == n + 12
  {
    var t := IntToString(n) + " pm";
    IntToStringChars(n);
    assert ':' !in t;
    FirstWordOf(IntToString(n), " pm");
    ParseIntOfString(n);
    PmHalf(IntToString(n), n);
  }

  /** A word followed by `" pm"` is read in the afternoon. */
  lemma PmHalf(w: string, n: int)
    requires 1 <= n <= 11
    ensures DayHalf(w + " pm", n) == n + 12
  {
    SuffixPairAt(w, " pm", 'p', 'm');
  }

  /** `"N am"` for N from 1 to 11 stays in the morning: `N:00 AM`. */
  lemma BareHourAm(n: int)
    requires 1 <= n <= 11
    ensures NormalizeTime(IntToString(n) + " am") == IntToString(n) + ":" + "00" + " AM"
  {
    var t := IntToString(n) + " am";
    BareAmPieces(n);
    BareHourBranch(t, IntToString(n), n);
  }

  /** What the bare-hour branch reads from `"N am"`: the word `N`, no `pm`, hour N. */
  lemma BareAmPieces(n: int)
    requires 1 <= n <= 11
    ensures var t := IntToString(n) + " am";
      && ':' !in t && FirstWord(t) == Some(IntToString(n)) && ParseInt(IntToString(n)) == Some(n)
      && DayHalf(t, n) == n
  {
    var t := IntToString(n) + " am";
    IntToStringChars(n);
    assert ':' !in t;
    FirstWordOf(IntToString(n), " am");
    ParseIntOfString(n);
    NoPmAfterDigits(IntToString(n), " am");
  }

  /** Digits followed by `" am"` hold no `pm`. */
  lemma NoPmAfterDigits(digits: string, suffix: string)
    requires AllDigits(digits) && suffix == " am"
    ensures !Contains(Lower(digits + suffix), "pm")
  {
    var t := digits + suffix;
    forall k | 0 <= k < |t| ensures LowerChar(t[k]) != 'p' {
      if k < |digits| {
        assert IsDigit(t[k]);
      }
    }
    AbsentPair(t, 'p', 'm');
  }

  /** The numeral twelve. */
  const TwelveLabel: string := "12"

  lemma TwelveIsTwelve()
    ensures IntToString(12) == TwelveLabel && ParseInt(TwelveLabel) == Some(12)
  {
    assert NatToString(12) == NatToString(1) + [DigitChar(2)];
    ParseIntOfString(12);
  }

  /** `"12 am"` is midnight: hour 0, shown as `12:00 AM`. */
  lemma MidnightTwelve()
    ensures NormalizeTime(TwelveLabel + " am") == TwelveLabel + ":" + "00" + " AM"
  {
    TwelveIsTwelve();
    TwelveWord(" am");
    MidnightHalf();
    BareHourBranch(TwelveLabel + " am", TwelveLabel, 12);
  }

  /** `"12 pm"` is noon: hour 12, shown as `12:00 PM`. */
  lemma NoonTwelve()
    ensures NormalizeTime(TwelveLabel + " pm") == TwelveLabel + ":" + "00" + " PM"
  {
    TwelveIsTwelve();
    TwelveWord(" pm");
    NoonHalf();
    BareHourBranch(TwelveLabel + " pm", TwelveLabel, 12);
  }

  /** `"12 am"` and `"12 pm"` have no colon and start with the word `12`. */
  lemma TwelveWord(suffix: string)
    requires suffix == " am" || suffix == " pm"
    ensures ':' !in TwelveLabel + suffix && FirstWord(TwelveLabel + suffix) == Some(TwelveLabel)
  {
    assert ':' !in TwelveLabel + suffix;
    FirstWordOf(TwelveLabel, suffix);
  }

  /** `am` without `pm` turns hour 12 into 0. */
  lemma MidnightHalf()
    ensures DayHalf(TwelveLabel + " am", 12) == 0
  {
    SuffixPairAt(TwelveLabel, " am", 'a', 'm');
    NoPmAfterDigits(TwelveLabel, " am");
  }

  /** `pm` keeps hour 12. */
  lemma NoonHalf()
    ensures DayHalf(TwelveLabel + " pm", 12) == 12
  {
    SuffixPairAt(TwelveLabel, " pm", 'p', 'm');
  }

  /** A suffix ending in two lower-case letters puts them in the lowered string. */
  lemma SuffixPairAt(head: string, suffix: string, a: char, b: char)
    requires |suffix| >= 2 && suffix[|suffix| - 2] == a && suffix[|suffix| - 1] == b
    requires 'a' <= a <= 'z' && 'a' <= b <= 'z'
    ensures Contains(Lower(head + suffix), [a, b])
  {
    var t := head + suffix;
    assert t[|t| - 2] == a && t[|t| - 1] == b;
    PairAt(Lower(t), |t| - 2, a, b);
  }

  /** A colon time with a letter in it, such as `"2:30 PM"`, is not two integers and
      is stored as it is. */
  lemma ColonTimeWithLetterKept(t: string, k: nat)
    requires ':' in t && k < |t| && IsAsciiLetter(t[k])
    ensures NormalizeTime(t) == t
  {
    ColonIntegersHaveNoLetters(t);
  }

  /** A time with two colons or more, such as `"1:2:3"`, does not unpack into an hour
      and a minute and is stored as it is. */
  lemma ManyColonsKept(t: string, i: nat, j: nat)
    requires i < j < |t| && t[i] == ':' && t[j] == ':'
    ensures NormalizeTime(t) == t
  {
    SplitMany(t, ':', i, j);
  }

  /** A colon-free time whose first word holds a letter, such as `"2pm"`, is not an
      integer and is stored as it is; so is a blank one. */
  lemma BareWordWithLetterKept(t: string, w: string, k: nat)
    requires ':' !in t && FirstWord(t) == Some(w)
    requires k < |w| && IsAsciiLetter(w[k])
    ensures NormalizeTime(t) == t
  {
    ParseIntRejectsLetter(w, k);
  }

  /** `"2:30 PM"` is kept as it is. */
  lemma KeptClockExample()
    ensures NormalizeTime("2:30 PM") == "2:30 PM"
  {
    ColonTimeWithLetterKept("2:30 PM", 5);
  }

  /** `"2pm"` is kept as it is. */
  lemma KeptWordExample()
    ensures NormalizeTime("2pm") == "2pm"
  {
    TwoPmWord();
    BareWordWithLetterKept("2pm", "2pm", 1);
  }

  /** `"2pm"` is one word, without a colon, with a letter at index 1. */
  lemma TwoPmWord()
    ensures ':' !in "2pm" && FirstWord("2pm") == Some("2pm") && IsAsciiLetter("2pm"[1])
  {
    assert "2pm" + [] == "2pm";
    FirstWordOf("2pm", []);
  }

  /** `"1:2:3"` is kept as it is. */
  lemma KeptColonsExample()
    ensures NormalizeTime("1:2:3") == "1:2:3"
  {
    ManyColonsKept("1:2:3", 1, 3);
  }

  /** `"14:30"` becomes `"2:30 PM"`. */
  lemma AfternoonExample()
    ensures NormalizeTime("14" + ":" + "30") == "2" + ":" + "30" + " PM"
  {
    FourteenThirtyRead();
    ThirtyPadded();
    FourteenOnClock();
  }

  lemma FourteenThirtyRead()
    ensures NormalizeTime("14" + ":" + "30") == TwelveHourClock(14, PadInt(30, 2))
  {
    FourteenParses();
    ThirtyParses();
    NoColonInDigits();
    ColonTime("14", "30", 14, 30);
  }

  lemma NoColonInDigits()
    ensures ':' !in "14" && ':' !in "30"
  {
  }

  lemma FourteenParses()
    ensures ParseInt("14") == Some(14)
  {
    assert DigitsValue("14") == 14 by {
      assert "14"[..1][..0] == [];
    }
    ParseIntDigits("14");
  }

  lemma ThirtyParses()
    ensures ParseInt("30") == Some(30)
  {
    assert DigitsValue("30") == 30 by {
      assert "30"[..1][..0] == [];
    }
    ParseIntDigits("30");
  }

  lemma ThirtyPadded()
    ensures PadInt(30, 2) == "30"
  {
    assert NatToString(30) == NatToString(3) + [DigitChar(0)];
  }

  lemma FourteenOnClock()
    ensures ClockHour(14) == "2"
  {
  }

  // ---------------------------------------------------------------------------
  // Date
  // ---------------------------------------------------------------------------

  /** A date already written `YYYY-MM-DD` is kept as it is when the natural-language
      parser finds nothing: only `%Y-%m-%d` fits it, and it renders back the same. */
  lemma IsoDateKept(d: Date)
    ensures NormalizeDate(FormatIso(d), NotParsed) == FormatIso(d)
  {
    IsoFitsThird(d);
    ThirdFits(FormatIso(d), FallbackFormats, d);
  }

  /** Of the fallback formats, the first two do not fit an ISO date and the third does. */
  lemma IsoFitsThird(d: Date)
    ensures var s, f := FormatIso(d), FallbackFormats;
      && |f| >= 3 && ParseDate(s, f[0]).None? && ParseDate(s, f[1]).None? && ParseDate(s, f[2]) == Some(d)
  {
    FallbackOrder();
    IsoOnlyYearFirst(d);
    IsoRoundTrip(d);
  }

  /** The order in which the fallback formats are tried. */
  lemma FallbackOrder()
    ensures var f := FallbackFormats;
      |f| == 4 && f[0] == SlashMonthDayYear && f[1] == DashMonthDayYear && f[2] == DashYearMonthDay
  {
  }

  /** When only the third format fits among the first three, it decides. */
  lemma ThirdFits(s: string, formats: seq<DateFormat>, d: Date)
    requires |formats| >= 3 && ParseDate(s, formats[0]).None? && ParseDate(s, formats[1]).None?
    requires ParseDate(s, formats[2]) == Some(d)
    ensures FirstFit(s, formats) == Some(d)
  {
    FirstFitHead(s, formats[2..], d);
    assert formats[1..][1..] == formats[2..];
    FirstFitSkip(s, formats[1..]);
    FirstFitSkip(s, formats);
  }

  /** The first format that fits decides. */
  lemma FirstFitHead(s: string, formats: seq<DateFormat>, d: Date)
    requires formats != [] && ParseDate(s, formats[0]) == Some(d)
    ensures FirstFit(s, formats) == Some(d)
  {
  }

  /** A format that does not fit is passed over. */
  lemma FirstFitSkip(s: string, formats: seq<DateFormat>)
    requires formats != [] && ParseDate(s, formats[0]).None?
    ensures FirstFit(s, formats) == FirstFit(s, formats[1..])
  {
  }

  /** `M/D/YYYY` naming a real date is rewritten `YYYY-MM-DD` when the natural-language
      parser finds nothing. */
  lemma SlashDateRewritten(mText: string, dText: string, yText: string)
    requires MonthField(mText).Some? && DayField(dText).Some? && YearField(yText).Some?
    requires ValidDate(CivilDate(YearField(yText).value, MonthField(mText).value, DayField(dText).value))
    ensures NormalizeDate(mText + "/" + dText + "/" + yText, NotParsed)
         == FormatIso(CivilDate(YearField(yText).value, MonthField(mText).value, DayField(dText).value))
  {
    SlashDateParses(mText, dText, yText);
  }

  // ---------------------------------------------------------------------------
  // Fields
  // ---------------------------------------------------------------------------

  /** White space skipping stops at the first non-space. */
  lemma SkipSpacesTo(s: string, i: nat, j: nat)
    requires i <= j <= |s| && (j < |s| ==> !IsSpace(s[j]))
    requires forall k :: i <= k < j ==> IsSpace(s[k])
    ensures SkipSpaces(s, i) == j
  {
  }

  /** A line ends at the first line break. */
  lemma LineEndAt(s: string, i: nat, j: nat)
    requires i <= j <= |s| && (j < |s| ==> s[j] == '\n')
    requires forall k :: i <= k < j ==> s[k] != '\n'
    ensures LineEnd(s, i) == j
  {
  }

  /** The field line read through its three positions: the marker, the first
      non-space after it and the end of that line. */
  lemma FieldLineAt(block: string, marker: string, k: nat, g: nat, e: nat)
    requires IndexOf(block, marker, 0) == Some(k)
    requires k + |marker| <= g <= e <= |block|
    requires SkipSpaces(block, k + |marker|) == g && LineEnd(block, g) == e
    ensures FieldLine(block, marker) == Some(block[g..e])
  {
  }

  /** A line `marker value` read at the first occurrence of `marker`: the value is the
      rest of that line, past any white space after the marker, and trimmed. */
  lemma FieldOnLine(pre: string, marker: string, gap: string, v: string, rest: string)
    requires forall k :: 0 <= k < |pre| ==> !OccursAt(pre + marker + gap + v + rest, marker, k)
    requires forall i :: 0 <= i < |gap| ==> IsSpace(gap[i])
    requires v != [] && !IsSpace(v[0]) && '\n' !in v
    requires rest == [] || rest[0] == '\n'
    ensures FieldLine(pre + marker + gap + v + rest, marker) == Some(v)
    ensures FieldValue(pre + marker + gap + v + rest, marker) == Some(Strip(v))
  {
    var block := pre + marker + gap + v + rest;
    var g := |pre| + |marker| + |gap|;
    MarkerOnLine(pre, marker, gap, v, rest);
    ValueOnLine(pre, marker, gap, v, rest);
    FieldLineAt(block, marker, |pre|, g, g + |v|);
    StrippedLine(block, marker, v);
  }

  /** The marker after `pre` is the first one. */
  lemma MarkerOnLine(pre: string, marker: string, gap: string, v: string, rest: string)
    requires forall k :: 0 <= k < |pre| ==> !OccursAt(pre + marker + gap + v + rest, marker, k)
    ensures IndexOf(pre + marker + gap + v + rest, marker, 0) == Some(|pre|)
  {
    assert pre + marker + (gap + v + rest) == pre + marker + gap + v + rest;
    FirstMarker(pre, marker, gap + v + rest);
  }

  /** Past the marker, the gap is skipped and the value runs to the end of its line. */
  lemma ValueOnLine(pre: string, marker: string, gap: string, v: string, rest: string)
    requires forall i :: 0 <= i < |gap| ==> IsSpace(gap[i])
    requires v != [] && !IsSpace(v[0]) && '\n' !in v
    requires rest == [] || rest[0] == '\n'
    ensures var g := |pre| + |marker| + |gap|; var block := pre + marker + gap + v + rest;
      SkipSpaces(block, |pre| + |marker|) == g && LineEnd(block, g) == g + |v| && block[g..g + |v|] == v
  {
    SpacesThenLine(pre + marker, gap, v, rest);
  }

  /** The field value is its line trimmed. */
  lemma StrippedLine(block: string, marker: string, v: string)
    requires FieldLine(block, marker) == Some(v)
    ensures FieldValue(block, marker) == Some(Strip(v))
  {
  }

  /** The marker after `pre`, when it does not occur earlier, is the first one. */
  lemma FirstMarker(pre: string, marker: string, post: string)
    requires forall k :: 0 <= k < |pre| ==> !OccursAt(pre + marker + post, marker, k)
    ensures IndexOf(pre + marker + post, marker, 0) == Some(|pre|)
  {
    OccursBetween(pre, marker, post);
    IndexOfFirst(pre + marker + post, marker, 0, |pre|);
  }

  /** After `head`, the white space `gap` is skipped up to the first character of `tail`. */
  lemma SkipGap(head: string, gap: string, tail: string)
    requires forall i :: 0 <= i < |gap| ==> IsSpace(gap[i])
    requires tail != [] && !IsSpace(tail[0])
    ensures SkipSpaces(head + gap + tail, |head|) == |head| + |gap|
  {
    var s := head + gap + tail;
    forall i | |head| <= i < |head| + |gap| ensures IsSpace(s[i]) {
      assert s[i] == gap[i - |head|];
    }
    assert s[|head| + |gap|] == tail[0];
    SkipSpacesTo(s, |head|, |head| + |gap|);
  }

  /** After `head`, a line `v` without line break ends where `rest` starts. */
  lemma LineOf(head: string, v: string, rest: string)
    requires '\n' !in v && (rest == [] || rest[0] == '\n')
    ensures LineEnd(head + v + rest, |head|) == |head| + |v|
    ensures (head + v + rest)[|head|..|head| + |v|] == v
  {
    var s := head + v + rest;
    forall i | |head| <= i < |head| + |v| ensures s[i] != '\n' {
      assert s[i] == v[i - |head|];
    }
    if rest != [] {
      assert s[|head| + |v|] == rest[0];
    }
    LineEndAt(s, |head|, |head| + |v|);
    assert s[|head|..|head| + |v|] == v;
  }

  /** After `head`, white space `gap` is skipped and the line `v` runs up to `rest`. */
  lemma SpacesThenLine(head: string, gap: string, v: string, rest: string)
    requires forall i :: 0 <= i < |gap| ==> IsSpace(gap[i])
    requires v != [] && !IsSpace(v[0]) && '\n' !in v
    requires rest == [] || rest[0] == '\n'
    ensures var s := head + gap + v + rest;
      && SkipSpaces(s, |head|) == |head| + |gap|
      && LineEnd(s, |head| + |gap|) == |head| + |gap| + |v|
      && s[|head| + |gap|..|head| + |gap| + |v|] == v
  {
    SkipGap(head, gap, v + rest);
    Regroup(head + gap, v, rest);
    LineOf(head + gap, v, rest);
  }

  lemma Regroup(a: string, b: string, c: string)
    ensures a + (b + c) == a + b + c
  {
  }

  /** A marker with nothing after it on its line takes the next line as its value. */
  lemma EmptyValueTakesNextLine(marker: string, v: string)
    requires v != [] && !IsSpace(v[0]) && '\n' !in v
    ensures FieldValue(marker + "\n" + v, marker) == Some(Strip(v))
  {
    assert marker + "\n" + v == [] + marker + "\n" + v + [];
    FieldOnLine([], marker, "\n", v, []);
  }

  // ---------------------------------------------------------------------------
  // Sections
  // ---------------------------------------------------------------------------

  /** A tag occurs only where its first character, `<`, is. */
  lemma TagStartsWithBracket(s: string, tag: string, k: int)
    requires tag == OpenTag || tag == CloseTag
    ensures OccursAt(s, tag, k) ==> s[k] == '<'
  {
    if OccursAt(s, tag, k) {
      assert s[k..k + |tag|][0] == s[k];
    }
  }

  /** The section found when the first opening tag is the one after `pre` and `body`
      holds no closing tag. */
  lemma SectionFound(pre: string, body: string, post: string)
    requires forall k :: 0 <= k < |pre| ==> !OccursAt(pre + OpenTag + body + CloseTag + post, OpenTag, k)
    requires forall k :: |pre| + |OpenTag| <= k < |pre| + |OpenTag| + |body| ==>
               !OccursAt(pre + OpenTag + body + CloseTag + post, CloseTag, k)
    ensures FindSection(pre + OpenTag + body + CloseTag + post, 0)
         == Some((|pre|, |pre| + |OpenTag| + |body|))
  {
    OpenAfter(pre, body, post);
    CloseAfter(pre, body, post);
    SectionOfIndices(pre, body, post);
  }

  /** The first opening tag is the one after `pre`. */
  lemma OpenAfter(pre: string, body: string, post: string)
    requires forall k :: 0 <= k < |pre| ==> !OccursAt(pre + OpenTag + body + CloseTag + post, OpenTag, k)
    ensures IndexOf(pre + OpenTag + body + CloseTag + post, OpenTag, 0) == Some(|pre|)
  {
    var s := pre + OpenTag + body + CloseTag + post;
    OccursBetween(pre, OpenTag, body + CloseTag + post);
    RegroupTail(pre + OpenTag, body, CloseTag, post);
    IndexOfFirst(s, OpenTag, 0, |pre|);
  }

  /** The first closing tag after that opening tag is the one after `body`. */
  lemma CloseAfter(pre: string, body: string, post: string)
    requires forall k :: |pre| + |OpenTag| <= k < |pre| + |OpenTag| + |body| ==>
               !OccursAt(pre + OpenTag + body + CloseTag + post, CloseTag, k)
    ensures IndexOf(pre + OpenTag + body + CloseTag + post, CloseTag, |pre| + |OpenTag|)
         == Some(|pre| + |OpenTag| + |body|)
  {
    var s := pre + OpenTag + body + CloseTag + post;
    OccursBetween(pre + OpenTag + body, CloseTag, post);
    IndexOfFirst(s, CloseTag, |pre| + |OpenTag|, |pre| + |OpenTag| + |body|);
  }

  lemma RegroupTail(a: string, b: string, c: string, d: string)
    ensures a + (b + c + d) == a + b + c + d
  {
  }

  /** The section found from the positions of its two tags. */
  lemma SectionOfIndices(pre: string, body: string, post: string)
    requires IndexOf(pre + OpenTag + body + CloseTag + post, OpenTag, 0) == Some(|pre|)
    requires IndexOf(pre + OpenTag + body + CloseTag + post, CloseTag, |pre| + |OpenTag|)
          == Some(|pre| + |OpenTag| + |body|)
    ensures FindSection(pre + OpenTag + body + CloseTag + post, 0)
         == Some((|pre|, |pre| + |OpenTag| + |body|))
  {
  }

  /** With no `<` from `from` on, nothing is cut. */
  lemma NothingToCut(s: string, from: nat)
    requires from <= |s| && forall k :: from <= k < |s| ==> s[k] != '<'
    ensures FindSection(s, from).None? && RemoveSections(s, from) == s[from..]
  {
    forall k | from <= k ensures !OccursAt(s, OpenTag, k) {
      TagStartsWithBracket(s, OpenTag, k);
    }
  }

  /** No opening tag starts inside a `pre` without `<`. */
  lemma NoOpenInPrefix(pre: string, rest: string)
    requires '<' !in pre
    ensures forall k :: 0 <= k < |pre| ==> !OccursAt(pre + rest, OpenTag, k)
  {
    forall k | 0 <= k < |pre| ensures !OccursAt(pre + rest, OpenTag, k) {
      assert (pre + rest)[k] == pre[k];
      TagStartsWithBracket(pre + rest, OpenTag, k);
    }
  }

  /** No closing tag starts inside a `body` without `<`. */
  lemma NoCloseInBody(head: string, body: string, rest: string)
    requires '<' !in body
    ensures forall k :: |head| <= k < |head| + |body| ==> !OccursAt(head + body + rest, CloseTag, k)
  {
    forall k | |head| <= k < |head| + |body| ensures !OccursAt(head + body + rest, CloseTag, k) {
      assert (head + body + rest)[k] == body[k - |head|];
      TagStartsWithBracket(head + body + rest, CloseTag, k);
    }
  }

  /** The single section of `pre + OpenTag + body + CloseTag + post` is found. */
  lemma OnlySectionFound(pre: string, body: string, post: string)
    requires '<' !in pre && '<' !in body
    ensures FindSection(pre + OpenTag + body + CloseTag + post, 0)
         == Some((|pre|, |pre| + |OpenTag| + |body|))
  {
    NoOpenInPrefix(pre, OpenTag + body + CloseTag + post);
    assert pre + (OpenTag + body + CloseTag + post) == pre + OpenTag + body + CloseTag + post;
    NoCloseInBody(pre + OpenTag, body, CloseTag + post);
    assert pre + OpenTag + body + (CloseTag + post) == pre + OpenTag + body + CloseTag + post;
    SectionFound(pre, body, post);
  }

  /** Cutting the section out of such a reply leaves `pre + post`. */
  lemma OnlySectionCut(pre: string, body: string, post: string)
    requires '<' !in pre && '<' !in body && '<' !in post
    ensures RemoveSections(pre + OpenTag + body + CloseTag + post, 0) == pre + post
  {
    var s := pre + OpenTag + body + CloseTag + post;
    var head := pre + OpenTag + body + CloseTag;
    assert s == head + post;
    OnlySectionFound(pre, body, post);
    var e := |head|;
    forall k | e <= k < |s| ensures s[k] != '<' {
      assert s[k] == post[k - e];
    }
    NothingToCut(s, e);
    assert s[e..] == post && s[0..|pre|] == pre;
  }

  /** The body of that section lies between the tags. */
  lemma OnlySectionBody(pre: string, body: string, post: string)
    ensures (pre + OpenTag + body + CloseTag + post)[|pre| + |OpenTag|..|pre| + |OpenTag| + |body|] == body
  {
    var head := pre + OpenTag;
    assert pre + OpenTag + body + CloseTag + post == head + body + (CloseTag + post);
  }

  /** A reply that is prose, one section whose body has no `<`, and more prose: the
      details are read from that body and the text is the two pieces of prose joined
      and trimmed. */
  lemma OneSection(pre: string, body: string, post: string, natural: string -> NaturalParse)
    requires '<' !in pre && '<' !in body && '<' !in post
    ensures Extract(pre + OpenTag + body + CloseTag + post, natural)
         == (Some(ParseBlock(Strip(body), natural)), Strip(pre + post))
  {
    OneSectionDetails(pre, body, post, natural);
    OneSectionText(pre, body, post, natural);
  }

  /** The details of such a reply are read from its one body. */
  lemma OneSectionDetails(pre: string, body: string, post: string, natural: string -> NaturalParse)
    requires '<' !in pre && '<' !in body && '<' !in post
    ensures Extract(pre + OpenTag + body + CloseTag + post, natural).0 == Some(ParseBlock(Strip(body), natural))
  {
    var text := pre + OpenTag + body + CloseTag + post;
    OnlySectionFound(pre, body, post);
    OnlySectionBody(pre, body, post);
    DetailsAt(text, |pre|, |pre| + |OpenTag| + |body|, body, natural);
  }

  /** The text of such a reply is its prose joined and trimmed. */
  lemma OneSectionText(pre: string, body: string, post: string, natural: string -> NaturalParse)
    requires '<' !in pre && '<' !in body && '<' !in post
    ensures Extract(pre + OpenTag + body + CloseTag + post, natural).1 == Strip(pre + post)
  {
    var text := pre + OpenTag + body + CloseTag + post;
    OnlySectionFound(pre, body, post);
    OnlySectionCut(pre, body, post);
    CleanedAt(text, |pre|, |pre| + |OpenTag| + |body|, natural);
  }

  /** The details extracted once the first section is known. */
  lemma DetailsAt(text: string, o: nat, c: nat, body: string, natural: string -> NaturalParse)
    requires FindSection(text, 0) == Some((o, c))
    requires o + |OpenTag| <= c <= |text| && text[o + |OpenTag|..c] == body
    ensures Extract(text, natural).0 == Some(ParseBlock(Strip(body), natural))
  {
  }

  /** The text returned once a section is known to exist. */
  lemma CleanedAt(text: string, o: nat, c: nat, natural: string -> NaturalParse)
    requires FindSection(text, 0) == Some((o, c))
    ensures Extract(text, natural).1 == Strip(RemoveSections(text, 0))
  {
  }

  /** For such a reply, extracting again from the returned text finds no section and
      returns the text unchanged. */
  lemma OneSectionCleanIsFinal(pre: string, body: string, post: string, natural: string -> NaturalParse)
    requires '<' !in pre && '<' !in body && '<' !in post
    ensures var clean := Extract(pre + OpenTag + body + CloseTag + post, natural).1;
      Extract(clean, natural) == (None, clean)
  {
    OneSection(pre, body, post, natural);
    BracketFreeStrip(pre + post);
    NoBracketUnchanged(Strip(pre + post), natural);
  }

  /** Trimming text without `<` gives text without `<` that trims to itself. */
  lemma BracketFreeStrip(s: string)
    requires '<' !in s
    ensures '<' !in Strip(s) && Strip(Strip(s)) == Strip(s)
  {
    StripChars(s);
    StripIdempotent(s);
  }

  /** Trimmed text without `<` holds no section and is returned as it is. */
  lemma NoBracketUnchanged(clean: string, natural: string -> NaturalParse)
    requires '<' !in clean && Strip(clean) == clean
    ensures Extract(clean, natural) == (None, clean)
  {
    NothingToCut(clean, 0);
    assert clean[0..] == clean;
  }

  /** The two halves of an opening tag, split after its underscore. */
  const TagHead: string := "<APPOINTMENT_"
  const TagTail: string := "DETAILS>"

  /** A reply with an empty section spliced into the middle of an opening tag, and a
      closing tag after the whole. */
  const SplicedReply: string := TagHead + OpenTag + CloseTag + TagTail + CloseTag

  lemma TagHalves()
    ensures TagHead + TagTail == OpenTag && |TagHead| == 13
  {
  }

  /** The opening tag after the head is the first one: the head's own `<` is followed
      by a second `<` where a `D` would have to be. */
  lemma SplicedFirstOpen()
    ensures forall k :: 0 <= k < |TagHead| ==> !OccursAt(SplicedReply, OpenTag, k)
  {
    var s := SplicedReply;
    assert s == TagHead + (OpenTag + CloseTag + TagTail + CloseTag);
    forall k | 0 <= k < |TagHead| ensures !OccursAt(s, OpenTag, k) {
      if k == 0 {
        assert s[0..|OpenTag|][13] == s[13] == OpenTag[0] != OpenTag[13];
      } else {
        assert s[k] == TagHead[k];
        TagStartsWithBracket(s, OpenTag, k);
      }
    }
  }

  /** After the spliced section only the tail and a closing tag remain, and no opening
      tag starts there. */
  lemma SplicedRest()
    ensures var e := |TagHead| + |OpenTag| + |CloseTag|;
      e <= |SplicedReply| && RemoveSections(SplicedReply, e) == TagTail + CloseTag
  {
    var s := SplicedReply;
    var e := |TagHead| + |OpenTag| + |CloseTag|;
    assert s == TagHead + OpenTag + CloseTag + (TagTail + CloseTag);
    var b := e + |TagTail|;
    forall k | e <= k ensures !OccursAt(s, OpenTag, k) {
      TagStartsWithBracket(s, OpenTag, k);
      if e <= k < b {
        assert s[k] == TagTail[k - e];
      } else if k == b {
        assert s[k..k + |OpenTag|][1] == s[k + 1] == CloseTag[1] != OpenTag[1];
      } else if k < |s| {
        assert s[k] == CloseTag[k - b];
      }
    }
    assert s[e..] == TagTail + CloseTag;
  }

  /** The section in the spliced reply is the empty one between the inner tags. */
  lemma SplicedSection()
    ensures FindSection(SplicedReply, 0) == Some((|TagHead|, |TagHead| + |OpenTag|))
  {
    SplicedFirstOpen();
    assert SplicedReply == TagHead + OpenTag + [] + CloseTag + (TagTail + CloseTag);
    SectionFound(TagHead, [], TagTail + CloseTag);
  }

  /** Cutting the section out of the spliced reply joins the halves of the outer tag. */
  lemma SplicedCut()
    ensures RemoveSections(SplicedReply, 0) == OpenTag + CloseTag
  {
    SplicedSection();
    SplicedRest();
    TagHalves();
    assert SplicedReply[0..|TagHead|] == TagHead;
  }

  /** A block with no labels holds no field. */
  lemma EmptyBlockHasNoDetails(natural: string -> NaturalParse)
    ensures ParseBlock([], natural) == NoDetails
  {
  }

  /** The text returned for the spliced reply is an empty section. */
  lemma SplicedClean(natural: string -> NaturalParse)
    ensures Extract(SplicedReply, natural).1 == OpenTag + CloseTag
  {
    SplicedSection();
    SplicedCut();
    TagsStripped();
    CleanFromCut(SplicedReply, |TagHead|, |TagHead| + |OpenTag|, OpenTag + CloseTag, natural);
  }

  /** Two tags side by side are already trimmed. */
  lemma TagsStripped()
    ensures Strip(OpenTag + CloseTag) == OpenTag + CloseTag
  {
    StripNoop(OpenTag + CloseTag);
  }

  /** Once a section is found and the cut text is known and trimmed, that text is what
      extraction returns. */
  lemma CleanFromCut(text: string, o: nat, c: nat, cut: string, natural: string -> NaturalParse)
    requires FindSection(text, 0) == Some((o, c))
    requires RemoveSections(text, 0) == cut && Strip(cut) == cut
    ensures Extract(text, natural).1 == cut
  {
    CleanedAt(text, o, c, natural);
  }

  /** An empty section yields details with every field absent. */
  lemma EmptySection(natural: string -> NaturalParse)
    ensures Extract(OpenTag + CloseTag, natural).0 == Some(NoDetails)
  {
    var clean := OpenTag + CloseTag;
    assert clean == [] + OpenTag + [] + CloseTag + [];
    OnlySectionFound([], [], []);
    OnlySectionBody([], [], []);
    DetailsAt(clean, 0, |OpenTag|, [], natural);
    EmptyBlockHasNoDetails(natural);
  }

  /** Cutting sections can join the pieces of a tag around a section into a new one: the
      text returned for the spliced reply is a complete, empty section, so extracting
      from it again finds details. */
  lemma SplicedTagsReappear(natural: string -> NaturalParse)
    ensures Extract(SplicedReply, natural).1 == OpenTag + CloseTag
    ensures Extract(Extract(SplicedReply, natural).1, natural).0 == Some(NoDetails)
  {
    SplicedClean(natural);
    EmptySection(natural);
  }
}
