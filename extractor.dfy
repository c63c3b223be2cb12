/** `extract_appointment_details` (src/utils.py): the details section the assistant's
    reply carries, its `key: value` fields, the canonical forms of the date and the
    time, and the reply with every section cut out. */
module Extractor {
  import opened Wrappers
  import opened Text
  import opened Calendar

  const OpenTag: string := "<APPOINTMENT_DETAILS>"
  const CloseTag: string := "</APPOINTMENT_DETAILS>"

  // ---------------------------------------------------------------------------
  // Sections: `<APPOINTMENT_DETAILS>(.*?)</APPOINTMENT_DETAILS>` with DOTALL
  // ---------------------------------------------------------------------------

  /** An opening tag at `o` whose nearest closing tag is at `c`: the non-greedy match
      that starts at `o`. */
  predicate SectionAt(s: string, o: int, c: int) {
    && OccursAt(s, OpenTag, o)
    && o + |OpenTag| <= c
    && OccursAt(s, CloseTag, c)
    && forall k :: o + |OpenTag| <= k < c ==> !OccursAt(s, CloseTag, k)
  }

  /** `re.search` from `from`: the first section at or after `from`, as the positions of
      its two tags. It starts at the first opening tag, and there is none exactly when
      no opening tag has a closing tag after it. */
  function FindSection(s: string, from: nat): (r: Option<(nat, nat)>)
    ensures r.Some? ==> from <= r.value.0 && SectionAt(s, r.value.0, r.value.1)
    ensures r.Some? ==> forall k :: from <= k < r.value.0 ==> !OccursAt(s, OpenTag, k)
    ensures r.None? ==> forall o, c :: from <= o && OccursAt(s, OpenTag, o) && o + |OpenTag| <= c ==>
                                       !OccursAt(s, CloseTag, c)
  {
    match IndexOf(s, OpenTag, from)
    case None => None
    case Some(o) =>
      match IndexOf(s, CloseTag, o + |OpenTag|)
      case None => None
      case Some(c) => Some((o, c))
  }

  /** `re.sub(pattern, '', s[from..], flags=re.DOTALL)`: every section, scanning left to
      right, cut out. */
  function RemoveSections(s: string, from: nat): string
    requires from <= |s|
    decreases |s| - from
  {
    match FindSection(s, from)
    case None => s[from..]
    case Some((o, c)) =>
      assert c + |CloseTag| <= |s|;
      s[from..o] + RemoveSections(s, c + |CloseTag|)
  }

  // ---------------------------------------------------------------------------
  // Fields: `key:\s*(.*)`
  // ---------------------------------------------------------------------------

  /** The first non-space position at or after `i`. */
  function SkipSpaces(s: string, i: nat): (k: nat)
    requires i <= |s|
    ensures i <= k <= |s| && (k < |s| ==> !IsSpace(s[k]))
    ensures forall j :: i <= j < k ==> IsSpace(s[j])
    decreases |s| - i
  {
    if i == |s| || !IsSpace(s[i]) then i else SkipSpaces(s, i + 1)
  }

  /** The end of the line that holds position `i`. */
  function LineEnd(s: string, i: nat): (k: nat)
    requires i <= |s|
    ensures i <= k <= |s| && (k < |s| ==> s[k] == '\n')
    ensures forall j :: i <= j < k ==> s[j] != '\n'
    decreases |s| - i
  {
    if i == |s| || s[i] == '\n' then i else LineEnd(s, i + 1)
  }

  /** The labels of the six fields. */
  const NameLabel: string := "name:"
  const EmailLabel: string := "email:"
  const DateLabel: string := "date:"
  const TimeLabel: string := "time:"
  const PurposeLabel: string := "purpose:"
  const ActionLabel: string := "action:"

  /** `re.search(marker + r'\s*(.*)', block).group(1)`: the text after the first
      occurrence of `marker`, past any white space (line breaks included), up to the end of
      that line. It is absent exactly when `marker` does not occur in the block. */
  function FieldLine(block: string, marker: string): Option<string> {
    match IndexOf(block, marker, 0)
    case None => None
    case Some(k) =>
      var v := SkipSpaces(block, k + |marker|);
      Some(block[v..LineEnd(block, v)])
  }

  /** What `FieldLine` reads: nothing exactly when the marker is missing, otherwise a
      single line that does not start with white space. */
  lemma FieldLineMeaning(block: string, marker: string)
    ensures FieldLine(block, marker).None? <==> !Contains(block, marker)
    ensures FieldLine(block, marker).Some? ==>
      var line := FieldLine(block, marker).value;
      (line == [] || !IsSpace(line[0])) && '\n' !in line
  {
  }

  /** The field value: that line with `.strip()` applied. */
  function FieldValue(block: string, marker: string): (r: Option<string>)
    ensures r.None? <==> !Contains(block, marker)
    ensures r.Some? ==> r.value == Strip(r.value)
  {
    FieldLineMeaning(block, marker);
    match FieldLine(block, marker)
    case None => None
    case Some(line) =>
      StripIdempotent(line);
      Some(Strip(line))
  }

  // ---------------------------------------------------------------------------
  // Time: `H:MM AM/PM`
  // ---------------------------------------------------------------------------

  /** The hour a 12-hour clock shows for a 24-hour `hour`: 0 and 12 show as 12, later
      hours lose 12. */
  function ClockHour(hour: int): string {
    if hour == 0 || hour == 12 then "12"
    else if hour < 12 then IntToString(hour)
    else IntToString(hour - 12)
  }

  /** The 12-hour rendering `H:MM AM/PM` of a 24-hour `hour`: before noon is AM. */
  function TwelveHourClock(hour: int, minutes: string): string {
    ClockHour(hour) + ":" + minutes + (if hour < 12 then " AM" else " PM")
  }

  /** The time canonicalisation of `extract_appointment_details`. A string with a colon
      must be two integers around it; one without must start with an integer word, which
      `pm` moves to the afternoon and `12 am` to midnight. Anything that fails to parse
      stays as it is. */
  function NormalizeTime(t: string): string {
    if ':' in t then
      var parts := Split(t, ':');
      if |parts| != 2 then t
      else
        var hour, minute := ParseInt(parts[0]), ParseInt(parts[1]);
        if hour.None? || minute.None? then t
        else if !Contains(Lower(t), "am") && !Contains(Lower(t), "pm") then
          TwelveHourClock(hour.value, PadInt(minute.value, 2))
        else t
    else
      var word := FirstWord(t);
      if word.None? || ParseInt(word.value).None? then t
      else TwelveHourClock(DayHalf(t, ParseInt(word.value).value), "00")
  }

  /** The hour a bare number names: `pm` moves hours before noon to the afternoon, and
      `12 am` is midnight. */
  function DayHalf(t: string, h: int): int {
    if Contains(Lower(t), "pm") then (if h < 12 then h + 12 else h)
    else if Contains(Lower(t), "am") && h == 12 then 0
    else h
  }

  /** The imperative time branch, reassigning the time string as the source does. */
  method CanonicalTime(timeStr: string) returns (t: string)
    ensures t == NormalizeTime(timeStr)
  {
    if ':' in timeStr {
      t := ColonTime(timeStr);
    } else {
      t := BareHourTime(timeStr);
    }
  }

  /** `hour, minute = map(int, time_str.split(':'))`, then the 24-hour to 12-hour split. */
  method ColonTime(timeStr: string) returns (t: string)
    requires ':' in timeStr
    ensures t == NormalizeTime(timeStr)
  {
    t := timeStr;
    var parts := Split(t, ':');
    if |parts| == 2 {
      var hour, minute := ParseInt(parts[0]), ParseInt(parts[1]);
      if hour.Some? && minute.Some? {
        if !Contains(Lower(t), "am") && !Contains(Lower(t), "pm") {
          t := TwelveHour(hour.value, PadInt(minute.value, 2));
        }
      }
    }
  }

  /** `hour = int(time_str.split()[0])`, moved by `pm` / `am`, then the same split. */
  method BareHourTime(timeStr: string) returns (t: string)
    requires ':' !in timeStr
    ensures t == NormalizeTime(timeStr)
  {
    t := timeStr;
    var word := FirstWord(t);
    if word.Some? {
      var parsed := ParseInt(word.value);
      if parsed.Some? {
        var hour := parsed.value;
        if Contains(Lower(t), "pm") {
          if hour < 12 {
            hour := hour + 12;
          }
        } else if Contains(Lower(t), "am") && hour == 12 {
          hour := 0;
        }
        t := TwelveHour(hour, "00");
      }
    }
  }

  /** The four-way case split on the hour that both branches share. */
  method TwelveHour(hour: int, minutes: string) returns (t: string)
    ensures t == TwelveHourClock(hour, minutes)
  {
    if hour == 0 {
      t := "12" + ":" + minutes + " AM";
    } else if hour < 12 {
      t := IntToString(hour) + ":" + minutes + " AM";
    } else if hour == 12 {
      t := "12" + ":" + minutes + " PM";
    } else {
      t := IntToString(hour - 12) + ":" + minutes + " PM";
    }
  }

  // ---------------------------------------------------------------------------
  // Date: `YYYY-MM-DD`
  // ---------------------------------------------------------------------------

  /** What the natural-language date parser does with a string: a date, nothing, or an
      exception. */
  datatype NaturalParse = Parsed(date: Date) | NotParsed | Raised

  /** The fixed formats tried, in order, when the natural-language parser finds nothing. */
  const FallbackFormats: seq<DateFormat> :=
    [SlashMonthDayYear, DashMonthDayYear, DashYearMonthDay, SlashYearMonthDay]

  /** The date read by the first of `formats` that fits `s`. */
  function FirstFit(s: string, formats: seq<DateFormat>): (r: Option<Date>)
    ensures r.Some? ==> exists i :: 0 <= i < |formats| && ParseDate(s, formats[i]) == r
    ensures r.Some? <==> exists i :: 0 <= i < |formats| && ParseDate(s, formats[i]).Some?
  {
    if formats == [] then None
    else match ParseDate(s, formats[0])
      case Some(d) => Some(d)
      case None =>
        var r := FirstFit(s, formats[1..]);
        assert forall i :: 1 <= i < |formats| ==> formats[i] == formats[1..][i - 1];
        r
  }

  /** The date canonicalisation of `extract_appointment_details`: the natural-language
      parse if it gives a date, otherwise the first fixed format that fits, rendered as
      `YYYY-MM-DD`; the string itself when the parser raises or nothing fits. */
  function NormalizeDate(dateStr: string, natural: NaturalParse): (r: string)
    ensures r == dateStr || exists d: Date :: r == FormatIso(d)
  {
    match natural
    case Raised => dateStr
    case Parsed(d) => FormatIso(d)
    case NotParsed =>
      match FirstFit(dateStr, FallbackFormats)
      case Some(d) => FormatIso(d)
      case None => dateStr
  }

  /** The imperative date branch: the loop over the fixed formats that stops at the
      first one that fits. */
  method CanonicalDate(dateStr: string, natural: NaturalParse) returns (date: string)
    ensures date == NormalizeDate(dateStr, natural)
  {
    match natural {
      case Raised =>
        date := dateStr;
      case Parsed(d) =>
        date := FormatIso(d);
      case NotParsed =>
        var found: Option<Date> := None;
        var i := 0;
        while i < |FallbackFormats|
          invariant 0 <= i <= |FallbackFormats|
          invariant found.None? ==> FirstFit(dateStr, FallbackFormats) == FirstFit(dateStr, FallbackFormats[i..])
          invariant found.Some? ==> found == FirstFit(dateStr, FallbackFormats)
        {
          var parsed := ParseDate(dateStr, FallbackFormats[i]);
          if parsed.Some? {
            found := parsed;
            break;
          }
          assert FallbackFormats[i..][1..] == FallbackFormats[i + 1..];
          i := i + 1;
        }
        if found.None? {
          date := dateStr;
        } else {
          date := FormatIso(found.value);
        }
    }
  }

  // ---------------------------------------------------------------------------
  // The whole extraction
  // ---------------------------------------------------------------------------

  /** The `details` dictionary: one entry per field line found. */
  datatype Details = Details(
    name: Option<string>,
    email: Option<string>,
    date: Option<string>,
    time: Option<string>,
    purpose: Option<string>,
    action: Option<string>)
  {
    /** An empty dictionary, which Python treats as false. */
    predicate IsEmpty() {
      name.None? && email.None? && date.None? && time.None? && purpose.None? && action.None?
    }
  }

  const NoDetails := Details(None, None, None, None, None, None)

  /** The fields of a section's trimmed body, with the date and the time canonicalised. */
  function ParseBlock(block: string, natural: string -> NaturalParse): (d: Details)
    ensures d.date.Some? <==> Contains(block, DateLabel)
    ensures d.time.Some? <==> Contains(block, TimeLabel)
  {
    var date := FieldValue(block, DateLabel);
    var time := FieldValue(block, TimeLabel);
    Details(
      FieldValue(block, NameLabel),
      FieldValue(block, EmailLabel),
      if date.Some? then Some(NormalizeDate(date.value, natural(date.value))) else None,
      if time.Some? then Some(NormalizeTime(time.value)) else None,
      FieldValue(block, PurposeLabel),
      FieldValue(block, ActionLabel))
  }

  /** `extract_appointment_details(response_text)`: the fields of the first section, and
      the trimmed text with every section cut out. With no section the details are
      absent and the text is only trimmed. */
  function Extract(text: string, natural: string -> NaturalParse): (Option<Details>, string) {
    match FindSection(text, 0)
    case None => (None, Strip(text))
    case Some((o, c)) =>
      (Some(ParseBlock(Strip(text[o + |OpenTag|..c]), natural)), Strip(RemoveSections(text, 0)))
  }

  /** Details are absent exactly when no opening tag has a closing tag after it, and
      then the text is only trimmed. */
  lemma ExtractAbsent(text: string, natural: string -> NaturalParse)
    ensures Extract(text, natural).0.None? <==>
            forall o, c :: OccursAt(text, OpenTag, o) && o + |OpenTag| <= c ==> !OccursAt(text, CloseTag, c)
    ensures Extract(text, natural).0.None? ==> Extract(text, natural).1 == Strip(text)
  {
    var r := FindSection(text, 0);
    if r.Some? {
      assert SectionAt(text, r.value.0, r.value.1);
    }
  }

  /** The extraction as the source performs it: the dictionary filled key by key. */
  method ExtractAppointmentDetails(responseText: string, natural: string -> NaturalParse)
    returns (details: Option<Details>, cleanResponse: string)
    ensures (details, cleanResponse) == Extract(responseText, natural)
  {
    var found := FindSection(responseText, 0);
    if found.None? {
      return None, Strip(responseText);
    }
    var (o, c) := found.value;
    var detailsText := Strip(responseText[o + |OpenTag|..c]);
    var d := NoDetails;
    var nameValue := FieldValue(detailsText, NameLabel);
    var emailValue := FieldValue(detailsText, EmailLabel);
    var dateValue := FieldValue(detailsText, DateLabel);
    var timeValue := FieldValue(detailsText, TimeLabel);
    var purposeValue := FieldValue(detailsText, PurposeLabel);
    var actionValue := FieldValue(detailsText, ActionLabel);
    if nameValue.Some? {
      d := d.(name := nameValue);
    }
    if emailValue.Some? {
      d := d.(email := emailValue);
    }
    if dateValue.Some? {
      var date := CanonicalDate(dateValue.value, natural(dateValue.value));
      d := d.(date := Some(date));
    }
    if timeValue.Some? {
      var time := CanonicalTime(timeValue.value);
      d := d.(time := Some(time));
    }
    if purposeValue.Some? {
      d := d.(purpose := purposeValue);
    }
    if actionValue.Some? {
      d := d.(action := actionValue);
    }
    details := Some(d);
    cleanResponse := Strip(RemoveSections(responseText, 0));
  }
}
