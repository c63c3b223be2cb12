/** The keyword-driven front end of `app.py`: three tools over an `appointments` table
    without an email column (`book_appointment`, `get_appointments`,
    `get_next_appointment`), the clean-up `extract_appointment_details` applies to what
    its patterns capture, and the routing of `process_message`. The regular expressions
    themselves are not modelled: their captured groups are inputs, and so are today's
    date, tomorrow's date and the current time. */
module Frontend {
  import opened Wrappers
  import opened Text
  import opened Calendar
  import Database

  // ---------------------------------------------------------------------------
  // The table
  // ---------------------------------------------------------------------------

  /** A row: `id`, `name`, `date`, `time`, `purpose` (`created_at` is not modelled). */
  datatype Booking = Booking(id: nat, name: string, date: string, time: string, purpose: string)

  /** The rows in rowid order, and the next AUTOINCREMENT id. */
  datatype Ledger = Ledger(rows: seq<Booking>, nextId: nat)

  /** No two rows share both a date and a time. */
  predicate NoClash(rows: seq<Booking>) {
    forall i, j :: 0 <= i < j < |rows| ==> rows[i].date != rows[j].date || rows[i].time != rows[j].time
  }

  /** Every id is below the counter, and no slot is booked twice. */
  predicate WellFormed(l: Ledger) {
    && 0 < l.nextId
    && (forall i :: 0 <= i < |l.rows| ==> l.rows[i].id < l.nextId)
    && NoClash(l.rows)
  }

  /** Some row holds exactly this date and time, whatever its name. */
  predicate Taken(rows: seq<Booking>, date: string, time: string) {
    exists b :: b in rows && b.date == date && b.time == time
  }

  // ---------------------------------------------------------------------------
  // `book_appointment`
  // ---------------------------------------------------------------------------

  const FormatError: string :=
    "Invalid date or time format. Please use YYYY-MM-DD for date and HH:MM for time."
  const ClashHead: string := "Sorry, there's already an appointment scheduled for "
  const BookedHead: string := "Appointment booked successfully for "
  const On: string := " on "
  const At: string := " at "
  const For: string := " for "
  const Period: string := "."

  /** The date passes `strptime(date, '%Y-%m-%d')` and the time `strptime(time, '%H:%M')`. */
  predicate WellSpelled(date: string, time: string) {
    ParseDate(date, DashYearMonthDay).Some? && ParseClock(time).Some?
  }

  /** The table and reply after `book_appointment(name, date, time, purpose)`. */
  function Book(l: Ledger, name: string, date: string, time: string, purpose: string): (Ledger, string) {
    if !WellSpelled(date, time) then (l, FormatError)
    else if Taken(l.rows, date, time) then (l, ClashHead + date + At + time + Period)
    else
      (Ledger(l.rows + [Booking(l.nextId, name, date, time, purpose)], l.nextId + 1),
       BookedHead + name + On + date + At + time + For + purpose + Period)
  }

  // ---------------------------------------------------------------------------
  // `get_appointments`
  // ---------------------------------------------------------------------------

  /** `name LIKE '%name%'` (ASCII case-insensitive substring) when the name is
      non-empty, `date = ?` when the date is non-empty. */
  predicate Wanted(b: Booking, name: Option<string>, date: Option<string>) {
    && (Database.Truthy(name) ==> Contains(Lower(b.name), Lower(name.value)))
    && (Database.Truthy(date) ==> b.date == date.value)
  }

  /** The rows the query returns, in rowid order. */
  function Found(rows: seq<Booking>, name: Option<string>, date: Option<string>): (r: seq<Booking>)
    ensures forall b :: b in r <==> b in rows && Wanted(b, name, date)
  {
    if rows == [] then []
    else if Wanted(rows[0], name, date) then [rows[0]] + Found(rows[1..], name, date)
    else Found(rows[1..], name, date)
  }

  const ListHead: string := "Found the following appointments:\n"
  const Dash: string := "- "
  const NewLine: string := "\n"
  const NoneHead: string := "No appointments found for "
  const NoneAtAll: string := "No appointments found."

  /** One line of the listing. */
  function Line(b: Booking): string {
    Dash + b.name + On + b.date + At + b.time + For + b.purpose + NewLine
  }

  /** The lines of the first `n` rows. */
  function Lines(found: seq<Booking>, n: nat): string
    requires n <= |found|
  {
    if n == 0 then [] else Lines(found, n - 1) + Line(found[n - 1])
  }

  /** The reply when nothing is found, naming the filters that were given. */
  function NothingFound(name: Option<string>, date: Option<string>): string {
    if Database.Truthy(date) && Database.Truthy(name) then NoneHead + name.value + On + date.value + Period
    else if Database.Truthy(date) then NoneHead + date.value + Period
    else if Database.Truthy(name) then NoneHead + name.value + Period
    else NoneAtAll
  }

  /** The reply of `get_appointments(name, date)`. */
  function Listing(rows: seq<Booking>, name: Option<string>, date: Option<string>): string {
    var found := Found(rows, name, date);
    if found == [] then NothingFound(name, date) else ListHead + Lines(found, |found|)
  }

  // ---------------------------------------------------------------------------
  // `get_next_appointment`
  // ---------------------------------------------------------------------------

  /** `date > today OR (date = today AND time >= now)`, compared as text, and the
      optional name filter. */
  predicate Upcoming(b: Booking, name: Option<string>, today: string, now: string) {
    && (Database.TextLess(today, b.date) || (b.date == today && !Database.TextLess(b.time, now)))
    && (Database.Truthy(name) ==> Contains(Lower(b.name), Lower(name.value)))
  }

  /** `ORDER BY date, time`: by date, then by time, as text. */
  predicate Earlier(a: Booking, b: Booking) {
    Database.TextLess(a.date, b.date) || (a.date == b.date && Database.TextLess(a.time, b.time))
  }

  /** The better of the best so far and the next row. */
  function Pick(best: Option<Booking>, b: Booking, name: Option<string>, today: string, now: string): Option<Booking> {
    if !Upcoming(b, name, today, now) then best
    else if best.None? || Earlier(b, best.value) then Some(b)
    else best
  }

  /** `... ORDER BY date, time LIMIT 1` over the rows. */
  function NextOf(rows: seq<Booking>, name: Option<string>, today: string, now: string): Option<Booking> {
    if rows == [] then None
    else Pick(NextOf(rows[..|rows| - 1], name, today, now), rows[|rows| - 1], name, today, now)
  }

  const NoUpcoming: string := "No upcoming appointments found."
  const NextHead: string := "Your next appointment is on "

  function NextText(next: Option<Booking>): string {
    match next
    case None => NoUpcoming
    case Some(b) => NextHead + b.date + At + b.time + For + b.purpose + Period
  }

  // ---------------------------------------------------------------------------
  // `extract_appointment_details`
  // ---------------------------------------------------------------------------

  /** What the four patterns captured (group 1), `None` where a pattern found nothing. */
  datatype Captures = Captures(name: Option<string>, date: Option<string>, time: Option<string>,
                               purpose: Option<string>)

  /** Today's and tomorrow's dates (`%Y-%m-%d`) and the current time (`%H:%M`). */
  datatype Clock = Clock(today: string, tomorrow: string, now: string)

  /** The dictionary `extract_appointment_details` returns. */
  datatype Request = Request(name: string, date: Option<string>, time: Option<string>, purpose: string)

  const Unknown: string := "Unknown"
  const NotSpecified: string := "Not specified"
  const TomorrowWord: string := "tomorrow"
  const TodayWord: string := "today"
  const Pm: string := "pm"
  const PmUpper: string := "PM"
  const Am: string := "am"
  const AmUpper: string := "AM"
  const Century: string := "20"

  /** The characters of `s[i..j]` are all digits. */
  predicate DigitsIn(s: string, i: nat, j: nat) {
    i <= j <= |s| && forall k :: i <= k < j ==> IsDigit(s[k])
  }

  /** `s` starts with `a` digits, a slash, `b` digits, a slash and two digits. */
  predicate SlashAt(s: string, a: nat, b: nat) {
    && a + b + 4 <= |s|
    && DigitsIn(s, 0, a) && s[a] == '/'
    && DigitsIn(s, a + 1, a + 1 + b) && s[a + 1 + b] == '/'
    && DigitsIn(s, a + b + 2, a + b + 4)
  }

  /** `re.match(r'\d{1,2}/\d{1,2}/\d{2,4}', s)` succeeds. */
  predicate SlashDate(s: string) {
    SlashAt(s, 1, 1) || SlashAt(s, 1, 2) || SlashAt(s, 2, 1) || SlashAt(s, 2, 2)
  }

  /** A string with two slashes splits into three pieces or more. */
  lemma SlashDateSplits(s: string)
    requires SlashDate(s)
    ensures |Split(s, '/')| >= 3
  {
    if SlashAt(s, 1, 1) {
      SplitMany(s, '/', 1, 3);
    } else if SlashAt(s, 1, 2) {
      SplitMany(s, '/', 1, 4);
    } else if SlashAt(s, 2, 1) {
      SplitMany(s, '/', 2, 4);
    } else {
      SplitMany(s, '/', 2, 5);
    }
  }

  /** The date rewrite: `M/D/Y` becomes `Y-MM-DD`, a two-digit year gaining `20`;
      any other date is kept. */
  function ConvertDate(s: string): string {
    if SlashDate(s) then
      SlashDateSplits(s);
      var parts := Split(s, '/');
      var year := if |parts[2]| == 2 then Century + parts[2] else parts[2];
      year + "-" + ZeroFill(parts[0], 2) + "-" + ZeroFill(parts[1], 2)
    else s
  }

  /** `s.replace(pat, '')`: every occurrence, scanning left to right, removed. */
  function RemoveAll(s: string, pat: string): (r: string)
    requires pat != []
    ensures |r| <= |s|
    decreases |s|
  {
    if |s| < |pat| then s
    else if s[..|pat|] == pat then RemoveAll(s[|pat|..], pat)
    else [s[0]] + RemoveAll(s[1..], pat)
  }

  /** The time rewrite on the stripped capture: with a colon and "pm" (any case), the
      hour gains 12 when below 12 and the lower- and upper-case suffix is removed from
      the minutes; with a colon and "am", the suffix is removed; anything else is kept.
      `None` where the source raises `ValueError` (more than one colon, or an hour
      that is not an integer). */
  function ConvertTime(t: string): Option<string> {
    if Contains(Lower(t), Pm) && ':' in t then
      var parts := Split(t, ':');
      if |parts| != 2 then None
      else match ParseInt(parts[0])
        case None => None
        case Some(h) =>
          var hour := if h < 12 then h + 12 else h;
          Some(IntToString(hour) + ":" + Strip(RemoveAll(RemoveAll(parts[1], Pm), PmUpper)))
    else if Contains(Lower(t), Am) && ':' in t then
      Some(Strip(RemoveAll(RemoveAll(t, Am), AmUpper)))
    else Some(t)
  }

  /** The date: the captured one rewritten, else tomorrow or today when the message
      says so (tomorrow first), else none. */
  function PickDate(message: string, captured: Option<string>, clock: Clock): Option<string> {
    if captured.Some? then Some(ConvertDate(Strip(captured.value)))
    else if Contains(Lower(message), TomorrowWord) then Some(clock.tomorrow)
    else if Contains(Lower(message), TodayWord) then Some(clock.today)
    else None
  }

  /** `extract_appointment_details(message)`, `None` where it raises. */
  function ExtractDetails(message: string, caps: Captures, clock: Clock): Option<Request> {
    var name := if caps.name.Some? then Strip(caps.name.value) else Unknown;
    var date := PickDate(message, caps.date, clock);
    var purpose := if caps.purpose.Some? then Strip(caps.purpose.value) else NotSpecified;
    match caps.time
    case None => Some(Request(name, date, None, purpose))
    case Some(t) =>
      match ConvertTime(Strip(t))
      case None => None
      case Some(time) => Some(Request(name, date, Some(time), purpose))
  }

  // ---------------------------------------------------------------------------
  // `process_message`
  // ---------------------------------------------------------------------------

  const BookingKeywords: seq<string> := ["book", "schedule", "set up", "arrange", "make"]
  const RetrievalKeywords: seq<string> := ["check", "find", "get", "when", "do i have", "next", "upcoming"]
  const NextWord: string := "next"
  const UpcomingWord: string := "upcoming"

  /** Where a message goes. */
  datatype Route = ToBooking | ToNext | ToLookup | ToFallback

  /** Some keyword occurs in the lowered message. */
  predicate Mentions(lowered: string, keywords: seq<string>) {
    exists i :: 0 <= i < |keywords| && Contains(lowered, keywords[i])
  }

  /** Booking keywords first, then retrieval keywords, "next" or "upcoming" choosing the
      next-appointment lookup. */
  function RouteOf(message: string): Route {
    var lowered := Lower(message);
    if Mentions(lowered, BookingKeywords) then ToBooking
    else if Mentions(lowered, RetrievalKeywords) then
      if Contains(lowered, NextWord) || Contains(lowered, UpcomingWord) then ToNext else ToLookup
    else ToFallback
  }

  const DateWord: string := "date"
  const TimeWord: string := "time"
  const NeedHead: string := "I need more information to book your appointment. Please provide: "
  const Comma: string := ", "
  const Fallback: string :=
    "I can help you book appointments or check your existing appointments. What would you like to do?"

  /** The missing details, date before time. */
  function Missing(r: Request): seq<string> {
    (if r.date.None? then [DateWord] else []) + (if r.time.None? then [TimeWord] else [])
  }

  /** `', '.join(parts)`. */
  function Join(parts: seq<string>, sep: string): string {
    if parts == [] then []
    else if |parts| == 1 then parts[0]
    else parts[0] + sep + Join(parts[1..], sep)
  }

  /** The name `get_next_appointment` is given: the stripped capture of
      `for\s+([A-Za-z\s]+)`, if any. */
  function NextName(forName: Option<string>): Option<string> {
    if forName.Some? then Some(Strip(forName.value)) else None
  }

  /** The name `get_appointments` is given: none for the default. */
  function LookupName(r: Request): Option<string> {
    if r.name != Unknown then Some(r.name) else None
  }

  /** The table and reply after one message; a `None` reply is an exception that
      leaves `process_message`. */
  function Respond(l: Ledger, message: string, caps: Captures, forName: Option<string>, clock: Clock)
    : (Ledger, Option<string>)
  {
    match RouteOf(message)
    case ToBooking =>
      (match ExtractDetails(message, caps, clock)
       case None => (l, None)
       case Some(r) =>
         if Missing(r) != [] then (l, Some(NeedHead + Join(Missing(r), Comma)))
         else
           var (l', reply) := Book(l, r.name, r.date.value, r.time.value, r.purpose);
           (l', Some(reply)))
    case ToNext => (l, Some(NextText(NextOf(l.rows, NextName(forName), clock.today, clock.now))))
    case ToLookup =>
      (match ExtractDetails(message, caps, clock)
       case None => (l, None)
       case Some(r) => (l, Some(Listing(l.rows, LookupName(r), r.date))))
    case ToFallback => (l, Some(Fallback))
  }

  // ---------------------------------------------------------------------------
  // The tools over the table file
  // ---------------------------------------------------------------------------

  /** The `appointments` table of `appointments.db`. */
  class Schedule {
    var rows: seq<Booking>
    var nextId: nat

    function Model(): Ledger
      reads this
    {
      Ledger(rows, nextId)
    }

    ghost predicate Valid()
      reads this
    {
      WellFormed(Model())
    }

    /** The table `init_db` creates. */
    constructor ()
      ensures Valid() && Model() == Ledger([], 1)
    {
      rows := [];
      nextId := 1;
    }

    /** `book_appointment(name, date, time, purpose)`. */
    method BookAppointment(name: string, date: string, time: string, purpose: string) returns (reply: string)
      requires Valid()
      modifies this
      ensures Valid()
      ensures (Model(), reply) == Book(old(Model()), name, date, time, purpose)
    {
      var dateParsed := ParseDate(date, DashYearMonthDay);
      var timeParsed := ParseClock(time);
      if dateParsed.None? || timeParsed.None? {
        return FormatError;
      }
      var existing := Taken(rows, date, time);
      if existing {
        return ClashHead + date + At + time + Period;
      }
      rows := rows + [Booking(nextId, name, date, time, purpose)];
      nextId := nextId + 1;
      reply := BookedHead + name + On + date + At + time + For + purpose + Period;
    }

    /** `get_appointments(name, date)`: the result accumulated line by line. */
    method GetAppointments(name: Option<string>, date: Option<string>) returns (reply: string)
      ensures reply == Listing(rows, name, date)
    {
      var appointments := Found(rows, name, date);
      if appointments == [] {
        return NothingFound(name, date);
      }
      var result := ListHead;
      for i := 0 to |appointments|
        invariant result == ListHead + Lines(appointments, i)
      {
        var appt := appointments[i];
        result := result + Line(appt);
      }
      reply := result;
    }

    /** `get_next_appointment(name)` at the given date and time. */
    method GetNextAppointment(name: Option<string>, today: string, now: string) returns (reply: string)
      ensures reply == NextText(NextOf(rows, name, today, now))
    {
      var appointment := NextOf(rows, name, today, now);
      if appointment.None? {
        return NoUpcoming;
      }
      reply := NextHead + appointment.value.date + At + appointment.value.time + For
               + appointment.value.purpose + Period;
    }

    /** `process_message(message)`. */
    method ProcessMessage(message: string, caps: Captures, forName: Option<string>, clock: Clock)
      returns (reply: Option<string>)
      requires Valid()
      modifies this
      ensures Valid()
      ensures (Model(), reply) == Respond(old(Model()), message, caps, forName, clock)
    {
      var route := RouteOf(message);
      if route == ToBooking {
        var details := ExtractDetails(message, caps, clock);
        if details.None? {
          return None;
        }
        var missing := Missing(details.value);
        if missing != [] {
          return Some(NeedHead + Join(missing, Comma));
        }
        var booked := BookAppointment(details.value.name, details.value.date.value, details.value.time.value,
                                      details.value.purpose);
        return Some(booked);
      }
      if route == ToNext {
        var next := GetNextAppointment(NextName(forName), clock.today, clock.now);
        return Some(next);
      }
      if route == ToLookup {
        var details := ExtractDetails(message, caps, clock);
        if details.None? {
          return None;
        }
        var found := GetAppointments(LookupName(details.value), details.value.date);
        return Some(found);
      }
      reply := Some(Fallback);
    }
  }
}
