/** What `process_message` (src/appointment_handler.py) promises about the session and
    the table: which replies write, what a booking and a cancellation write, what the
    session remembers, that a lookup phrase bypasses the model, and that repeating a
    confirmed booking is refused as a duplicate. */
module HandlerLaws {
  import opened Wrappers
  import opened Text
  import opened Email
  import opened Extractor
  import opened Database
  import opened Handler

  // ---------------------------------------------------------------------------
  // Booking
  // ---------------------------------------------------------------------------

  /** A booking is confirmed only with a name and a valid email (each extracted, or
      remembered when not extracted), a date, a time and a purpose key, and only when
      the same four fields are not booked yet; it then adds exactly that row, with the
      extracted purpose (the default is never stored), and remembers the name and
      email. Every other booking reply leaves the table alone. */
  lemma BookConfirmed(m: Memory, t: Table, d: Details, clean: string)
    ensures var o := Book(m, t, d, clean);
      o.reply.Confirmed? ==>
        var b := o.reply.booking;
        && b.name == Known(d.name, m.name) && b.email == Known(d.email, m.email)
        && b.name != [] && IsValidEmail(b.email)
        && Truthy(d.date) && b.date == d.date.value
        && Truthy(d.time) && b.time == d.time.value
        && d.purpose == Some(b.purpose)
        && !Exists(t, b.name, b.email, b.date, b.time)
        && o.table == Insert(t, b.name, b.email, b.date, b.time, b.purpose)
        && o.memory == Memory(b.name, b.email)
    ensures var o := Book(m, t, d, clean);
      !o.reply.Confirmed? ==> o.table == t
  {
  }

  /** The booking asks for the first missing piece, in the order name, email (missing,
      then malformed), date, time, purpose; a non-empty extracted value beats the
      remembered one. */
  lemma BookAsksInOrder(m: Memory, t: Table, d: Details, clean: string)
    ensures var o, name, email := Book(m, t, d, clean), Known(d.name, m.name), Known(d.email, m.email);
      && (o.reply.AskName? <==> name == [])
      && (o.reply.AskEmail? <==> name != [] && email == [])
      && (o.reply.InvalidEmail? <==> name != [] && email != [] && !IsValidEmail(email))
      && (o.reply.AskDate? <==> name != [] && IsValidEmail(email) && !Truthy(d.date))
      && (o.reply.AskTime? <==> name != [] && IsValidEmail(email) && Truthy(d.date) && !Truthy(d.time))
      && (o.reply.AskPurpose? <==>
            name != [] && IsValidEmail(email) && Truthy(d.date) && Truthy(d.time) && d.purpose.None?)
      && (o.reply.AlreadyBooked? <==>
            name != [] && IsValidEmail(email) && Truthy(d.date) && Truthy(d.time) && d.purpose.Some?
            && Exists(t, name, email, d.date.value, d.time.value))
  {
    EmptyIsNotAnEmail();
  }

  /** `is_valid_email('')` is false. */
  lemma EmptyIsNotAnEmail()
    ensures !IsValidEmail([])
  {
    EmailExamples();
  }

  /** Booking again after a confirmation, on the table it left, with the same details
      and a memory that yields the same name and email (the memory it left does),
      reports the duplicate and writes nothing. */
  lemma BookAgainIsDuplicate(m: Memory, t: Table, d: Details, clean: string, m': Memory, clean': string)
    requires Book(m, t, d, clean).reply.Confirmed?
    requires var b := Book(m, t, d, clean).reply.booking;
      Known(d.name, m'.name) == b.name && Known(d.email, m'.email) == b.email
    ensures var o := Book(m, t, d, clean);
      var b := o.reply.booking;
      Book(m', o.table, d, clean') == Outcome(AlreadyBooked(b.date, b.time), o.memory, o.table)
  {
    var o := Book(m, t, d, clean);
    var b := o.reply.booking;
    BookConfirmed(m, t, d, clean);
    InsertThenExists(t, b.name, b.email, b.date, b.time, b.purpose);
  }

  // ---------------------------------------------------------------------------
  // Lookup
  // ---------------------------------------------------------------------------

  /** A lookup by a non-empty email lists, in date and time order, exactly the rows
      whose email contains it (ignoring case) and on the given date if any, or reports
      that there are none. */
  lemma LookupMeaning(t: Table, email: string, date: Option<string>)
    requires email != []
    ensures var r := Lookup(email, Select(t, None, Some(email), date));
      && (r.Listing? || r.NoneFor?) && r.email == email
      && (r.Listing? ==>
            && r.found != [] && Ordered(r.found)
            && forall a :: a in r.found <==> a in t.rows && Matches(a, None, Some(email), date))
      && (r.NoneFor? ==> forall a :: a in t.rows ==> !Matches(a, None, Some(email), date))
  {
    SelectMeaning(t, None, Some(email), date);
  }

  /** The lookup path asks for an email only when neither the details nor the memory
      hold one; otherwise it looks up that email and remembers it, writing nothing. */
  lemma RetrieveMeaning(m: Memory, t: Table, d: Details, clean: string)
    ensures var o, email := Retrieve(m, t, d, clean), Known(d.email, m.email);
      && o.table == t
      && (o.reply.AskEmailToCheck? <==> email == [])
      && (email != [] ==> o.reply == Lookup(email, Select(t, None, Some(email), d.date)) && o.memory.email == email)
      && o.memory.name == m.name
  {
  }

  // ---------------------------------------------------------------------------
  // Cancellation
  // ---------------------------------------------------------------------------

  /** A cancellation deletes only when exactly one row matches the name, the email and
      the optional date; it then removes that row and no other. The failure reply is
      never produced: the row just selected is always there to delete. With none or
      several matches the table is unchanged; several are listed for the user. */
  lemma CancelMeaning(m: Memory, t: Table, d: Details, clean: string)
    ensures var o, name, email := Cancel(m, t, d, clean), Known(d.name, m.name), Known(d.email, m.email);
      && !o.reply.CancelFailed?
      && (o.reply.AskNameOrEmail? <==> name == [] && email == [])
      && (o.reply.Canceled? ==>
            exists a :: a in t.rows && Matches(a, Some(name), Some(email), d.date)
              && (forall b :: b in t.rows && Matches(b, Some(name), Some(email), d.date) ==> b == a)
              && a.date == o.reply.date && a.time == o.reply.time
              && (forall b :: b in o.table.rows <==> b in t.rows && b.id != a.id)
              && o.table.nextId == t.nextId)
      && (!o.reply.Canceled? ==> o.table == t)
      && (o.reply.NothingToCancel? ==> forall a :: a in t.rows ==> !Matches(a, Some(name), Some(email), d.date))
      && (o.reply.ChooseOne? ==>
            && |o.reply.found| >= 2
            && forall a :: a in o.reply.found <==> a in t.rows && Matches(a, Some(name), Some(email), d.date))
  {
    var name, email := Known(d.name, m.name), Known(d.email, m.email);
    if name != [] || email != [] {
      var m' := Memory(if name != [] then name else m.name, if email != [] then email else m.email);
      var found := Select(t, Some(name), Some(email), d.date);
      SelectMeaning(t, Some(name), Some(email), d.date);
      CancelAmongMeaning(m', t, found, name, email, d.date);
      assert Cancel(m, t, d, clean) == CancelAmong(m', t, found);
    }
  }

  /** What a cancellation does with the rows that match: see `CancelMeaning`. */
  lemma CancelAmongMeaning(m: Memory, t: Table, found: seq<Appointment>, name: string, email: string,
                           date: Option<string>)
    requires forall a :: a in found <==> a in t.rows && Matches(a, Some(name), Some(email), date)
    ensures var o := CancelAmong(m, t, found);
      && !o.reply.CancelFailed? && !o.reply.AskNameOrEmail?
      && (o.reply.Canceled? ==>
            exists a :: a in t.rows && Matches(a, Some(name), Some(email), date)
              && (forall b :: b in t.rows && Matches(b, Some(name), Some(email), date) ==> b == a)
              && a.date == o.reply.date && a.time == o.reply.time
              && (forall b :: b in o.table.rows <==> b in t.rows && b.id != a.id)
              && o.table.nextId == t.nextId)
      && (!o.reply.Canceled? ==> o.table == t)
      && (o.reply.NothingToCancel? ==> forall a :: a in t.rows ==> !Matches(a, Some(name), Some(email), date))
      && (o.reply.ChooseOne? ==>
            && |o.reply.found| >= 2
            && forall a :: a in o.reply.found <==> a in t.rows && Matches(a, Some(name), Some(email), date))
  {
    if |found| == 1 {
      var a := found[0];
      assert a in found;
      DeleteMeaning(t, a.id);
      forall b | b in t.rows && Matches(b, Some(name), Some(email), date) ensures b == a {
        assert b in found;
      }
    }
  }

  /** On a well-formed table a cancellation removes exactly one row. */
  lemma CancelRemovesOne(m: Memory, t: Table, d: Details, clean: string)
    requires WellFormed(t)
    ensures var o := Cancel(m, t, d, clean);
      o.reply.Canceled? ==> |o.table.rows| == |t.rows| - 1 && WellFormed(o.table)
  {
    var name, email := Known(d.name, m.name), Known(d.email, m.email);
    if name != [] || email != [] {
      var found := Select(t, Some(name), Some(email), d.date);
      if |found| == 1 {
        DeleteMeaning(t, found[0].id);
      }
    }
  }

  // ---------------------------------------------------------------------------
  // One message
  // ---------------------------------------------------------------------------

  /** Whatever the action, only a confirmation or a cancellation writes the table, and
      a well-formed table stays well-formed. */
  lemma ActWrites(m: Memory, t: Table, d: Details, clean: string)
    ensures var o := Act(m, t, d, clean);
      o.table == t || o.reply.Confirmed? || o.reply.Canceled?
    ensures WellFormed(t) ==> WellFormed(Act(m, t, d, clean).table)
  {
    if d.action == Some(BookAction) {
      BookConfirmed(m, t, d, clean);
      assert Act(m, t, d, clean) == Book(m, t, d, clean);
    } else if d.action == Some(CancelAction) {
      CancelMeaning(m, t, d, clean);
      if WellFormed(t) {
        CancelRemovesOne(m, t, d, clean);
      }
      assert Act(m, t, d, clean) == Cancel(m, t, d, clean);
    }
  }

  /** Once the details are read, the session ends up remembering exactly the non-empty
      extracted name and email over what it knew; without details it keeps its memory. */
  lemma AfterReplyMemory(m: Memory, t: Table, details: Option<Details>, clean: string)
    ensures var o := AfterReply(m, t, details, clean);
      if details.Some? && !details.value.IsEmpty() then o.memory == Remember(m, details.value) else o.memory == m
  {
    if details.Some? && !details.value.IsEmpty() {
      var d := details.value;
      var m1 := Remember(m, d);
      RememberSettles(m, d);
      ActMemory(m1, t, d, clean);
      assert AfterReply(m, t, details, clean) == Act(m1, t, d, clean);
    }
  }

  /** A memory that has taken in the details yields its own name and email back. */
  lemma RememberSettles(m: Memory, d: Details)
    ensures Known(d.name, Remember(m, d).name) == Remember(m, d).name
    ensures Known(d.email, Remember(m, d).email) == Remember(m, d).email
  {
  }

  /** Acting on details the memory has taken in leaves the memory as it is. */
  lemma ActMemory(m: Memory, t: Table, d: Details, clean: string)
    requires Known(d.name, m.name) == m.name && Known(d.email, m.email) == m.email
    ensures Act(m, t, d, clean).memory == m
  {
    if d.action == Some(BookAction) {
      assert Book(m, t, d, clean).memory == m;
    } else if d.action == Some(RetrieveAction) {
      assert Retrieve(m, t, d, clean).memory == m;
    } else if d.action == Some(CancelAction) {
      CancelMemory(m, t, d, clean);
    }
  }

  lemma CancelMemory(m: Memory, t: Table, d: Details, clean: string)
    requires Known(d.name, m.name) == m.name && Known(d.email, m.email) == m.email
    ensures Cancel(m, t, d, clean).memory == m
  {
    if m.name != [] || m.email != [] {
      CancelAmongMemory(m, t, Select(t, Some(m.name), Some(m.email), d.date));
    }
  }

  lemma CancelAmongMemory(m: Memory, t: Table, found: seq<Appointment>)
    ensures CancelAmong(m, t, found).memory == m
  {
  }

  /** A message that asks to look appointments up never reaches the model: the answer
      and the date parser play no part, nothing is written, and an email is asked for
      exactly when the message carries none and none is remembered. */
  lemma ShortcutIgnoresModel(m: Memory, t: Table, input: string, llm: LlmOutcome, llm': LlmOutcome,
                             natural: string -> NaturalParse, natural': string -> NaturalParse)
    requires IsRetrievalRequest(input)
    ensures Resolve(m, t, input, llm, natural) == Resolve(m, t, input, llm', natural')
    ensures var o := Resolve(m, t, input, llm, natural);
      && o.table == t
      && (o.reply.AskEmailToLookUp? <==> SearchEmail(input).None? && m.email == [])
  {
    if SearchEmail(input).Some? {
      FoundEmailIsValid(input);
      EmptyIsNotAnEmail();
    }
  }

  /** An address in a lookup message is the one looked up, and it is remembered. */
  lemma ShortcutUsesMessageEmail(m: Memory, t: Table, input: string, llm: LlmOutcome,
                                 natural: string -> NaturalParse)
    requires IsRetrievalRequest(input) && SearchEmail(input).Some?
    ensures var o, e := Resolve(m, t, input, llm, natural), SearchEmail(input).value;
      o.reply == Lookup(e, Select(t, None, Some(e), None)) && o.memory == m.(email := e)
  {
    FoundEmailIsValid(input);
    EmptyIsNotAnEmail();
  }

  /** When the model's call fails the error is reported and nothing is written. */
  lemma FailureWritesNothing(m: Memory, t: Table, input: string, error: string,
                             natural: string -> NaturalParse)
    requires !IsRetrievalRequest(input)
    ensures var o := Resolve(m, t, input, Failed(error), natural);
      o.reply == Failure(error) && o.table == t && o.memory == NoteEmail(m, input)
  {
  }

  /** An answer without a details section, or with an empty one, is passed on as its
      cleaned text and nothing is written. */
  lemma NoDetailsPassesThrough(m: Memory, t: Table, input: string, text: string,
                               natural: string -> NaturalParse)
    requires !IsRetrievalRequest(input)
    requires var details := Extract(text, natural).0; details.None? || details.value.IsEmpty()
    ensures var o := Resolve(m, t, input, Replied(text), natural);
      o.reply == Passthrough(Extract(text, natural).1) && o.table == t && o.memory == NoteEmail(m, input)
  {
  }

  /** A message that is not a lookup request goes through the model's answer. */
  lemma ThroughAnswer(m: Memory, t: Table, input: string, text: string, natural: string -> NaturalParse)
    requires !IsRetrievalRequest(input)
    ensures Resolve(m, t, input, Replied(text), natural)
         == AfterReply(NoteEmail(m, input), t, Extract(text, natural).0, Extract(text, natural).1)
  {
  }

  /** Only a confirmed booking or a cancellation writes the table, and a well-formed
      table stays well-formed whatever the message. */
  lemma ResolveWrites(m: Memory, t: Table, input: string, llm: LlmOutcome, natural: string -> NaturalParse)
    ensures var o := Resolve(m, t, input, llm, natural);
      o.table == t || o.reply.Confirmed? || o.reply.Canceled?
    ensures WellFormed(t) ==> WellFormed(Resolve(m, t, input, llm, natural).table)
  {
    if !IsRetrievalRequest(input) && llm.Replied? {
      var details, clean := Extract(llm.text, natural).0, Extract(llm.text, natural).1;
      ThroughAnswer(m, t, input, llm.text, natural);
      if details.Some? && !details.value.IsEmpty() {
        var m1 := Remember(NoteEmail(m, input), details.value);
        ActWrites(m1, t, details.value, clean);
        assert AfterReply(NoteEmail(m, input), t, details, clean) == Act(m1, t, details.value, clean);
      }
    }
  }

  /** The last non-empty name and email seen win: an address in the message, then a
      non-empty extracted value, overwrite what was remembered; a remembered value is
      never cleared. */
  lemma ResolveMemory(m: Memory, t: Table, input: string, llm: LlmOutcome, natural: string -> NaturalParse)
    ensures var o := Resolve(m, t, input, llm, natural);
      && (m.email != [] ==> o.memory.email != [])
      && (m.name != [] ==> o.memory.name != [])
      && (SearchEmail(input).Some? && (IsRetrievalRequest(input) || llm.Failed?) ==>
            o.memory.email == SearchEmail(input).value)
    ensures !IsRetrievalRequest(input) && llm.Replied? ==>
      var o, details := Resolve(m, t, input, llm, natural), Extract(llm.text, natural).0;
      details.Some? && !details.value.IsEmpty() ==>
        o.memory == Remember(NoteEmail(m, input), details.value)
  {
    var m1 := NoteEmail(m, input);
    if SearchEmail(input).Some? {
      FoundEmailIsValid(input);
      EmptyIsNotAnEmail();
    }
    ResolveMemoryIs(m, t, input, llm, natural);
    if !IsRetrievalRequest(input) && llm.Replied? {
      var details := Extract(llm.text, natural).0;
      if details.Some? && !details.value.IsEmpty() {
        RememberKeeps(m1, details.value);
      }
    }
  }

  /** The memory a message leaves: the noted email, then the extracted details when the
      model's answer is read and holds some. */
  lemma ResolveMemoryIs(m: Memory, t: Table, input: string, llm: LlmOutcome, natural: string -> NaturalParse)
    ensures var o, m1 := Resolve(m, t, input, llm, natural), NoteEmail(m, input);
      if IsRetrievalRequest(input) || llm.Failed? then o.memory == m1
      else
        var details := Extract(llm.text, natural).0;
        o.memory == if details.Some? && !details.value.IsEmpty() then Remember(m1, details.value) else m1
  {
    if !IsRetrievalRequest(input) && llm.Replied? {
      var details, clean := Extract(llm.text, natural).0, Extract(llm.text, natural).1;
      ThroughAnswer(m, t, input, llm.text, natural);
      AfterReplyMemory(NoteEmail(m, input), t, details, clean);
    }
  }

  /** Taking in details never clears a remembered name or email. */
  lemma RememberKeeps(m: Memory, d: Details)
    ensures m.name != [] ==> Remember(m, d).name != []
    ensures m.email != [] ==> Remember(m, d).email != []
  {
  }

  /** A confirmation comes only from a non-empty details section asking to book. */
  lemma ConfirmedByBooking(m: Memory, t: Table, details: Option<Details>, clean: string)
    requires AfterReply(m, t, details, clean).reply.Confirmed?
    ensures details.Some? && !details.value.IsEmpty() && details.value.action == Some(BookAction)
    ensures AfterReply(m, t, details, clean) == Book(Remember(m, details.value), t, details.value, clean)
  {
  }

  /** A non-empty details section asking to book goes to the booking path. */
  lemma BookingPath(m: Memory, t: Table, details: Option<Details>, clean: string)
    requires details.Some? && !details.value.IsEmpty() && details.value.action == Some(BookAction)
    ensures AfterReply(m, t, details, clean) == Book(Remember(m, details.value), t, details.value, clean)
  {
  }

  /** The name and email a booking settles on are settled on again from the memory it
      leaves, after the same message is noted. */
  lemma SameIdentity(m: Memory, input: string, d: Details, name: string, email: string)
    requires name == Known(d.name, Remember(NoteEmail(m, input), d).name)
    requires email == Known(d.email, Remember(NoteEmail(m, input), d).email)
    ensures var m2 := Remember(NoteEmail(Memory(name, email), input), d);
      Known(d.name, m2.name) == name && Known(d.email, m2.email) == email
  {
  }

  /** The same booking message sent again, right after it was confirmed, is refused as
      a duplicate and writes nothing: the memory it left yields the same name and
      email, and the row it added is found. */
  lemma ResolveAgainIsDuplicate(m: Memory, t: Table, input: string, llm: LlmOutcome,
                                natural: string -> NaturalParse)
    requires Resolve(m, t, input, llm, natural).reply.Confirmed?
    ensures var o := Resolve(m, t, input, llm, natural);
      var b := o.reply.booking;
      Resolve(o.memory, o.table, input, llm, natural) == Outcome(AlreadyBooked(b.date, b.time), o.memory, o.table)
  {
    var o := Resolve(m, t, input, llm, natural);
    assert !IsRetrievalRequest(input) && llm.Replied?;
    var details, clean := Extract(llm.text, natural).0, Extract(llm.text, natural).1;
    ThroughAnswer(m, t, input, llm.text, natural);
    ConfirmedByBooking(NoteEmail(m, input), t, details, clean);
    var d := details.value;
    var m1 := Remember(NoteEmail(m, input), d);
    var b := o.reply.booking;
    BookConfirmed(m1, t, d, clean);
    SameIdentity(m, input, d, b.name, b.email);
    var m2 := Remember(NoteEmail(o.memory, input), d);
    BookAgainIsDuplicate(m1, t, d, clean, m2, clean);
    ThroughAnswer(o.memory, o.table, input, llm.text, natural);
    BookingPath(NoteEmail(o.memory, input), o.table, details, clean);
   }
}
