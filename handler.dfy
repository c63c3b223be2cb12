/** `process_message` of `src/appointment_handler.py`: one user message moves the
    session memory (current name and email) and the appointment table, and yields one
    reply. `Resolve` states the whole step as a function; `Session.ProcessMessage`
    performs it the way the source does, field by field, and is proved equal to it. */
module Handler {
  import opened Wrappers
  import opened Text
  import opened Email
  import opened Extractor
  import opened Database

  // ---------------------------------------------------------------------------
  // Inputs, memory and replies
  // ---------------------------------------------------------------------------

  /** What the session remembers between messages. An empty string stands for a key
      that is not set: the assistant only ever stores non-empty values and reads them
      back with `''` as the default or as a truth value. */
  datatype Memory = Memory(name: string, email: string)

  /** The language model's answer to the message, or the exception its call raised. */
  datatype LlmOutcome = Replied(text: string) | Failed(error: string)

  /** The booking handed to the confirmation formatter. */
  datatype Confirmation = Confirmation(name: string, email: string, date: string, time: string, purpose: string)

  /** One variant per `return` of `process_message`. */
  datatype Reply =
    | Listing(email: string, found: seq<Appointment>)       // appointments for an email
    | NoneFor(email: string)                                // none for that email
    | AskEmailToLookUp                                      // shortcut without an email
    | Passthrough(clean: string)                            // the model's own text
    | AskName(clean: string)
    | AskEmail(clean: string, name: string)
    | InvalidEmail(clean: string)
    | AskDate(clean: string)
    | AskTime(clean: string, date: string)
    | AskPurpose(clean: string)
    | AlreadyBooked(date: string, time: string)
    | Confirmed(booking: Confirmation)
    | AskEmailToCheck(clean: string)
    | AskNameOrEmail(clean: string)
    | NothingToCancel
    | Canceled(date: string, time: string)
    | CancelFailed
    | ChooseOne(found: seq<Appointment>)
    | Failure(error: string)                                // the `except` clause

  /** The reply together with the memory and the table after the message. */
  datatype Outcome = Outcome(reply: Reply, memory: Memory, table: Table)

  // ---------------------------------------------------------------------------
  // The step as a function
  // ---------------------------------------------------------------------------

  /** The phrases that mark a message as a request to look appointments up. */
  const RetrievalPhrases: seq<string> := [
    "retrieve", "check appointment", "my appointment", "show appointment",
    "view appointment", "get appointment", "find appointment", "look up",
    "lookup", "get info", "find info", "check info", "appointment info"]

  /** Some retrieval phrase occurs in the lowered, trimmed message. */
  predicate IsRetrievalRequest(input: string) {
    var lowered := Strip(Lower(input));
    exists i :: 0 <= i < |RetrievalPhrases| && Contains(lowered, RetrievalPhrases[i])
  }

  /** An address found anywhere in the message becomes the current email. */
  function NoteEmail(m: Memory, input: string): (r: Memory)
    ensures r.name == m.name
    ensures SearchEmail(input).Some? ==> r.email == SearchEmail(input).value
    ensures SearchEmail(input).None? ==> r == m
  {
    match SearchEmail(input)
    case Some(e) => m.(email := e)
    case None => m
  }

  /** An extracted value when it is non-empty, the remembered one otherwise
      (`details.get(key) or st.session_state.get(key, '')`). */
  function Known(value: Option<string>, remembered: string): string {
    if Truthy(value) then value.value else remembered
  }

  /** Non-empty extracted email and name overwrite the remembered ones. */
  function Remember(m: Memory, d: Details): Memory {
    Memory(Known(d.name, m.name), Known(d.email, m.email))
  }

  /** The reply for a lookup by email: the list, or the report that there is none. */
  function Lookup(email: string, found: seq<Appointment>): Reply {
    if found != [] then Listing(email, found) else NoneFor(email)
  }

  /** The booking path: fill name and email from memory, ask for the first missing
      piece, then refuse a duplicate or insert. */
  function Book(m: Memory, t: Table, d: Details, clean: string): Outcome {
    var name, email := Known(d.name, m.name), Known(d.email, m.email);
    if name == [] then Outcome(AskName(clean), m, t)
    else if email == [] then Outcome(AskEmail(clean, name), m, t)
    else if !IsValidEmail(email) then Outcome(InvalidEmail(clean), m, t)
    else if !Truthy(d.date) then Outcome(AskDate(clean), m, t)
    else if !Truthy(d.time) then Outcome(AskTime(clean, d.date.value), m, t)
    else if d.purpose.None? then Outcome(AskPurpose(clean), m, t)
    else
      var date, time := d.date.value, d.time.value;
      if Exists(t, name, email, date, time) then Outcome(AlreadyBooked(date, time), Memory(name, email), t)
      else
        var purpose := d.purpose.GetOr(DefaultPurpose);
        Outcome(Confirmed(Confirmation(name, email, date, time, purpose)), Memory(name, email),
                Insert(t, name, email, date, time, purpose))
  }

  /** The purpose stored when the details carry none. */
  const DefaultPurpose: string := "General appointment"

  /** The lookup path: by the extracted or remembered email and the optional date. */
  function Retrieve(m: Memory, t: Table, d: Details, clean: string): Outcome {
    var email := Known(d.email, m.email);
    if email == [] then Outcome(AskEmailToCheck(clean), m, t)
    else Outcome(Lookup(email, Select(t, None, Some(email), d.date)), m.(email := email), t)
  }

  /** The cancellation path: none found, exactly one (deleted), or several (listed). */
  function Cancel(m: Memory, t: Table, d: Details, clean: string): Outcome {
    var name, email := Known(d.name, m.name), Known(d.email, m.email);
    if name == [] && email == [] then Outcome(AskNameOrEmail(clean), m, t)
    else
      var m' := Memory(if name != [] then name else m.name, if email != [] then email else m.email);
      CancelAmong(m', t, Select(t, Some(name), Some(email), d.date))
  }

  /** What a cancellation does with the rows it found. */
  function CancelAmong(m: Memory, t: Table, found: seq<Appointment>): Outcome {
    if found == [] then Outcome(NothingToCancel, m, t)
    else if |found| == 1 then
      var (t', removed) := Delete(t, found[0].id);
      Outcome(if removed then Canceled(found[0].date, found[0].time) else CancelFailed, m, t')
    else Outcome(ChooseOne(found), m, t)
  }

  const BookAction: string := "book"
  const RetrieveAction: string := "retrieve"
  const CancelAction: string := "cancel"

  /** Dispatch on the extracted action; any other action returns the model's text. */
  function Act(m: Memory, t: Table, d: Details, clean: string): Outcome {
    if d.action == Some(BookAction) then Book(m, t, d, clean)
    else if d.action == Some(RetrieveAction) then Retrieve(m, t, d, clean)
    else if d.action == Some(CancelAction) then Cancel(m, t, d, clean)
    else Outcome(Passthrough(clean), m, t)
  }

  /** What follows the model's answer once it is split into details and text. */
  function AfterReply(m: Memory, t: Table, details: Option<Details>, clean: string): Outcome {
    if details.None? || details.value.IsEmpty() then Outcome(Passthrough(clean), m, t)
    else
      var m' := Remember(m, details.value);
      Act(m', t, details.value, clean)
  }

  /** One message, start to finish. */
  function Resolve(m: Memory, t: Table, input: string, llm: LlmOutcome, natural: string -> NaturalParse): Outcome {
    var m1 := NoteEmail(m, input);
    if IsRetrievalRequest(input) then
      if m1.email != [] then Outcome(Lookup(m1.email, Select(t, None, Some(m1.email), None)), m1, t)
      else Outcome(AskEmailToLookUp, m1, t)
    else
      match llm
      case Failed(error) => Outcome(Failure(error), m1, t)
      case Replied(text) =>
        var (details, clean) := Extract(text, natural);
        AfterReply(m1, t, details, clean)
  }

  // ---------------------------------------------------------------------------
  // Reply texts
  // ---------------------------------------------------------------------------

  /** A purpose worth a line of its own. */
  predicate ShowsPurpose(purpose: string) {
    purpose != [] && purpose != "N/A" && purpose != "None" && purpose != "none"
  }

  /** The block for the `i`-th (from 0) appointment of a listing. */
  function Entry(i: nat, a: Appointment): string {
    "\U{1F4C5} Appointment " + IntToString(i + 1) + ":\n"
    + "\U{2022} Date: " + a.date + "\n"
    + "\U{2022} Time: " + a.time + "\n"
    + "\U{2022} Name: " + a.name + "\n"
    + (if ShowsPurpose(a.purpose) then "\U{2022} Purpose: " + a.purpose + "\n" else "")
    + "\n"
  }

  /** The blocks for the first `n` appointments. */
  function Entries(found: seq<Appointment>, n: nat): string
    requires n <= |found|
  {
    if n == 0 then [] else Entries(found, n - 1) + Entry(n - 1, found[n - 1])
  }

  function ListingText(email: string, found: seq<Appointment>): string {
    Strip(ListingHead + email + ListingColon + Entries(found, |found|))
  }

  /** The block for the `i`-th (from 0) candidate of a cancellation. */
  function Choice(i: nat, a: Appointment): string {
    "\U{1F4C5} Appointment " + IntToString(i + 1) + ":\n"
    + "\U{2022} ID: " + IntToString(a.id) + "\n"
    + "\U{2022} Date: " + a.date + "\n"
    + "\U{2022} Time: " + a.time + "\n"
    + "\U{2022} Purpose: " + a.purpose + "\n\n"
  }

  function Choices(found: seq<Appointment>, n: nat): string
    requires n <= |found|
  {
    if n == 0 then [] else Choices(found, n - 1) + Choice(n - 1, found[n - 1])
  }

  const ChoiceHeader: string := "I found multiple appointments. Please specify which one you'd like to cancel by ID:\n\n"
  const ChoiceFooter: string :=
    "Please reply with the ID number of the appointment you want to cancel (e.g., 'Cancel appointment ID 5')."

  // The fixed wording of the replies.
  const ListingHead: string := "Here are the appointments for "
  const ListingColon: string := ":\n\n"
  const NoneHead: string := "I couldn't find any appointments associated with "
  const NoneTail: string := ". Would you like to book a new appointment?"
  const LookUpPrompt: string :=
    "To check your appointments, I'll need your email address. What email did you use when booking?"
  const NamePrompt: string := "\n\nCould you please tell me your name?"
  const EmailThanks: string := "\n\nThanks, "
  const EmailPrompt: string := "! What's your email address?"
  const InvalidPrompt: string := "\n\nThe email address doesn't seem valid. Could you please provide a valid email?"
  const DatePrompt: string :=
    "\n\nGreat! What date would you like to book? (Any format like 3/15/2025 or 2025-03-15 works)"
  const TimePrompt: string := "\n\nPerfect! What time would you prefer on "
  const QuestionMark: string := "?"
  const PurposePrompt: string := "\n\nAlmost done! Could you tell me the purpose of this appointment?"
  const BookedHead: string := "You already have an appointment on "
  const At: string := " at "
  const BookedTail: string := ". Would you like to book a different time?"
  const CheckPrompt: string := "\n\nPlease provide your email address so I can check your appointments."
  const CancelPrompt: string := "\n\nPlease provide your name or email so I can find and cancel your appointment."
  const NothingText: string := "I couldn't find any appointments to cancel. Please check your details and try again."
  const CanceledHead: string := "\U{2705} I've successfully canceled your appointment on "
  const CanceledTail: string := ". Is there anything else I can help you with?"
  const FailedText: string :=
    "\U{274C} I encountered an error while trying to cancel your appointment. Please try again or contact support."
  const ErrorHead: string := "Error processing message: "
  const ErrorTail: string := "\n\nPlease try again or restart the application."

  /** The candidates for a cancellation, with the request to pick one by id. */
  function ChoiceList(found: seq<Appointment>): string {
    ChoiceHeader + Choices(found, |found|) + ChoiceFooter
  }

  /** The text of each reply; the confirmation is worded by the model, through `confirm`. */
  function Render(r: Reply, confirm: Confirmation -> string): string {
    match r
    case Listing(email, found) => ListingText(email, found)
    case NoneFor(email) => NoneHead + email + NoneTail
    case AskEmailToLookUp => LookUpPrompt
    case Passthrough(clean) => clean
    case AskName(clean) => clean + NamePrompt
    case AskEmail(clean, name) => clean + EmailThanks + name + EmailPrompt
    case InvalidEmail(clean) => clean + InvalidPrompt
    case AskDate(clean) => clean + DatePrompt
    case AskTime(clean, date) => clean + TimePrompt + date + QuestionMark
    case AskPurpose(clean) => clean + PurposePrompt
    case AlreadyBooked(date, time) => BookedHead + date + At + time + BookedTail
    case Confirmed(booking) => confirm(booking)
    case AskEmailToCheck(clean) => clean + CheckPrompt
    case AskNameOrEmail(clean) => clean + CancelPrompt
    case NothingToCancel => NothingText
    case Canceled(date, time) => CanceledHead + date + At + time + CanceledTail
    case CancelFailed => FailedText
    case ChooseOne(found) => ChoiceList(found)
    case Failure(error) => ErrorHead + error + ErrorTail
  }

  /** A formatter for the replies that word no booking. */
  const Unworded: Confirmation -> string := c => []

  /** The reply that lists cancellation candidates. */
  lemma ChoiceReply(found: seq<Appointment>, f: Confirmation -> string)
    ensures Render(ChooseOne(found), f) == ChoiceList(found)
  { }

  /** The reply that lists the appointments for an email. */
  lemma ListingReply(email: string, found: seq<Appointment>, f: Confirmation -> string)
    ensures Render(Listing(email, found), f) == ListingText(email, found)
  { }

  /** Only a confirmation is worded by the formatter. */
  lemma RenderBesidesConfirmation(r: Reply, f: Confirmation -> string, g: Confirmation -> string)
    requires !r.Confirmed?
    ensures Render(r, f) == Render(r, g)
  { }

  // ---------------------------------------------------------------------------
  // The step as the source performs it
  // ---------------------------------------------------------------------------

  /** The listing text, built block by block. */
  method RenderListing(email: string, appointments: seq<Appointment>) returns (text: string)
    ensures text == ListingText(email, appointments)
  {
    var header := ListingHead + email + ListingColon;
    var response := header;
    for i := 0 to |appointments|
      invariant response == header + Entries(appointments, i)
    {
      var appt := appointments[i];
      var block := Entry(i, appt);
      response := response + block;
      EntriesStep(header, appointments, i);
    }
    text := Strip(response);
  }

  /** One more block extends the listing. */
  lemma EntriesStep(header: string, found: seq<Appointment>, i: nat)
    requires i < |found|
    ensures header + Entries(found, i) + Entry(i, found[i]) == header + Entries(found, i + 1)
  {
    Append3(header, Entries(found, i), Entry(i, found[i]));
  }

  /** One more block extends the list of candidates. */
  lemma ChoicesStep(found: seq<Appointment>, i: nat)
    requires i < |found|
    ensures ChoiceHeader + Choices(found, i) + Choice(i, found[i]) == ChoiceHeader + Choices(found, i + 1)
  {
    Append3(ChoiceHeader, Choices(found, i), Choice(i, found[i]));
  }

  lemma Append3(a: string, b: string, c: string)
    ensures a + b + c == a + (b + c)
  {
  }

  /** The list of cancellation candidates, built block by block. */
  method RenderChoices(appointments: seq<Appointment>) returns (text: string)
    ensures text == ChoiceList(appointments)
  {
    var response := ChoiceHeader;
    for i := 0 to |appointments|
      invariant response == ChoiceHeader + Choices(appointments, i)
    {
      var appt := appointments[i];
      var block := Choice(i, appt);
      response := response + block;
      ChoicesStep(appointments, i);
    }
    text := response + ChoiceFooter;
  }

  /** `st.session_state` and the message handler. */
  class Session {
    var currentName: string
    var currentEmail: string

    function Recall(): Memory
      reads this
    {
      Memory(currentName, currentEmail)
    }

    /** A new session remembers nothing. */
    constructor ()
      ensures Recall() == Memory([], [])
    {
      currentName := [];
      currentEmail := [];
    }

    /** `process_message(user_input, llm_chain, llm)`. */
    method ProcessMessage(userInput: string, llm: LlmOutcome, natural: string -> NaturalParse,
                          confirm: Confirmation -> string, store: AppointmentStore)
      returns (reply: string)
      requires store.Valid()
      modifies this, store
      ensures store.Valid()
      ensures var o := Resolve(old(Recall()), old(store.Model()), userInput, llm, natural);
        reply == Render(o.reply, confirm) && Recall() == o.memory && store.Model() == o.table
    {
      ghost var m0, t0 := Recall(), store.Model();
      var emailMatch := SearchEmail(userInput);
      if emailMatch.Some? {
        currentEmail := emailMatch.value;
      }
      assert Recall() == NoteEmail(m0, userInput);
      var isRetrievalRequest := IsRetrievalRequest(userInput);
      if isRetrievalRequest {
        var email := currentEmail;
        if email != [] {
          var appointments := store.GetAppointments(None, Some(email), None);
          assert Resolve(m0, t0, userInput, llm, natural) == Outcome(Lookup(email, appointments), Recall(), t0);
          if appointments != [] {
            reply := RenderListing(email, appointments);
            ListingReply(email, appointments, confirm);
          } else {
            reply := Render(NoneFor(email), confirm);
          }
        } else {
          assert Resolve(m0, t0, userInput, llm, natural) == Outcome(AskEmailToLookUp, Recall(), t0);
          reply := Render(AskEmailToLookUp, confirm);
        }
        return;
      }
      if llm.Failed? {
        assert Resolve(m0, t0, userInput, llm, natural) == Outcome(Failure(llm.error), Recall(), t0);
        return Render(Failure(llm.error), confirm);
      }
      var details, cleanResponse := ExtractAppointmentDetails(llm.text, natural);
      assert Resolve(m0, t0, userInput, llm, natural) == AfterReply(Recall(), t0, details, cleanResponse);
      reply := FollowReply(details, cleanResponse, isRetrievalRequest, confirm, store);
    }

    /** The rest of `process_message` once the model's answer is split into details and
        text: remember the extracted name and email, then act on the details. */
    method FollowReply(details: Option<Details>, cleanResponse: string, isRetrievalRequest: bool,
                       confirm: Confirmation -> string, store: AppointmentStore)
      returns (reply: string)
      requires store.Valid() && !isRetrievalRequest
      modifies this, store
      ensures store.Valid()
      ensures var o := AfterReply(old(Recall()), old(store.Model()), details, cleanResponse);
        reply == Render(o.reply, confirm) && Recall() == o.memory && store.Model() == o.table
    {
      ghost var m1, t0 := Recall(), store.Model();
      if details.Some? && !details.value.IsEmpty() && Truthy(details.value.email) {
        currentEmail := details.value.email.value;
      }
      if details.Some? && !details.value.IsEmpty() && Truthy(details.value.name) {
        currentName := details.value.name.value;
      }
      // The lookup fallback of the source needs `isRetrievalRequest`, which is false here.
      if currentEmail != [] && (details.None? || details.value.action != Some(RetrieveAction)) && isRetrievalRequest {
        assert false;
      }
      if details.None? || details.value.IsEmpty() {
        assert AfterReply(m1, t0, details, cleanResponse) == Outcome(Passthrough(cleanResponse), Recall(), t0);
        return cleanResponse;
      }
      assert Recall() == Remember(m1, details.value);
      assert AfterReply(m1, t0, details, cleanResponse) == Act(Recall(), t0, details.value, cleanResponse);
      reply := ActFlow(details.value, cleanResponse, confirm, store);
    }

    /** The dispatch on the extracted action. */
    method ActFlow(d: Details, cleanResponse: string, confirm: Confirmation -> string, store: AppointmentStore)
      returns (reply: string)
      requires store.Valid()
      modifies this, store
      ensures store.Valid()
      ensures var o := Act(old(Recall()), old(store.Model()), d, cleanResponse);
        reply == Render(o.reply, confirm) && Recall() == o.memory && store.Model() == o.table
    {
      ghost var m, t0 := Recall(), store.Model();
      if d.action == Some(BookAction) {
        reply := BookFlow(d, cleanResponse, confirm, store);
      } else if d.action == Some(RetrieveAction) {
        reply := RetrieveFlow(d, cleanResponse, store);
        RenderBesidesConfirmation(Retrieve(m, t0, d, cleanResponse).reply, Unworded, confirm);
      } else if d.action == Some(CancelAction) {
        reply := CancelFlow(d, cleanResponse, store);
        RenderBesidesConfirmation(Cancel(m, t0, d, cleanResponse).reply, Unworded, confirm);
      } else {
        reply := cleanResponse;
      }
    }

    /** The booking branch; `details` has its missing name and email filled in place. */
    method BookFlow(details: Details, cleanResponse: string, confirm: Confirmation -> string,
                    store: AppointmentStore)
      returns (reply: string)
      requires store.Valid()
      modifies this, store
      ensures store.Valid()
      ensures var o := Book(old(Recall()), old(store.Model()), details, cleanResponse);
        reply == Render(o.reply, confirm) && Recall() == o.memory && store.Model() == o.table
    {
      ghost var o := Book(Recall(), store.Model(), details, cleanResponse);
      var d := details;
      if !Truthy(d.name) {
        d := d.(name := Some(currentName));
      }
      if !Truthy(d.email) {
        d := d.(email := Some(currentEmail));
      }
      if !Truthy(d.name) {
        assert o == Outcome(AskName(cleanResponse), Recall(), store.Model());
        return Render(AskName(cleanResponse), confirm);
      }
      if !Truthy(d.email) {
        assert o == Outcome(AskEmail(cleanResponse, d.name.value), Recall(), store.Model());
        return Render(AskEmail(cleanResponse, d.name.value), confirm);
      } else if !IsValidEmail(d.email.value) {
        assert o == Outcome(InvalidEmail(cleanResponse), Recall(), store.Model());
        return Render(InvalidEmail(cleanResponse), confirm);
      }
      if !Truthy(d.date) {
        assert o == Outcome(AskDate(cleanResponse), Recall(), store.Model());
        return Render(AskDate(cleanResponse), confirm);
      }
      if !Truthy(d.time) {
        assert o == Outcome(AskTime(cleanResponse, d.date.value), Recall(), store.Model());
        return Render(AskTime(cleanResponse, d.date.value), confirm);
      }
      if !Truthy(d.purpose) && d.purpose.None? {
        assert o == Outcome(AskPurpose(cleanResponse), Recall(), store.Model());
        return Render(AskPurpose(cleanResponse), confirm);
      }
      currentName := d.name.value;
      currentEmail := d.email.value;
      var alreadyThere := store.CheckAppointmentExists(d.name.value, d.email.value, d.date.value, d.time.value);
      if alreadyThere {
        assert o == Outcome(AlreadyBooked(d.date.value, d.time.value), Recall(), store.Model());
        return Render(AlreadyBooked(d.date.value, d.time.value), confirm);
      }
      var purpose := d.purpose.GetOr(DefaultPurpose);
      store.AddAppointment(d.name.value, d.email.value, d.date.value, d.time.value, purpose);
      assert o == Outcome(Confirmed(Confirmation(d.name.value, d.email.value, d.date.value, d.time.value, purpose)),
                          Recall(), store.Model());
      reply := confirm(Confirmation(d.name.value, d.email.value, d.date.value, d.time.value, purpose));
    }

    /** The lookup branch. */
    method RetrieveFlow(details: Details, cleanResponse: string, store: AppointmentStore)
      returns (reply: string)
      requires store.Valid()
      modifies this
      ensures var o := Retrieve(old(Recall()), store.Model(), details, cleanResponse);
        reply == Render(o.reply, Unworded) && Recall() == o.memory && store.Model() == o.table
    {
      var email := if Truthy(details.email) then details.email.value else currentEmail;
      var date := details.date;
      if email == [] {
        return Render(AskEmailToCheck(cleanResponse), Unworded);
      }
      currentEmail := email;
      var appointments := store.GetAppointments(None, Some(email), date);
      if appointments != [] {
        reply := RenderListing(email, appointments);
      } else {
        reply := Render(NoneFor(email), Unworded);
      }
    }

    /** The cancellation branch. */
    method CancelFlow(details: Details, cleanResponse: string, store: AppointmentStore)
      returns (reply: string)
      requires store.Valid()
      modifies this, store
      ensures store.Valid()
      ensures var o := Cancel(old(Recall()), old(store.Model()), details, cleanResponse);
        reply == Render(o.reply, Unworded) && Recall() == o.memory && store.Model() == o.table
    {
      var name := if Truthy(details.name) then details.name.value else currentName;
      var email := if Truthy(details.email) then details.email.value else currentEmail;
      var date := details.date;
      if name == [] && email == [] {
        return Render(AskNameOrEmail(cleanResponse), Unworded);
      }
      if name != [] {
        currentName := name;
      }
      if email != [] {
        currentEmail := email;
      }
      var appointments := store.GetAppointments(Some(name), Some(email), date);
      reply := CancelFound(appointments, store);
    }

    /** The cancellation branch once the matching rows are read: none, exactly one
        (deleted by its id) or several (listed). */
    method CancelFound(appointments: seq<Appointment>, store: AppointmentStore)
      returns (reply: string)
      requires store.Valid()
      requires forall a :: a in appointments ==> a in store.rows
      modifies store
      ensures store.Valid()
      ensures var o := CancelAmong(Recall(), old(store.Model()), appointments);
        reply == Render(o.reply, Unworded) && store.Model() == o.table
    {
      if appointments == [] {
        return Render(NothingToCancel, Unworded);
      }
      if |appointments| == 1 {
        var apptId, apptDate, apptTime := appointments[0].id, appointments[0].date, appointments[0].time;
        assert appointments[0] in store.rows;
        var removed := store.DeleteAppointment(apptId);
        if removed {
          reply := Render(Canceled(apptDate, apptTime), Unworded);
        } else {
          // The row was just selected by its id, so the delete always finds it.
          assert false;
        }
        return;
      }
      reply := RenderChoices(appointments);
      ChoiceReply(appointments, Unworded);
    }
  }
}
