# Appointment-booking assistant, modelled in Dafny

This project models the core of a chat assistant that books, lists and cancels
appointments, and proves properties about that model. It covers two front ends
that share nothing but the idea of an appointment table.

- **The LLM-driven resolver** has three parts.
  - The text utilities. `is_valid_email` checks an address. `extract_appointment_details`
    reads the `<APPOINTMENT_DETAILS>` block that the language model writes, normalises its
    `time` and `date` fields, and strips every such block from the visible reply.
  - The appointment store, an in-memory table with an id counter. It supports insert,
    filtered query, an exact existence check and delete by id.
  - The per-message state machine `process_message`. It works over session memory (the
    remembered name and email) and the store. It has a retrieval shortcut, a
    one-question-at-a-time booking dialogue with a duplicate check, retrieval, and
    cancellation.
- **The keyword front end** has four parts.
  - `book_appointment`, which checks the format and refuses a second booking at the same
    date and time.
  - Listing and next-appointment lookups.
  - The heuristic post-processing of extracted captures: slash dates become ISO dates, and
    12-hour times become 24-hour times.
  - Keyword routing.

Module layout:

| file | module | models |
|---|---|---|
| wrappers.dfy | Wrappers | `Option` |
| text.dfy | Text | Python string primitives: `strip`, `lower`, `in`/`find`, `split`, `int()`, `str()`, `zfill` |
| email.dfy | Email | `is_valid_email`, and the email search in `process_message` |
| calendar.dfy | Calendar | `datetime.strptime` for the date formats and `%H:%M` |
| extractor.dfy | Extractor | `extract_appointment_details` of `src/utils.py` |
| extractor_laws.dfy | ExtractorLaws | properties of the extractor |
| store.dfy | Database | `src/database.py` as the class `AppointmentStore` over a `Table` value |
| handler.dfy | Handler | `process_message` of `src/appointment_handler.py`: pure `Resolve`, and the imperative `Session.ProcessMessage` proved equal to it |
| handler_laws.dfy | HandlerLaws | properties of the resolver |
| frontend.dfy | Frontend | `app.py`: the `Ledger` value, the class `Schedule`, extraction post-processing and routing |
| frontend_laws.dfy | FrontendLaws | properties of the keyword front end |

Every part of the model is built the same way:
- Each operation has a pure specification function.
- Where the source changes state, a class method is proved to produce exactly that
  function's result.
- The lemmas then state what the source promises about those functions.

Two behaviours of the code are worth stating up front:
- Re-extracting a cleaned reply can find a section again
  (`ExtractorLaws.SplicedTagsReappear`).
- `app.py`'s `get_appointments` has no `ORDER BY`, so `Frontend.Found` keeps insertion
  order.

Foreign calls become parameters:
- The language model is an `LlmOutcome`: a reply text, or the message of the exception it
  raised.
- `dateparser.parse` is a function `string -> NaturalParse`.
- The confirmation wording, which the language model writes, is a function
  `Confirmation -> string`.
- The clock is a `Clock` value holding today, tomorrow and the current time.
- The regular-expression captures of `app.py` are a `Captures` value.

## Model

| member | source | states |
|---|---|---|
| Email.IsValidEmail | src/utils.py:7-10 | accepted exactly when the whole string is local-part `@` domain `.` letters (two or more), or such a string followed by one newline (what `$` allows) |
| Email.ValidEmailHasAtThenDot | src/utils.py:7-10 | an accepted address has an `@` after its first character and a later dot, and ends in a letter or a newline |
| Email.EmailExamples | src/utils.py:7-10 | `a@b.co` is accepted; `a@b`, `a.b.com` and the empty string are refused |
| Email.EmailSpanCorrect | src/appointment_handler.py:17-21 | the search finds nothing iff no substring is an address; otherwise it returns the leftmost match, taken as long as possible |
| Email.FoundEmailIsValid | src/appointment_handler.py:17-21 | whatever the email search finds passes `is_valid_email` |
| Calendar.ParseDate | src/utils.py:42-48 | a date parses only when the separator splits it into exactly three fields |
| Calendar.IsoRoundTrip | src/utils.py:40-45 | reading a `%Y-%m-%d` rendering back with `%Y-%m-%d` gives the same calendar date |
| Calendar.IsoOnlyYearFirst | src/utils.py:42 | an ISO rendering fits none of the other three formats of the list |
| Calendar.SlashDateParses | src/utils.py:42-45 | `M/D/YYYY` with valid fields parses under `%m/%d/%Y` to that date |
| Calendar.ClockRoundTrip | app.py:43 | `%H:%M` reads back every rendered hour and minute |
| Calendar.NoSuchDayExample | src/utils.py:44 | `2023-02-30` is refused because February has no 30th |
| Calendar.WrongSeparatorExample | app.py:42 | `12/15/2023` does not fit `%Y-%m-%d` |
| Calendar.ClockExamples | app.py:43 | `14:30` reads as (14, 30); `24:00` is refused |
| Extractor.FindSection | src/utils.py:14-15 | the section found is the first opening tag with a closing tag after it, and the nearest such closing tag (non-greedy); none is found iff no opening tag is followed by a closing tag |
| Extractor.FieldLineMeaning | src/utils.py:23-28 | a field is present iff its label occurs in the block; its raw value has no newline and does not start with white space |
| Extractor.FieldValue | src/utils.py:30-33 | present iff the label occurs; the value is already stripped (also lines 91-94 of the same file) |
| Extractor.CanonicalTime | src/utils.py:54-89 | the imperative time clean-up equals `NormalizeTime` |
| Extractor.ColonTime | src/utils.py:57-67 | the colon branch equals `NormalizeTime` |
| Extractor.BareHourTime | src/utils.py:68-86 | the bare-hour branch, with its own `try`, equals `NormalizeTime` |
| Extractor.TwelveHour | src/utils.py:60-67 | the 0/1-11/12/13+ case split equals `TwelveHourClock` (also lines 77-84 of the same file) |
| Extractor.FirstFit | src/utils.py:42-48 | returns the date of the first format that fits; some format fits iff the result is present |
| Extractor.NormalizeDate | src/utils.py:35-52 | the stored date is either the raw string or the ISO rendering of a calendar date |
| Extractor.CanonicalDate | src/utils.py:35-52 | the loop over formats with `break` equals `NormalizeDate` |
| Extractor.ParseBlock | src/utils.py:35 | `date` is set iff a date line is present; `time` is set iff a time line is present (also line 54 of the same file) |
| Extractor.ExtractAbsent | src/utils.py:14-18 | no details iff no opening tag is followed by a closing tag; the text is then returned stripped |
| Extractor.ExtractAppointmentDetails | src/utils.py:12-98 | the imperative extraction returns exactly `Extract` |
| ExtractorLaws.ColonMinuteNotIntegerKept | src/utils.py:58 | a colon time whose minute part is not an integer is stored unchanged (also lines 87-89 of the same file) |
| ExtractorLaws.ColonIntegersBranch | src/utils.py:58-67 | two integers around one colon, with no am/pm, give the 12-hour clock with a two-digit minute |
| ExtractorLaws.BareHourBranch | src/utils.py:69-84 | a bare hour becomes `H:00` with AM/PM after the pm/am adjustment |
| ExtractorLaws.ClockIsFixed | src/utils.py:57-67 | a canonical `H:MM AM/PM` is left unchanged by a second pass |
| ExtractorLaws.NormalizeTimeIdempotent | src/utils.py:54-89 | normalising a time twice equals normalising it once |
| ExtractorLaws.ColonIntegersHaveNoLetters | src/utils.py:58-59 | whenever both colon parts are integers the string holds no letter, so the am/pm test at line 59 always holds |
| ExtractorLaws.ColonTime | src/utils.py:57-67 | for any two colon-free integer texts `h` and `m`, `h:m` becomes the 12-hour rendering `TwelveHourClock` of hour `h` with the minute padded, and a minute below 100 pads to exactly two digits |
| ExtractorLaws.BareHourPm | src/utils.py:71-73 | `N pm` with N from 1 to 11 becomes `N:00 PM` (also lines 79-84 of the same file) |
| ExtractorLaws.BareHourAm | src/utils.py:74 | `N am` with N from 1 to 11 becomes `N:00 AM` (also lines 79-80 of the same file) |
| ExtractorLaws.MidnightTwelve | src/utils.py:74-78 | `12 am` becomes `12:00 AM` |
| ExtractorLaws.NoonTwelve | src/utils.py:71-72 | `12 pm` becomes `12:00 PM` (also lines 81-82 of the same file) |
| ExtractorLaws.ColonTimeWithLetterKept | src/utils.py:58 | any colon time containing a letter (such as `2:30 PM`) is stored unchanged (also lines 87-89 of the same file) |
| ExtractorLaws.ManyColonsKept | src/utils.py:58 | a time with two colons is stored unchanged (also lines 87-89 of the same file) |
| ExtractorLaws.BareWordWithLetterKept | src/utils.py:70 | a bare first word containing a letter (such as `2pm`) is stored unchanged (also lines 85-86 of the same file) |
| ExtractorLaws.KeptClockExample | src/utils.py:58 | `2:30 PM` is stored unchanged (also lines 87-89 of the same file) |
| ExtractorLaws.KeptWordExample | src/utils.py:70 | `2pm` is stored unchanged (also lines 85-86 of the same file) |
| ExtractorLaws.KeptColonsExample | src/utils.py:58 | `1:2:3` is stored unchanged (also lines 87-89 of the same file) |
| ExtractorLaws.AfternoonExample | src/utils.py:66-67 | `14:30` becomes `2:30 PM` |
| ExtractorLaws.IsoDateKept | src/utils.py:42-45 | an ISO date that `dateparser` does not read is kept as it is |
| ExtractorLaws.SlashDateRewritten | src/utils.py:42-45 | `M/D/YYYY` that `dateparser` does not read becomes the ISO rendering of that date |
| ExtractorLaws.FieldOnLine | src/utils.py:23-33 | a label followed by blanks and a value up to the end of the line yields that value, stripped |
| ExtractorLaws.EmptyValueTakesNextLine | src/utils.py:23-28 | a label with nothing after it takes the next line as its value, because `\s*` crosses the newline |
| ExtractorLaws.OneSection | src/utils.py:14-20 | with one tagged section, the details come from its body and the text is what lies around it, stripped (also line 96 of the same file) |
| ExtractorLaws.OneSectionCleanIsFinal | src/utils.py:96 | for one section, extracting again from the cleaned text finds no details and leaves the text as it is |
| ExtractorLaws.EmptySection | src/utils.py:17-21 | an empty section still counts as found, with no fields |
| ExtractorLaws.SplicedTagsReappear | src/utils.py:96 | removing sections can splice a new complete section together, so a second extraction finds one |
| Database.EmptyTableWellFormed | src/database.py:30-39 | the empty table has no rows and is well formed |
| Database.Insert | src/database.py:44-51 | exactly one row is appended with the given fields; the old rows are kept; its id exceeds every earlier id |
| Database.Where | src/database.py:61-73 | keeps exactly the rows meeting all conditions |
| Database.ConditionsMean | src/database.py:61-73 | the conditions hold iff each truthy filter matches; with no truthy filter there are no conditions |
| Database.TextLessIrreflexive | src/database.py:75 | the text order is strict |
| Database.TextLessTransitive | src/database.py:75 | the text order is transitive |
| Database.TextLessTotal | src/database.py:75 | any two distinct strings are ordered one way or the other |
| Database.BeforeAsymmetric | src/database.py:75 | the `(date, time)` order is asymmetric |
| Database.NotBeforeTransitive | src/database.py:75 | "not before" is transitive, so sorting by it is well defined |
| Database.Place | src/database.py:75 | inserting into the sorted list adds exactly that row |
| Database.PlaceOrdered | src/database.py:75 | inserting into a sorted list keeps it sorted |
| Database.OrderByDateTime | src/database.py:75 | `ORDER BY date, time` is a permutation |
| Database.OrderByDateTimeOrdered | src/database.py:75 | `ORDER BY date, time` is sorted and a permutation |
| Database.SelectMeaning | src/database.py:53-81 | a row is returned iff it is in the table and meets every truthy filter; the result is sorted by `(date, time)` |
| Database.SelectAll | src/database.py:61-73 | with no truthy filter every row is returned |
| Database.TimeOrderIsTextual | src/database.py:75 | `10:00 AM` sorts before `9:00 AM` on the same date |
| Database.InsertThenExists | src/database.py:44-51 | after inserting, the existence check on the same four fields is true (also lines 83-93 of the same file) |
| Database.InsertKeepsOthers | src/database.py:44-51 | inserting leaves the existence check for any other four fields as it was (also lines 83-93 of the same file) |
| Database.Without | src/database.py:99 | keeps exactly the rows whose id differs |
| Database.WithoutHit | src/database.py:99-103 | with increasing ids, removing an existing id removes exactly one row |
| Database.DeleteMeaning | src/database.py:95-103 | only rows with that id go; `true` iff such a row existed; a miss leaves the table unchanged; well-formedness is kept |
| Database.AppointmentStore.constructor | src/database.py:10-42 | a new store is empty and valid |
| Database.AppointmentStore.AddAppointment | src/database.py:44-51 | the table becomes `Insert` of the old table |
| Database.AppointmentStore.GetAppointments | src/database.py:53-81 | collects one condition per given filter; the rows returned are `Select`: exactly the matching rows, in `(date, time)` order |
| Database.AppointmentStore.CheckAppointmentExists | src/database.py:83-93 | true iff some row equals all four of name, email, date and time |
| Database.AppointmentStore.DeleteAppointment | src/database.py:95-103 | the table and result are those of `Delete` |
| Handler.NoteEmail | src/appointment_handler.py:17-21 | a found email replaces the remembered one; the name is untouched; nothing found leaves memory as it was |
| Handler.RenderBesidesConfirmation | src/appointment_handler.py:139-147 | only the booking confirmation depends on the language model's wording |
| Handler.RenderListing | src/appointment_handler.py:40-51 | the loop that builds the listing produces `ListingText` |
| Handler.RenderChoices | src/appointment_handler.py:211-222 | the loop that builds the choice list produces `ChoiceList` |
| Handler.Session.constructor | src/appointment_handler.py:17-21 | a new session remembers no name and no email |
| Handler.Session.ProcessMessage | src/appointment_handler.py:13-227 | reply, new memory and new table are exactly those of `Resolve`; the store stays valid |
| Handler.Session.FollowReply | src/appointment_handler.py:70-100 | the part after the model's reply equals `AfterReply` (also line 224 of the same file) |
| Handler.Session.ActFlow | src/appointment_handler.py:102-224 | action dispatch equals `Act` |
| Handler.Session.BookFlow | src/appointment_handler.py:103-147 | the booking dialogue equals `Book` |
| Handler.Session.RetrieveFlow | src/appointment_handler.py:150-177 | the retrieval branch equals `Retrieve` and leaves the table unchanged |
| Handler.Session.CancelFlow | src/appointment_handler.py:180-222 | the cancellation branch equals `Cancel` |
| Handler.Session.CancelFound | src/appointment_handler.py:195-222 | given rows read from the store, the reply and the new table are those of `CancelAmong`: not found, the single row deleted by its id, or the list of choices; the store stays valid |
| HandlerLaws.BookConfirmed | src/appointment_handler.py:103-147 | a confirmation appends exactly one row built from the merged name and email, the date, the time and the extracted purpose; the name is non-empty and the email valid; any other reply writes nothing |
| HandlerLaws.BookAsksInOrder | src/appointment_handler.py:103-132 | the reply asks for the name, email, a valid email, date, time or purpose, or reports a duplicate, exactly when that is the first check to fail |
| HandlerLaws.EmptyIsNotAnEmail | src/appointment_handler.py:106-111 | an empty email is never valid, so the "ask email" step comes first |
| HandlerLaws.BookAgainIsDuplicate | src/appointment_handler.py:127-136 | repeating a confirmed booking with the same identity reports a duplicate and writes nothing |
| HandlerLaws.LookupMeaning | src/appointment_handler.py:35-53 | a listing holds exactly the rows for that email (and date), sorted and non-empty; "none" means no row matches (also lines 160-177 of the same file) |
| HandlerLaws.RetrieveMeaning | src/appointment_handler.py:150-177 | retrieval asks for an email iff neither the details nor memory hold one; otherwise it lists by that email and date, remembers the email, and writes nothing |
| HandlerLaws.CancelMeaning | src/appointment_handler.py:180-222 | asks for details iff no name and no email are known; cancels only when exactly one row matches, removing just that id; lists all matches when there are several; reports not-found when none match; never reports a failed delete; no other case writes |
| HandlerLaws.CancelAmongMeaning | src/appointment_handler.py:195-222 | given exactly the matching rows: a single match is deleted by its id and no other row goes; none or several leave the table as it was; several are all listed; the failure reply never appears |
| HandlerLaws.CancelRemovesOne | src/appointment_handler.py:199-207 | a cancellation removes exactly one row and keeps the table well formed |
| HandlerLaws.ActWrites | src/appointment_handler.py:102-224 | only a confirmation or a cancellation changes the table, and it stays well formed |
| HandlerLaws.AfterReplyMemory | src/appointment_handler.py:70-74 | non-empty extracted name or email overwrite memory; no details leave it alone |
| HandlerLaws.ShortcutIgnoresModel | src/appointment_handler.py:24-55 | for a retrieval phrase the outcome does not depend on the language model or the date parser, and it asks for the email iff neither the message nor memory has one |
| HandlerLaws.ShortcutUsesMessageEmail | src/appointment_handler.py:17-21 | an email in the message is remembered and used for the shortcut listing (also lines 32-53 of the same file) |
| HandlerLaws.FailureWritesNothing | src/appointment_handler.py:58-68 | a failing model call yields the error reply, with only the message's email remembered (also lines 226-227 of the same file) |
| HandlerLaws.NoDetailsPassesThrough | src/appointment_handler.py:99-100 | with no details the reply is the cleaned text and nothing is written |
| HandlerLaws.ThroughAnswer | src/appointment_handler.py:58-100 | past the shortcut, a model reply is handled by extracting from it and continuing from the message's email |
| HandlerLaws.ResolveWrites | src/appointment_handler.py:13-227 | a message changes the table only by a confirmation or a cancellation, and keeps it well formed |
| HandlerLaws.ResolveMemory | src/appointment_handler.py:17-21 | remembered values are never erased; an email in the message is remembered when the shortcut or a failure answers; extracted values win otherwise (also lines 70-74 of the same file) |
| HandlerLaws.ConfirmedByBooking | src/appointment_handler.py:99-147 | a confirmation comes only from a `book` action, through the booking dialogue |
| HandlerLaws.ResolveAgainIsDuplicate | src/appointment_handler.py:127-136 | sending the same message again after a confirmation reports a duplicate and writes nothing |
| Frontend.Found | app.py:80-91 | a row is listed iff it matches the name substring and the exact date |
| Frontend.SlashDateSplits | app.py:232-234 | a slash date splits into at least three fields |
| Frontend.RemoveAll | app.py:250-255 | removing a pattern never lengthens the text |
| Frontend.Schedule.constructor | app.py:13-30 | a new table is empty, with the first id 1 |
| Frontend.Schedule.BookAppointment | app.py:37-68 | the new table and the reply are those of `Book`, and no two rows share a date and time |
| Frontend.Schedule.GetAppointments | app.py:71-108 | the loop that builds the reply produces `Listing` |
| Frontend.Schedule.GetNextAppointment | app.py:111-140 | the reply describes `NextOf`, the earliest upcoming row |
| Frontend.Schedule.ProcessMessage | app.py:269-305 | the new table and the reply are those of `Respond`; the table stays valid |
| FrontendLaws.BookMeaning | app.py:37-68 | a badly formatted date or time writes nothing and gets the format error; a taken slot writes nothing; otherwise exactly one row is appended with the next id; afterwards the slot is taken iff it was before or the format was good |
| FrontendLaws.BookKeepsWellFormed | app.py:49-62 | booking keeps every id below the counter and no slot booked twice |
| FrontendLaws.TextualClashExample | app.py:49-54 | `09:05` and `9:05` on the same day are both booked, because the clash test compares text |
| FrontendLaws.SpellingsBookedApart | app.py:49-54 | any two different spellings of a time that both parse are booked as two rows on the same day, with ids 1 and 2 |
| FrontendLaws.FoundNoFilter | app.py:80-86 | with no name and no date every row is listed |
| FrontendLaws.ListingShowsFound | app.py:102-106 | every matching row appears in the reply |
| FrontendLaws.ListingWhenNoneWanted | app.py:92-100 | with no match the reply is the not-found text |
| FrontendLaws.EarlierIrreflexive | app.py:128 | the `(date, time)` order is strict |
| FrontendLaws.EarlierTransitive | app.py:128 | the `(date, time)` order is transitive |
| FrontendLaws.NextOfMeaning | app.py:114-138 | none iff no row is upcoming; otherwise an upcoming row that no upcoming row precedes |
| FrontendLaws.NextIsEarliest | app.py:114-138 | with distinct slots, the next appointment precedes every other upcoming one |
| FrontendLaws.UnpaddedTimeLooksLater | app.py:118-121 | `9:30` counts as upcoming at `10:15` on the same day, because times compare as text |
| FrontendLaws.PmTime | app.py:249-253 | `HH:MM pm` becomes `HH+12:MM` for hours below 12 and keeps hour 12 and above |
| FrontendLaws.AmTime | app.py:254-255 | `HH:MM am` loses only its suffix |
| FrontendLaws.AfternoonExample | app.py:249-253 | `2:30 pm` becomes `14:30` |
| FrontendLaws.MidnightReadAsNoon | app.py:254-255 | `12:30 am` becomes `12:30`, which the booking reads as half past noon |
| FrontendLaws.BareHourRefused | app.py:41-44 | a time without a colon passes through unchanged and the booking refuses it with the format error (also lines 249-255 of the same file) |
| FrontendLaws.ConvertTimeFails | app.py:250-253 | the conversion raises iff the time has `pm`, a colon, and not exactly two parts or a non-integer hour |
| FrontendLaws.SlashRewrite | app.py:232-236 | `M/D/Y` becomes the year (with `20` before a 2-digit year), the zero-filled month and the zero-filled day, joined by dashes |
| FrontendLaws.SlashExample | app.py:232-236 | `3/5/24` becomes `2024-03-05` |
| FrontendLaws.ZeroFillFields | app.py:236 | zero-filling a month or day keeps its value |
| FrontendLaws.SlashRewriteKeepsDate | app.py:232-236 | with a 4-digit year, the rewrite reads under `%Y-%m-%d` as the same date the original reads under `%m/%d/%Y` (also line 42 of the same file) |
| FrontendLaws.IsoDateKept | app.py:229-236 | an ISO date passes through unchanged |
| FrontendLaws.BookingKeywordWins | app.py:271-272 | any booking keyword routes to booking |
| FrontendLaws.CheckScheduleIsBooking | app.py:271-272 | "Check my schedule" goes to booking, since booking keywords are looked for first (also lines 290-291 of the same file) |
| FrontendLaws.NextWordRoutesToNext | app.py:290-298 | without a booking keyword, "next" or "upcoming" leads to the next-appointment reply and no write |
| FrontendLaws.NoKeywordFallback | app.py:305 | a message with no keyword gets the fallback text and writes nothing |
| FrontendLaws.RespondWrites | app.py:269-305 | only booking writes, by one row with the next id; the table stays well formed |
| FrontendLaws.MissingDetailsAsked | app.py:277-284 | a booking message without a date or a time writes nothing and names the missing ones, date before time |
| FrontendLaws.TomorrowBeforeToday | app.py:239-242 | with no captured date, "tomorrow" gives tomorrow's date |
| FrontendLaws.ExtractMeaning | app.py:216-266 | extraction raises iff the captured time fails conversion; the name defaults to `Unknown`, the purpose to `Not specified`, and the time is present iff captured |

## Left out

- The language model (`src/llm_setup.py`): the call, the prompt and the fallback formatting are not modelled. The reply text, or the exception raised, is an input; the confirmation wording is a parameter.
- The probing of the response's `text`/`content`/dict attributes in `process_message` is not modelled: the reply is given as its text.
- Exceptions other than a failing model call are not modelled. In particular, the model has no SQLite errors.
- `dateparser.parse` is an input function. The `except Exception` around it is modelled as the outcome `Raised`.
- `datetime.now` is not modelled: today, tomorrow and the current time are a `Clock` parameter.
- The regular-expression engine of `app.py` is not modelled: the captures of the name, date, time and purpose patterns, and of `for <name>`, are inputs.
- Email search and field extraction in `src/utils.py` are modelled on the patterns themselves.
- SQL `LIKE` wildcards (`%`, `_`) inside user values are not modelled: name and email filters are plain substring tests.
- Text.Lower: lower-cases ASCII letters only. Python's `str.lower()` also lower-cases other letters, some of them into ASCII letters (U+212A KELVIN SIGN becomes `k`). So "BOO\u212A me in" is a booking request at `app.py:272`, and "LOO\u212A UP my appointments" a retrieval request at `src/appointment_handler.py:24-29`; the model recognises neither. (For the name filter, `Text.Lower` stands for SQLite's `LOWER`, which also folds ASCII only.)
- Text.ParseInt: reads ASCII digits only, as `Text.IsDigit` accepts only `0`-`9`. Python's `int()` accepts every Unicode decimal digit, so "\u0663 pm" (Arabic-Indic three) becomes `3:00 PM` at `src/utils.py:70-84` but is left unchanged in the model.
- Calendar.ParseDate: reads ASCII digits only; `strptime`'s `%Y`, `%m` and `%d` also accept other Unicode decimal digits. The same holds for Calendar.ParseClock and the other field readers.
- Database.OrderByDateTime: rows with equal date and time may come out in an order SQLite need not use. Only the sorted order and the permutation are stated.
- Frontend.Found: rows are listed in insertion order. That is the usual rowid order, which `app.py` does not request.
- The `created_at` column and its timestamp are not modelled.
- SQLite connections, file paths, `init_db` with its `email` column migration, and `get_table_structure` are not modelled: the schema is fixed.
- The LangChain and CrewAI agents, tasks and crew of `app.py`, and the `@tool` wrapper, are not modelled. Only the undecorated function bodies are modelled.
- The Streamlit and Gradio user interfaces are not modelled. `st.session_state` becomes the `Session` class.
- `get_random_greeting` is not modelled, since it is random.
- The check-then-insert race between concurrent sessions is not modelled.
- Handler.Session.ProcessMessage: the retrieval fallback at `src/appointment_handler.py:77-96` is unreachable, because every retrieval phrase returned earlier. It has no counterpart in the model.
- Handler.Session.ProcessMessage: the `General appointment` purpose default at `src/appointment_handler.py:135` is unreachable, because a missing purpose is asked for first. The model stores the extracted purpose.
- The "error while trying to cancel" reply at `src/appointment_handler.py:208-209` cannot occur, since the id comes from the table just read. The model keeps the branch, and `HandlerLaws.CancelMeaning` proves it is never taken.
- The keyword front end's `init_db` table has no email column. The `Frontend` model keeps its own `Ledger` rather than sharing the resolver's store.
