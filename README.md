# Docket engine of the eviction-scheduling app

This project models, in Dafny, the part of the Flask application that
allocates docket slots and rotates the turn among the seven judicial
commissions.

- The slot ledger (`Agenda`) holds four slots per working day, each for one
  commission, free or taken.
- The bookings (`Apuntes`) each hold one slot: date, commission, court,
  representative and case reference.
- The single turn row (`Turno`) holds the commission whose turn it is
  (`turno`) and the out-of-turn bookings still owed a skip (`salta_turno`).

Around that state the model covers these handlers:

- the availability check and the booking of a slot (`apunte`);
- amending a booking (`modificar`);
- cancelling one (`borrar`);
- the permanencia line under a day's page;
- the admin fill that adds slots up to a target date.

The model proves that every handler keeps the docket consistent:

- a slot is taken exactly when a booking holds it;
- no pair (date, commission) is booked twice;
- the turn is never itself pending.

It also proves what the turn rotation and the fill promise.

Modules:

| module | file | contents |
|---|---|---|
| `Dates` | dates.dfy | dates as day numbers (day 0 is Monday 2024-01-01) and the ISO weekday |
| `Records` | records.dfy | slots, bookings and the first-match lookups of the ORM queries |
| `Turn` | turn.dfy | the turn rotation and the skip loop, on lists of numbers |
| `TurnEncoding` | turn_encoding.dfy | the same rotation on the stored strings (`strip().split()`, `' '.join`), and proof that it agrees with `Turn` |
| `Generator` | generator.dfy | the admin fill: which slots it generates and why it refuses |
| `Availability` | availability.dfy | the availability window and the permanencia |
| `Amendment` | amendment.dfy | the field edits of `modificar` |
| `Ledger` | ledger.dfy | the consistency invariant and the proof that each handler keeps it |
| `Docket` | agenda.dfy | class `Agenda` with the three tables as fields; one method per handler, with its loops, proved against the functions above |

The class methods state their whole new state in terms of the functions of
the other modules. The properties are proved about those functions.

Conventions:

- Commissions are integers. The form's placeholder choice is an integer that
  no slot carries.
- "First" (`.first()`) means the earliest record in insertion order. The
  ledgers are sequences in insertion order.

## Model

| member | source | states |
|---|---|---|
| Dates.IsoWeekday | app/admin.py:36 | the weekday rank is in 1..7, and it is 1 (Monday) exactly on days 0 mod 7 |
| Dates.NextDay | app/admin.py:45 | weekdays advance one by one, and Sunday is followed by Monday |
| Dates.TwoDaysAfterWeekend | app/admin.py:36-37 | two days after a Saturday is a Monday, and two days after a Sunday is a Tuesday |
| Records.FirstSlot | app/main.py:74 | None exactly when no slot has the (date, commission); otherwise the index of the earliest such slot |
| Records.AvailableOn | app/main.py:65-69 | c is listed exactly when a free slot (date, c) exists |
| Records.SlotsOnMembers | app/main.py:251 | a day's page holds exactly the ledger's slots of that day |
| Records.SlotsOnAppend | app/main.py:251 | the page of a concatenated ledger is the concatenation of the pages |
| Records.FirstBooking | app/main.py:112 | None exactly when no booking has the (date, commission); otherwise the earliest such booking |
| Records.FirstBookingByRef | app/main.py:139-140 | None exactly when no booking on the date has the case reference; otherwise the earliest such booking |
| Records.RemoveAt | app/main.py:145 | deleting a booking keeps every other booking, in order |
| Turn.Next | app/main.py:80-82 | the successor of a real commission is a real commission (8 wraps to 1) |
| Turn.RemoveFirst | app/main.py:86 | `list.remove` takes out exactly one occurrence |
| Turn.SkipFrom | app/main.py:84-86 | the skip loop on numbers; no contract of its own: SkipFromConsumes, PassedWerePending and SkipFromInRange state what it does |
| Turn.RecordBooking | app/main.py:77-89 | the turn update of a booking on numbers; no contract of its own: OutOfTurn, RecordBookingKeepsInvariant and the scenarios state what it does |
| Turn.AdvanceTurn | app/main.py:80-86 | the loop computes the skip-from-next function: Next(turn), then skipping and consuming pending entries |
| Turn.SkipFromConsumes | app/main.py:84-86 | the loop stops on a non-pending number no further ahead than the number of pending entries, and consumes one pending entry for each number it passed |
| Turn.PassedWerePending | app/main.py:84-86 | every number the loop passed, from its start up to the turn it stops on, was pending |
| Turn.SkipFromInRange | app/main.py:84-86 | starting from a real commission, the loop ends on 1..8 and leaves only real commissions pending |
| Turn.OutOfTurn | app/main.py:77-78 | an out-of-turn booking leaves the turn alone and appends the commission once more, even when already pending |
| Turn.RecordBookingKeepsInvariant | app/main.py:77-89 | every booking of a real commission keeps the turn in 1..8, the pending entries real, and the turn not pending |
| Turn.OnTurnNothingPending | app/main.py:80-82 | with nothing pending, an on-turn booking passes the turn to the next commission |
| Turn.OnTurnRunWheel | app/main.py:80-89 | with nothing pending, n on-turn bookings move the turn n steps round the wheel 1..7 and leave nothing pending |
| Turn.CycleWheel | app/main.py:80-82 | counting i steps of the 8-to-1 wrap from a real commission lands on (turn - 1 + i) % 7 + 1 |
| Turn.RotationCoverage | app/main.py:80-89 | seven on-turn bookings from an empty pending list give the turn to every commission, none twice, and come back to the start |
| Turn.SkipScenario | app/main.py:84-86 | turn 3 with 4 pending: booking 3 moves the turn to 5 and empties the pending list |
| Turn.TurnEightReachable | app/main.py:80-86 | turn 6 with 7 pending: booking 6 moves the turn to 8, because the loop does not wrap |
| Turn.TurnEightSticks | app/main.py:77-78 | at turn 8 every booking of a real commission is out of turn: the turn stays 8 and the commission is appended |
| TurnEncoding.Show | app/main.py:84 | `str(n)` is one word without blanks, and has one character exactly when n < 10 |
| TurnEncoding.SplitStrip | app/main.py:83 | `strip()` before `split()` changes nothing |
| TurnEncoding.SplitAppend | app/main.py:83 | splitting text that ends in a blank distributes over concatenation |
| TurnEncoding.SplitSerialize | app/main.py:87 | what `' '.join(words) + ' '` writes splits back into the same words and ends in a blank |
| TurnEncoding.AppendWord | app/main.py:78 | `salta_turno += c + ' '` adds exactly one word to what `strip().split()` reads back |
| TurnEncoding.ShowDigitInjective | app/main.py:84 | different single-digit numbers have different strings |
| TurnEncoding.ShowsMember | app/main.py:84 | `str(t) in array_saltos` holds exactly when t is pending |
| TurnEncoding.ShowsRemove | app/main.py:86 | removing `str(t)` from the words is removing t from the numbers |
| TurnEncoding.SkipWordsAgree | app/main.py:84-86 | the loop on words stops on the same turn as the loop on numbers, and leaves the words of what that loop leaves |
| TurnEncoding.SkipWords | app/main.py:84-86 | the skip loop on the words of `array_saltos`; no contract of its own: SkipWordsAgree states what it does |
| TurnEncoding.RecordBookingText | app/main.py:77-89 | the turn update on the stored strings; no contract of its own: RecordBookingTextAgrees states what it does |
| TurnEncoding.RecordBookingTextAgrees | app/main.py:77-89 | if the stored text reads back as the pending list, then after any booking the turns agree and the new text reads back as the new pending list |
| Generator.DaySlotsCycle | app/admin.py:38-44 | a generated day holds four free slots, with commissions k and the next three on the wheel; the counter ends four steps on |
| Generator.FillDayIsWeekday | app/admin.py:36-37 | the weekend jump lands on a weekday at most two days later |
| Generator.Generate | app/admin.py:35-45 | the slots the fill loop adds; no contract of its own: the Generate lemmas below state what it does |
| Generator.Fill | app/admin.py:21-45 | the whole fill branch; no contract of its own: FillOutcome states its result |
| Generator.GenerateFrom | app/admin.py:35-45 | every generated slot is free and dated on or after the cursor |
| Generator.GenerateShape | app/admin.py:35-45 | nothing is generated exactly when the cursor is past the target; whole days of four slots; the last day reaches the target |
| Generator.GenerateDates | app/admin.py:35-45 | every generated slot is free and on a weekday, between the cursor and two days past the target |
| Generator.GenerateSorted | app/admin.py:35-45 | generated dates never go down |
| Generator.GenerateDays | app/admin.py:38-45 | slots come in groups of four with one date each, and each group's date is later than the previous group's |
| Generator.GenerateCovers | app/admin.py:35-45 | from a cursor that is not a Sunday, every weekday up to the target gets at least one slot |
| Generator.SundayCursorSkipsMonday | app/admin.py:36-37 | a Sunday cursor jumps to Tuesday, and the Monday gets no slot |
| Generator.GenerateChain | app/admin.py:38-44 | the run starts with k, each commission follows the previous one on the wheel across days, and all are real commissions |
| Generator.FourDistinct | app/admin.py:38-44 | the four commissions of a day are pairwise distinct |
| Generator.GenerateUnique | app/admin.py:35-45 | no (date, commission) pair is generated twice |
| Generator.RunPages | app/admin.py:35-45 | the page of the j-th generated day is exactly its block of four slots |
| Generator.GeneratedPages | app/admin.py:35-45 | after a ledger of earlier days, each generated day's page is its block of four slots |
| Generator.FillOutcome | app/admin.py:21-45 | refused exactly on an empty ledger, or a target on or before the last date or more than 365 days after it; otherwise a non-empty run of whole days of free weekday slots, starting from the commission after the last slot's and reaching the target |
| Generator.FridayToMonday | app/admin.py:35-45 | a fill from a Friday to the next Monday gives only that Monday's four slots |
| Generator.SaturdayTargetFillsMonday | app/admin.py:35-37 | the target is compared before the weekend jump, so a Saturday target still fills the Monday |
| Availability.FreeDates | app/main.py:34-42 | a date is listed exactly when it is within five days, not a Friday, and has a free slot of the turn commission |
| Availability.BookedOn | app/main.py:46-48 | a pair is listed exactly when some booking on that day has that representative |
| Availability.Conflicts | app/main.py:44-48 | a pair is listed exactly when its date is listed and a booking on it has that representative |
| Availability.CheckWindow | app/main.py:31-55 | the window lists exactly the free dates; its conflicts are exactly the bookings on those dates; the Friday warning appears exactly when the chosen day is a Friday |
| Availability.Permanencia | app/main.py:271-273 | the permanencia of a day; no contract of its own: PermanenciaOfGeneratedDay states its value |
| Availability.PermanenciaOfGeneratedDay | app/main.py:271-273 | on a generated day, the permanencia is the commission after the fourth slot (a real commission), and it is the next day's first commission |
| Amendment.Amended | app/main.py:112-123 | an amended booking keeps its date and commission |
| Amendment.IneffectiveIsIdentity | app/main.py:113-123 | an edit that applies no field (including the placeholder court or an empty representative) leaves the booking unchanged |
| Amendment.AmendedFields | app/main.py:113-123 | each field takes the new value when its edit applies and keeps the old one otherwise; a field changes only if its edit applies |
| Ledger.FreeSlotIsFirst | app/main.py:74 | in a well-formed ledger, the first-match lookup finds the free slot |
| Ledger.BookKeeps | app/main.py:72-91 | booking a free slot keeps the ledger well formed and consistent; the slot is taken and none free for the pair remains |
| Ledger.CancelKeeps | app/main.py:139-146 | cancelling frees the booking's slot, leaves no booking on it, and keeps the docket consistent |
| Ledger.ReplaceKeeps | app/main.py:112-124 | replacing a booking by one on the same slot keeps the docket consistent |
| Ledger.FillKeeps | app/admin.py:22-45 | the fill keeps the ledger well formed and consistent with the unchanged bookings |
| Ledger.LastIsLatest | app/admin.py:22-23 | in a well-formed ledger the last inserted slot has the latest date |
| Ledger.BookThenCancel | app/main.py:139-146 | cancelling a just-made booking by its case reference finds it and its slot, and restores both ledgers |
| Docket.Agenda.constructor | app/models.py:9-13 | a seeded docket of free slots, no bookings, a real turn and nothing pending is valid |
| Docket.Agenda.CheckAvailability | app/main.py:31-55 | the check reports the availability window of the current turn |
| Docket.Agenda.FreeDatesNear | app/main.py:36-42 | the first loop collects the free dates of the turn commission |
| Docket.CollectConflicts | app/main.py:44-48 | the second loop collects the conflicts of the listed dates |
| Docket.CollectBookedOn | app/main.py:46-48 | the inner loop collects the representatives booked on a day |
| Docket.Agenda.FreeCommissions | app/main.py:65-69 | the loop collects the day's free commissions |
| Docket.Agenda.Book | app/main.py:59-96 | success exactly when a free slot exists; then that slot is taken, the booking appended, and the turn state recorded; otherwise nothing changes; validity is kept |
| Docket.Agenda.Cancel | app/main.py:136-150 | None exactly when no booking matches; otherwise reports its court and commission, frees the slot, removes the booking, and leaves the turn alone; validity is kept |
| Docket.Agenda.Amend | app/main.py:106-126 | success unless an effective edit finds no booking; the first matching booking is amended; nothing else changes; validity is kept |
| Docket.Agenda.Extend | app/admin.py:21-47 | the result is the fill of the old ledger; on success its slots are appended; bookings and turn are untouched; validity is kept |
| Docket.Agenda.FillFrom | app/admin.py:35-45 | the while loop appends exactly the generated run |
| Docket.Agenda.AppendDay | app/admin.py:38-44 | the for loop appends one day's four slots and advances the counter by four |

## Left out

- Authentication and `login_required` are left out. The model does not record that `modificar` has no `login_required` while `borrar` does.
- Rendering, flash messages, redirects and the PDF layout (app/main.py:155-280, apart from the permanencia line) are left out, because they only present data.
- WTForms validation is left out. ModificarForm is not defined in app/forms.py, so the amend handler is modelled from app/main.py alone.
- Date parsing and formatting (`strptime`/`strftime`) are left out. Dates are day numbers.
- `.title()` on the representative name is left out. Book takes the name as already title-cased, because case mapping is Unicode-dependent.
- Blanks are six ASCII characters: space, tab, newline, carriage return, vertical tab and form feed. Python's `str.split` and `str.strip` also treat the ASCII separators \x1c–\x1f and the non-ASCII Unicode spaces as blanks; those are left out, because `salta_turno` is only ever written with digits and spaces.
- Commissions are integers, and the stored strings `"1"`..`"7"` are not modelled, except in `TurnEncoding`, where the `salta_turno` text is modelled with single-digit numbers.
- Transactions, commit granularity and concurrent requests are left out. Each handler is one atomic step. For an on-turn booking the source commits the turn update before the booking is added (app/main.py:88-92); a failure between those two commits is not modelled. For an out-of-turn booking the `salta_turno` append is committed together with the booking.
- A missing `Turno` row (`Turno.query.get(1)` returning None) and a NULL `salta_turno` are left out. They would crash the source, and the model assumes the row exists.
- The listing and reporting queries and the `Usuario` model are left out, because they do not touch the slot allocation. `DeletePageForm` in app/forms.py has no handler in app/main.py or app/admin.py, so nothing purges slots.
- Permanencia has no contract of its own. Its behaviour on generated days is stated by PermanenciaOfGeneratedDay. On a page of one to three slots the source raises IndexError, and the model returns None.
- Crashes are modelled as outcomes with no state change:
  - an empty ledger in the admin fill (`Agenda.query.all()[-1]` raises IndexError) is `Rejected(EmptyAgenda)`;
  - an effective amend with no matching booking (an attribute set on None) is `ok == false`.

Behaviour of the code that the model keeps as written:

- The booking handler does not check the case reference's format or year. A commission outside 1..7 is refused as not available, because no slot carries it.
- An out-of-turn booking appends the commission to `salta_turno` even when it is already pending, so pending entries form a list with repeats.
- The skip loop does not wrap from 8 to 1. Turn 8 can be reached (TurnEightReachable), and from then on every booking is out of turn (TurnEightSticks).
- The conflict list covers only the dates the availability check returns.
- The fill continues from the last inserted slot. In a well-formed ledger that slot has the latest date (LastIsLatest).
- A Sunday cursor jumps two days to Tuesday, so that Monday gets no slots (SundayCursorSkipsMonday).
- An amend with no matching booking and an ineffective edit reports success and changes nothing; with an effective edit it crashes.
- Cancel takes the first booking on the date with that case reference.
