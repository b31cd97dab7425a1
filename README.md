# calendar_sync — a Dafny model

`calendar_sync.py` reads a weekly schedule and creates one recurring Google
Calendar event per slot. The schedule gives a zone, a calendar name,
attendees, reminders, a default duration and, for each weekday name, named
slots with a time and optional title, description and duration. The script
first looks the calendar up by name across the pages of the calendar list,
creating it when it is absent. For every slot it then builds an event:

- the event first occurs on the next date from today with the slot's weekday,
  at the slot's `HH:MM`;
- the event lasts the slot's duration (or the default);
- it recurs by `RRULE:FREQ=WEEKLY;BYDAY=<code>`;
- it carries the attendees and reminders.

It inserts that event, stopping at the first slot that raises.

This project models that core and proves what it promises:

- `text.dfy` (module `Text`): the string built-ins the script uses —
  `str.lower`, `str.title` and `str.split` on one character, plus `int` on a
  string. The script never pads or formats a time: `Text.Pad2` and
  `Events.FormatTime` only write the `HH:MM` texts of the round-trip lemmas
  `Events.ParseFormattedTime` and `Events.PaddedTimeRoundTrip`.
- `weekdays.dfy` (module `Weekdays`): `WEEKDAY_MAP`, its case-insensitive
  lookup, the weekday index (Monday = 0), `date.weekday()` on ordinal dates,
  and `next_date_for_weekday`.
- `events.dfy` (module `Events`): the pure part of `create_weekly_event`.
  It validates the weekday, reads `HH:MM`, and computes start, end,
  recurrence and the event body.
- `calendars.dfy` (module `Calendars`): `find_calendar` as the paged loop it
  is (a method proved equal to a page-by-page reference function), and the
  create-if-absent step of `main`.
- `sync.dfy` (module `Sync`): the defaults of `main`, the arguments it
  passes per slot, and its two nested loops. The loops are the methods
  `InsertDay` and `InsertEvents`, proved equal to the reference run
  `PlanJobs`. `Run` strings the whole of `main` together.
- `outcomes.dfy` (module `Outcomes`): `Option` and `Result`.

How the outside world is represented:

- A date is its proleptic ordinal (`date.toordinal()`). An instant is local
  wall-clock minutes from the start of day 0. Python adds a `timedelta` to
  an aware datetime in wall-clock terms, so end = start + duration holds
  exactly here.
- The clock is a parameter. `create_weekly_event` reads the date in the
  schedule's zone afresh at every call (`datetime.now(tz)` inside
  `next_date_for_weekday`). A `Clock` gives, for each position `k`, the date
  that the call for the slot visited after `k` others reads. A run that
  crosses midnight is one whose clock changes between slots
  (`Sync.MidnightBetweenSlots`).
- The calendar list is the sequence of pages the service answers, and the
  id of a created calendar is a parameter.
- An insert is an `InsertCall` record: calendar id, event body, and
  `sendUpdates`.

An unknown weekday is not rejected up front. It is checked per slot,
inside `create_weekly_event`. That check comes after the calendar lookup
(and a creation, if any) and after the inserts of earlier slots. A weekday
whose entry has no slots is never checked at all (`Sync.EmptyDayIsSkipped`,
`Sync.UnknownWeekdayEndsRun`).

A slot without a `time` fails with `AttributeError` (`None.split`). A time
that does not split into two integers raises `ValueError`. So does an
integer-looking component of more than 4300 digits, which `int` refuses. The
two integers then go to `time(hh, mm)`. It converts both to C `int`, the
hour first, and raises `OverflowError` for a value outside that width. Only
then does it check the ranges, again the hour before the minute, and raise
`ValueError`. The model keeps these apart (`MissingTime`, `MalformedTime`,
`ComponentOverflow`, `HourOutOfRange`, `MinuteOutOfRange`) in that order.

Python's dates run from 1 January of year 1 to 31 December 9999 (ordinals 1
to 3652059). Between reading the two integers and calling `time(hh, mm)`,
the script computes the first date (line 80), and that raises
`OverflowError` for a date past the last one. After `time(hh, mm)`, adding
the duration (line 95) raises `OverflowError` for an end outside those
years, whatever the date once the duration passes about ±5.26·10⁹ minutes
(`Events.LongDurationOverflows`). A duration beyond 999999999 days, which
`timedelta` itself refuses with `OverflowError`, always puts the end there.
The model raises `DateOutOfRange` at both points, in the same order.

## Model

| member | source | states |
|---|---|---|
| Text.Lower | calendar_sync.py:84 | `str.lower` keeps the length, maps each upper-case letter to the same letter in lower case, leaves every other character alone, and leaves no upper-case letter |
| Text.LowerIdempotent | calendar_sync.py:84 | lower-casing twice equals lower-casing once |
| Text.Title | calendar_sync.py:144 | `str.title` keeps the length (its character-wise rule is `Text.TitleSpec`) |
| Text.TitleSpec | calendar_sync.py:144 | `str.title` keeps the length and upper-cases exactly the first letter of each run of letters, lower-casing the rest |
| Text.TitleIdempotent | calendar_sync.py:144 | title-casing twice equals title-casing once |
| Text.TitleKeepsLetters | calendar_sync.py:144 | title-casing changes only letter case: its lower case is the input's lower case |
| Text.Split | calendar_sync.py:89 | `split` always gives at least one piece |
| Text.SplitJoin | calendar_sync.py:89 | joining the pieces of `split(':')` with `':'` gives the string back |
| Text.SplitPieces | calendar_sync.py:89 | `split` gives one piece more than there are separators, none containing the separator |
| Text.SplitAtSeparator | calendar_sync.py:89 | `a + ':' + b` without other colons splits into exactly `[a, b]` |
| Text.ParseInt | calendar_sync.py:89 | a string `int` accepts ends, after stripping, in a digit, and a negative result comes only from a leading minus sign |
| Text.ParseIntLiteral | calendar_sync.py:89 | `int` accepts whitespace, an optional `+` or `-`, one to 4300 digits and whitespace, and reads it as the digits' value, negated exactly under `-` |
| Text.ParseIntOnlyLiterals | calendar_sync.py:89 | every string `int` accepts is such a literal, read as that value |
| Text.SeparatorIsNotSpace | calendar_sync.py:89 | `int` refuses a digit behind one of the separators `\x1c` to `\x1f`, which it does not take for whitespace |
| Text.ParseIntDigits | calendar_sync.py:89 | `int` of a run of at most 4300 decimal digits is its decimal value |
| Text.ParseIntPad2 | calendar_sync.py:89 | `int` reads a two-digit zero-padded number back as itself |
| Text.Pad2OfDigits | calendar_sync.py:89 | any two digits are the zero padding of their own value, below 100 |
| Weekdays.WeekdayKeysListTheMap | calendar_sync.py:69-72 | the key order lists each of the seven keys once, key `i` maps to code `i`, and no two codes coincide |
| Weekdays.IndexOf | calendar_sync.py:93 | `list.index` returns the first position holding the value |
| Weekdays.LookupWeekday | calendar_sync.py:84-93 | a name is found exactly when its lower case is a key, and then at that key's position |
| Weekdays.LookupIgnoresCase | calendar_sync.py:84-85 | any name that lower-cases to key `i` is found at `i` |
| Weekdays.LookupKeyOrTitle | calendar_sync.py:84-85 | each key, in lower case and in title case, is found at its own position |
| Weekdays.Weekday | calendar_sync.py:77 | `date.weekday()` is below 7 |
| Weekdays.DaysAhead | calendar_sync.py:77-79 | for inputs in 0..6 the offset is in 0..6, lands on the requested weekday, and is 0 exactly when today matches |
| Weekdays.WeekdayStep | calendar_sync.py:80 | moving `k` days moves the weekday `k` places modulo 7 |
| Weekdays.NextDateForWeekday | calendar_sync.py:75-80 | for a weekday index 0..6 the date is within today..today+6 and falls on that weekday |
| Weekdays.NextWeekSameDay | calendar_sync.py:75-80 | read on the day after a given weekday, the next date with that weekday is a week after it |
| Weekdays.NextDateIsSoonest | calendar_sync.py:75-80 | the next date is within today..today+6, has the requested weekday, is today when today matches, and no earlier date from today has it |
| Events.ReadTime | calendar_sync.py:89 | a missing time is `MissingTime`, and any other failure to read two integers is `MalformedTime` of the text as written |
| Events.MakeTime | calendar_sync.py:94 | `time(hh, mm)` succeeds exactly for hour 0..23 and minute 0..59, with that time; otherwise it raises an overflow for a value outside the C `int` range or a range error for one inside it |
| Events.ParseTime | calendar_sync.py:89-94 | an accepted time has hour 0..23 and minute 0..59; a present but unusable time is never reported as missing; an overflow names a value outside the C `int` range, and a range error one inside it but outside 0..23 or 0..59 |
| Events.OverflowBeforeRangeCheck | calendar_sync.py:94 | an out-of-range hour next to a minute too wide for a C `int` raises the overflow of the minute, not the hour's range error |
| Events.ParseFormattedTime | calendar_sync.py:89 | every time of day written as zero-padded `HH:MM` is read back as itself |
| Events.PaddedTimeRoundTrip | calendar_sync.py:89 | an accepted zero-padded `HH:MM` is exactly the padding of the time it is read as |
| Events.At | calendar_sync.py:94 | for an hour 0..23 and a minute 0..59, `datetime.combine` falls on the given date at that minute of the day |
| Events.RecurrenceRule | calendar_sync.py:108 | the rule is `RRULE:FREQ=WEEKLY;BYDAY=` followed by exactly the day code |
| Events.RuleRecursOnItsWeekday | calendar_sync.py:108 | the rule written for weekday `i` is read back as recurring on weekday `i` |
| Events.AttendeeRecords | calendar_sync.py:109 | one `{'email': em}` per attendee, in order |
| Events.FirstDate | calendar_sync.py:92-93 | the first occurrence is within today..today+6 |
| Events.BuildEvent | calendar_sync.py:83-114 | an unknown weekday raises `Invalid weekday` with the name as written, whatever the time; for a known one the event is built exactly when the time is accepted and the first date and the end lie in years 1..9999. Otherwise it raises the first error in the code's order: a reading error; then `DateOutOfRange` when the first date is outside years 1..9999; then the error of `time(hh, mm)`; then `DateOutOfRange` for the end |
| Events.LastDayIsFriday | calendar_sync.py:77-80 | 31 December 9999 is a Friday, and the next Monday from it is three days past it |
| Events.LongDurationOverflows | calendar_sync.py:95 | with an accepted weekday and time, a duration of at least 3652059 days' worth of minutes, either way, raises `DateOutOfRange` whatever the date |
| Events.EventTiming | calendar_sync.py:87-108 | a built event starts on the soonest date from today with the requested weekday (today if it matches) at `HH:MM`, ends `duration` minutes later, recurs weekly by the one rule with that weekday's code, and starts and ends in years 1..9999 |
| Events.EventCarriesRequest | calendar_sync.py:97-113 | title, description and zone are carried over, one attendee record per address in order, reminders as overrides with `useDefault` false |
| Events.NextDayEvents | calendar_sync.py:92-95 | two requests alike in weekday and time, the first built on that weekday and the second the day after, start a week apart, the first on its own day |
| Events.SameWeekdayEvents | calendar_sync.py:92-108 | two events under one weekday name share their recurrence rule and start together exactly when their times agree |
| Calendars.LastRequested | calendar_sync.py:53-55 | the last page the search can request is the first one without a continuation token |
| Calendars.FirstMatch | calendar_sync.py:50-52 | what the search over one list finds is one of its entries and carries the name; it finds nothing exactly when no entry has the name (that it is the first such entry is `Calendars.FirstMatchIsFirst`) |
| Calendars.FirstMatchIsFirst | calendar_sync.py:50-52 | an entry with the name and none with it before it is the one found: the search returns the first match |
| Calendars.FirstMatchAppend | calendar_sync.py:48-52 | the first match in a concatenation is that of the first part if it has one, else that of the second |
| Calendars.Lookup | calendar_sync.py:46-56 | the page-by-page search makes at least one request and at most one per page, and what it finds carries the name |
| Calendars.LookupIsFirstMatch | calendar_sync.py:46-56 | `find_calendar` returns the first matching entry, in page-then-item order, among the pages up to the first one without a token; `None` exactly when none matches there |
| Calendars.LookupRequests | calendar_sync.py:46-56 | the search requests at least one page and no page after the one holding the first match; when nothing matches it requests every reachable page |
| Calendars.FindCalendar | calendar_sync.py:46-56 | the paged loop returns the entry and issues the requests of the reference search |
| Calendars.Resolve | calendar_sync.py:133-137 | a calendar named after the schedule, in its zone, is created exactly when the search finds nothing; otherwise the found calendar's id is used |
| Calendars.ResolveIdempotent | calendar_sync.py:133-136 | run again on a listing that also shows the calendar created, the step creates nothing and settles on the same id |
| Sync.ResolveSettings | calendar_sync.py:125-129 | the defaults are UTC, "Your Calendar", no attendees, one popup reminder 15 minutes before, 30 minutes and an empty week, and a value the schedule gives wins |
| Sync.RequestFor | calendar_sync.py:143-148 | without a title the title is `weekday.title() + " " + slot_name.title()`, without a duration the default applies, without a description it is empty, and the time, zone, attendees and reminders pass through |
| Sync.SlotsOf | calendar_sync.py:142 | the slots of one weekday entry, in order, each with the weekday as written |
| Sync.Jobs | calendar_sync.py:140-142 | the nested loops visit no slot exactly when every weekday entry is empty |
| Sync.JobsAppend | calendar_sync.py:141-142 | the slots of a week split by days are the slots of its parts |
| Sync.CreateWeeklyEvent | calendar_sync.py:147-148 | the per-slot call, whatever date it reads, raises `Invalid weekday` for an unknown weekday; for a known one it builds an event exactly when the slot's time is accepted and the first date and the end, on the date that call reads, lie in years 1..9999; otherwise it raises `DateOutOfRange` or the time's error |
| Sync.SlotBuilt | calendar_sync.py:147-148 | the slot visited after `k` others is built from its arguments on the date that call reads |
| Sync.PlanJobs | calendar_sync.py:141-148 | a run makes at most one insert per slot, each into the chosen calendar with `sendUpdates='all'` |
| Sync.PlanStep | calendar_sync.py:147-148 | one more slot is inserted when it builds an event, and ends the run with its exception otherwise |
| Sync.PlanStopsAtFailure | calendar_sync.py:141-148 | after an exception later slots change nothing |
| Sync.PlanJobsSpec | calendar_sync.py:141-148 | the inserts are for a prefix of the slots, in order, each with its event and `sendUpdates='all'`; every slot is covered exactly when nothing raised; otherwise the first slot left out raised that exception |
| Sync.AllSlotsInserted | calendar_sync.py:141-148 | when every slot is valid, every slot is inserted, in order |
| Sync.EmptyDayIsSkipped | calendar_sync.py:141-142 | a weekday entry without slots adds nothing, whatever its name |
| Sync.RaisingSlotEndsRun | calendar_sync.py:141-148 | a slot that raises after valid ones ends the run with what was inserted before it |
| Sync.UnknownWeekdayEndsRun | calendar_sync.py:141-148 | an unknown weekday ends the run at its first slot with `Invalid weekday`: the earlier slots are inserted, that one and all later ones are not |
| Sync.TwoSlotsOneWeekday | calendar_sync.py:141-148 | two valid slots under one weekday give two inserts, recurring by the same rule; when both calls read the same date they start together exactly when their times agree |
| Sync.MidnightBetweenSlots | calendar_sync.py:141-148 | two slots at one time under today's weekday start a week apart when midnight passes between their calls: the first today, the second a week later |
| Sync.TwoSlotWeek | calendar_sync.py:141-148 | two valid slots under one weekday give exactly two inserts, of their events, in order |
| Sync.OneSlotWeek | calendar_sync.py:141-148 | one valid slot gives exactly one insert, of its event |
| Sync.StandupRequest | calendar_sync.py:143-146 | the slot `standup` under `monday` without a title is titled "Monday Standup" and keeps its 15 minutes and 09:00 |
| Sync.MondayStandup | calendar_sync.py:140-148 | that schedule, read on any date before the last week of 9999, makes one insert: "Monday Standup", first on the coming Monday at 09:00, 15 minutes long, weekly on Mondays |
| Sync.StandupOnLastDay | calendar_sync.py:140-148 | read on 31 December 9999, the same schedule inserts nothing and raises `DateOutOfRange` |
| Sync.InsertDay | calendar_sync.py:142-148 | the inner loop over one weekday's slots extends the run by exactly those slots |
| Sync.InsertEvents | calendar_sync.py:140-148 | the nested loops issue exactly the inserts of the reference run and stop with its exception |
| Sync.Run | calendar_sync.py:123-148 | `main` settles on the calendar of the create-if-absent step and then makes the inserts of the reference run on it, each slot's call reading its own date off the clock |

## Left out

- `get_credentials` and `get_service` (OAuth flow, token cache, local
  server): foreign library calls and file I/O.
- `load_schedule`: file reading and JSON decoding. The parsed schedule is
  an input value (`ScheduleConfig`) whose fields already have the right
  types. A wrong JSON type (a non-list `attendees`, a non-integer duration,
  a non-string `time`) and the errors it would raise are not modelled.
- JSON objects become sequences in file order. Duplicate keys, which
  `json.load` collapses, are not ruled out.
- All remote calls: each `execute()` is assumed to succeed. Pages, the
  created id and the inserts are inputs or records, and service errors are
  not modelled.
- Calendars.Resolve: records the created calendar once. It stands for
  both `calendars().insert` and the `calendarList().insert` that follows.
- Calendars.FindCalendar: requires a listing that ends. A service that
  hands out tokens forever, making the loop run forever, is not modelled.
- An entry without an `id` (a `KeyError` at line 137) is not modelled:
  entries always carry one.
- `datetime.now(tz)`: the dates read during a run are the parameter
  `clock`, one per slot. That they never go backwards is not assumed, and
  the lemmas hold for every clock.
- Events.BuildEvent: does not raise for an unknown zone name
  (`ZoneInfo`). The zone is only copied into the event.
- DST gaps and folds, UTC offsets and `isoformat()`: an instant is local
  wall-clock minutes.
- Text.Lower and Text.Title: cover ASCII letters only. For weekday
  matching this is exact. Only two non-ASCII characters lower-case to
  something with an ASCII letter in it. KELVIN SIGN becomes `k`, and `k` is
  in no key. LATIN CAPITAL LETTER I WITH DOT ABOVE becomes `i` followed by
  COMBINING DOT ABOVE, and that combining mark keeps the name off every key.
  Titles of non-ASCII names are not modelled.
- Text.ParseInt: skips the six ASCII whitespace characters (space, tab,
  line feed, vertical tab, form feed, carriage return) and reads ASCII
  digits with an optional sign. Digit-group underscores and non-ASCII
  digits or spaces, which `int` also accepts, are not modelled.
- Events.ParseTime: reports every split into other than two integers as
  one `MalformedTime`. It does not tell Python's different `ValueError`
  messages apart: an invalid literal, not enough values to unpack, too many
  values to unpack, and the 4300-digit limit. It takes a C `int` to be 32
  bits wide, as on every platform CPython supports.
- Text.ParseInt: refuses more than 4300 digits. That is the default of
  `sys.int_info.default_max_str_digits` since Python 3.11 and the 3.7.14,
  3.8.14, 3.9.14 and 3.10.7 security releases. Older releases have no limit,
  and a limit changed at run time is not modelled.
- The `htmlLink` of the created event, the returned objects and the `print`
  output.
- De-duplication of events: the script does not attempt it, and the model
  claims none. Running `main` twice inserts every event twice.
