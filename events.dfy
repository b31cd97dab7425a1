/** The pure part of `create_weekly_event`: validating the weekday name,
    reading the `HH:MM` time, computing start and end, and building the
    event body that is sent to the calendar service.

    An instant is a local wall-clock time, counted in minutes from the start
    of day 0 of the ordinal calendar of module Weekdays. */
module Events {
  import opened Outcomes
  import opened Text
  import opened Weekdays

  /** The exceptions `create_weekly_event` can raise before the insert. */
  datatype SyncError =
    | InvalidWeekday(name: string)    // ValueError('Invalid weekday: ' + name)
    | MissingTime                     // the slot has no "time": None.split fails
    | MalformedTime(time: string)     // split into other than two integers
    | ComponentOverflow(value: int)   // OverflowError: time(hh, mm) takes C ints
    | HourOutOfRange(hour: int)       // time(hh, mm) with hh outside 0..23
    | MinuteOutOfRange(minute: int)   // time(hh, mm) with mm outside 0..59
    | DateOutOfRange                  // OverflowError: a date past years 1..9999

  datatype TimeOfDay = TimeOfDay(hour: int, minute: int)

  /** The range of a C `int` on the platforms CPython runs on (32 bits). */
  predicate FitsCInt(v: int)
  {
    -0x8000_0000 <= v < 0x8000_0000
  }

  const MinutesPerDay: int := 1440

  /** The ordinal of 31 December 9999, the last date Python represents. */
  const MaxOrdinal: int := 3652059

  /** A date of years 1 to 9999; adding a `timedelta` to a date or a
      datetime raises OverflowError for a result outside them. */
  predicate InDateRange(d: int)
  {
    1 <= d <= MaxOrdinal
  }

  /** `hh, mm = map(int, time_str.split(':'))`: the two integers, or the
      exception. A missing time fails on `None.split`; any split other than
      into two integers is one ValueError. */
  function ReadTime(timeStr: Option<string>): (r: Result<(int, int), SyncError>)
    ensures r.Err? ==> r.error == (if timeStr.None? then MissingTime else MalformedTime(timeStr.value))
  {
    match timeStr
    case None => Err(MissingTime)
    case Some(s) =>
      var parts := Split(s, ':');
      if |parts| != 2 then Err(MalformedTime(s))
      else
        match (ParseInt(parts[0]), ParseInt(parts[1]))
        case (Some(hh), Some(mm)) => Ok((hh, mm))
        case _ => Err(MalformedTime(s))
  }

  /** `time(hh, mm)`. It first converts both arguments to C ints, hour then
      minute, raising OverflowError for one that does not fit; only then
      does it check the hour range and after it the minute range. */
  function MakeTime(hh: int, mm: int): (r: Result<TimeOfDay, SyncError>)
    ensures r.Ok? <==> 0 <= hh < 24 && 0 <= mm < 60
    ensures r.Ok? ==> r.value == TimeOfDay(hh, mm)
    ensures r.Err? && r.error.ComponentOverflow? ==> !FitsCInt(r.error.value)
    ensures r.Err? && r.error.HourOutOfRange? ==> FitsCInt(r.error.hour) && !(0 <= r.error.hour < 24)
    ensures r.Err? && r.error.MinuteOutOfRange? ==> FitsCInt(r.error.minute) && !(0 <= r.error.minute < 60)
    ensures r.Err? ==> r.error.ComponentOverflow? || r.error.HourOutOfRange? || r.error.MinuteOutOfRange?
  {
    if !FitsCInt(hh) then Err(ComponentOverflow(hh))
    else if !FitsCInt(mm) then Err(ComponentOverflow(mm))
    else if !(0 <= hh < 24) then Err(HourOutOfRange(hh))
    else if !(0 <= mm < 60) then Err(MinuteOutOfRange(mm))
    else Ok(TimeOfDay(hh, mm))
  }

  /** The time of day a slot's `time` stands for: `ReadTime` and then
      `MakeTime`, each raising as it does. */
  function ParseTime(timeStr: Option<string>): (r: Result<TimeOfDay, SyncError>)
    ensures r.Ok? ==> 0 <= r.value.hour < 24 && 0 <= r.value.minute < 60
    ensures r.Err? && timeStr.Some? ==> r.error != MissingTime
    ensures r.Err? && r.error.ComponentOverflow? ==> !FitsCInt(r.error.value)
    ensures r.Err? && r.error.HourOutOfRange? ==> FitsCInt(r.error.hour) && !(0 <= r.error.hour < 24)
    ensures r.Err? && r.error.MinuteOutOfRange? ==> FitsCInt(r.error.minute) && !(0 <= r.error.minute < 60)
  {
    match ReadTime(timeStr)
    case Err(e) => Err(e)
    case Ok(p) => MakeTime(p.0, p.1)
  }

  /** The zero-padded `HH:MM` text of a time of day. The script never formats
      a time; this only states which texts `ParseTime` reads back. */
  function FormatTime(t: TimeOfDay): string
    requires 0 <= t.hour < 24 && 0 <= t.minute < 60
  {
    Pad2(t.hour) + ":" + Pad2(t.minute)
  }

  /** A minute too wide for a C int raises OverflowError even when the hour
      is already out of range (`"25:3000000000"`, say): the conversion comes
      before the range checks. */
  lemma OverflowBeforeRangeCheck(hh: string, mm: string)
    requires IsDigits(hh) && IsDigits(mm) && |hh| <= MaxStrDigits && |mm| <= MaxStrDigits
    requires 24 <= DigitsValue(hh) < 0x8000_0000 && 0x8000_0000 <= DigitsValue(mm)
    ensures ParseTime(Some(hh + ":" + mm)) == Err(ComponentOverflow(DigitsValue(mm) as int))
  {
    assert hh + ":" + mm == hh + [':'] + mm;
    assert ':' !in hh && ':' !in mm by {
      assert forall i | 0 <= i < |hh| :: hh[i] != ':';
      assert forall i | 0 <= i < |mm| :: mm[i] != ':';
    }
    SplitAtSeparator(hh, mm, ':');
    ParseIntDigits(hh);
    ParseIntDigits(mm);
  }

  /** Every time of day written as `HH:MM` is read back as itself. */
  lemma ParseFormattedTime(t: TimeOfDay)
    requires 0 <= t.hour < 24 && 0 <= t.minute < 60
    ensures ParseTime(Some(FormatTime(t))) == Ok(t)
  {
    var a, b := Pad2(t.hour), Pad2(t.minute);
    SplitAtSeparator(a, b, ':');
    assert FormatTime(t) == a + [':'] + b;
    ParseIntPad2(t.hour);
    ParseIntPad2(t.minute);
  }

  /** A well-formed zero-padded `HH:MM`: two digits, a colon, two digits. */
  predicate IsPaddedTime(s: string)
  {
    |s| == 5 && IsDigit(s[0]) && IsDigit(s[1]) && s[2] == ':' && IsDigit(s[3]) && IsDigit(s[4])
  }

  /** A zero-padded `HH:MM` that is accepted is written back exactly as it
      was given. */
  lemma PaddedTimeRoundTrip(s: string)
    requires IsPaddedTime(s) && ParseTime(Some(s)).Ok?
    ensures FormatTime(ParseTime(Some(s)).value) == s
  {
    var a, b := s[..2], s[3..];
    assert s == a + [':'] + b;
    SplitAtSeparator(a, b, ':');
    ParseIntDigits(a);
    ParseIntDigits(b);
    Pad2OfDigits(a);
    Pad2OfDigits(b);
  }

  /** `datetime.combine(date, time(hh, mm))` as local minutes: for a valid
      time of day, the instant falls on `date` at the time of day `t`. */
  function At(date: int, t: TimeOfDay): (r: int)
    ensures 0 <= t.hour < 24 && 0 <= t.minute < 60 ==>
      r / MinutesPerDay == date && r % MinutesPerDay == t.hour * 60 + t.minute
  {
    var m := t.hour * 60 + t.minute;
    assert 0 <= t.hour < 24 && 0 <= t.minute < 60 ==> 0 <= m < MinutesPerDay;
    date * MinutesPerDay + m
  }

  // ---------------------------------------------------------------------
  // Recurrence rule

  const RRulePrefix: string := "RRULE:FREQ=WEEKLY;BYDAY="

  /** `f'RRULE:FREQ=WEEKLY;BYDAY={day_code}'`: the fixed weekly prefix
      followed by the day code and nothing else. */
  function RecurrenceRule(dayCode: string): (r: string)
    ensures |r| == |RRulePrefix| + |dayCode|
    ensures r[..|RRulePrefix|] == RRulePrefix && r[|RRulePrefix|..] == dayCode
  {
    RRulePrefix + dayCode
  }

  /** Reads a weekly rule of that one shape (section 3.3.10 of RFC 5545 with
      a single BYDAY day) back to the index of the weekday it recurs on. */
  function RuleWeekday(rule: string): Option<nat>
  {
    if |rule| >= |RRulePrefix| && rule[..|RRulePrefix|] == RRulePrefix
       && rule[|RRulePrefix|..] in DayCodes
    then Some(IndexOf(DayCodes, rule[|RRulePrefix|..]))
    else None
  }

  /** The rule written for a weekday recurs on that weekday and on no other. */
  lemma RuleRecursOnItsWeekday(i: nat)
    requires i < 7
    ensures RuleWeekday(RecurrenceRule(DayCodes[i])) == Some(i)
  {
    WeekdayKeysListTheMap();
    var rule := RecurrenceRule(DayCodes[i]);
    assert rule[..|RRulePrefix|] == RRulePrefix;
    assert rule[|RRulePrefix|..] == DayCodes[i];
  }

  // ---------------------------------------------------------------------
  // Event body

  datatype Attendee = Attendee(email: string)

  /** A reminder override as read from the schedule (`kind` is its
      `method` key). */
  datatype Reminder = Reminder(kind: string, minutes: int)

  datatype Reminders = Reminders(useDefault: bool, overrides: seq<Reminder>)

  datatype EventTime = EventTime(dateTime: int, timeZone: string)

  /** The `event` dict passed to `events().insert`. */
  datatype EventRecord = EventRecord(
    summary: string,
    description: string,
    start: EventTime,
    end: EventTime,
    recurrence: seq<string>,
    attendees: seq<Attendee>,
    reminders: Reminders)

  /** The arguments of `create_weekly_event` after `service` and
      `calendar_id`. */
  datatype EventRequest = EventRequest(
    title: string,
    description: string,
    weekday: string,
    time: Option<string>,
    durationMinutes: int,
    timezone: string,
    attendees: seq<string>,
    reminders: seq<Reminder>)

  /** `[{'email': em} for em in attendees]`: one record per address, in
      order. */
  function AttendeeRecords(emails: seq<string>): (r: seq<Attendee>)
    ensures |r| == |emails|
    ensures forall k | 0 <= k < |r| :: r[k] == Attendee(emails[k])
  {
    if |emails| == 0 then [] else [Attendee(emails[0])] + AttendeeRecords(emails[1..])
  }

  /** `next_date_for_weekday` for the request's weekday: the date its first
      occurrence falls on, before any range check. */
  function FirstDate(req: EventRequest, today: int): (d: int)
    requires Lower(req.weekday) in WeekdayMap
    ensures today <= d <= today + 6
  {
    NextDateForWeekday(LookupWeekday(req.weekday).value, today)
  }

  /** The first date and the end at time of day `t` both lie in years 1 to
      9999. */
  predicate FitsCalendar(req: EventRequest, today: int, t: TimeOfDay)
    requires Lower(req.weekday) in WeekdayMap
  {
    var date := FirstDate(req, today);
    InDateRange(date) && InDateRange((At(date, t) + req.durationMinutes) / MinutesPerDay)
  }

  /** The event `create_weekly_event` inserts, given today's date in the
      schedule's zone, or the exception it raises first. In the order of
      the code: the weekday (line 85), reading the two integers (89), the
      first date (80), `time(hh, mm)` (94) and the end (95). */
  function BuildEvent(req: EventRequest, today: int): (r: Result<EventRecord, SyncError>)
    ensures Lower(req.weekday) !in WeekdayMap ==> r == Err(InvalidWeekday(req.weekday))
    ensures Lower(req.weekday) in WeekdayMap ==>
      (r.Ok? <==> ParseTime(req.time).Ok? && FitsCalendar(req, today, ParseTime(req.time).value))
    ensures Lower(req.weekday) in WeekdayMap && r.Err? ==>
      r.error == DateOutOfRange || (ParseTime(req.time).Err? && r.error == ParseTime(req.time).error)
    ensures Lower(req.weekday) in WeekdayMap && ReadTime(req.time).Err? ==>
      r == Err(ReadTime(req.time).error)
    ensures Lower(req.weekday) in WeekdayMap && ReadTime(req.time).Ok? && !InDateRange(FirstDate(req, today)) ==>
      r == Err(DateOutOfRange)
    ensures Lower(req.weekday) in WeekdayMap && InDateRange(FirstDate(req, today)) && ParseTime(req.time).Err? ==>
      r == Err(ParseTime(req.time).error)
  {
    var key := Lower(req.weekday);
    if key !in WeekdayMap then Err(InvalidWeekday(req.weekday))
    else
      match ReadTime(req.time)
      case Err(e) => Err(e)
      case Ok(p) =>
        var date := FirstDate(req, today);
        if !InDateRange(date) then Err(DateOutOfRange)
        else
          match MakeTime(p.0, p.1)
          case Err(e) => Err(e)
          case Ok(t) =>
            var start := At(date, t);
            var end := start + req.durationMinutes;
            if !InDateRange(end / MinutesPerDay) then Err(DateOutOfRange)
            else
              Ok(EventRecord(
                req.title,
                req.description,
                EventTime(start, req.timezone),
                EventTime(end, req.timezone),
                [RecurrenceRule(WeekdayMap[key])],
                AttendeeRecords(req.attendees),
                Reminders(false, req.reminders)))
  }

  /** When and how often the event happens: its first occurrence is on the
      soonest date from today on that has the requested weekday, at the
      requested time of day; it lasts the requested number of minutes; and
      its one recurrence rule recurs weekly on that same weekday. */
  lemma EventTiming(req: EventRequest, today: int)
    requires BuildEvent(req, today).Ok?
    ensures LookupWeekday(req.weekday).Some? && ParseTime(req.time).Ok?
    ensures
      var e := BuildEvent(req, today).value;
      var i := LookupWeekday(req.weekday).value;
      var t := ParseTime(req.time).value;
      var day := e.start.dateTime / MinutesPerDay;
      && day == FirstDate(req, today) && e.start.dateTime == At(day, t)
      && today <= day <= today + 6
      && Weekday(day) == i
      && (Weekday(today) == i ==> day == today)
      && e.start.dateTime % MinutesPerDay == t.hour * 60 + t.minute
      && e.end.dateTime == e.start.dateTime + req.durationMinutes
      && e.recurrence == [RecurrenceRule(DayCodes[i])]
      && RuleWeekday(e.recurrence[0]) == Some(i)
      && InDateRange(day) && InDateRange(e.end.dateTime / MinutesPerDay)
  {
    var i := LookupWeekday(req.weekday).value;
    var t := ParseTime(req.time).value;
    WeekdayKeysListTheMap();
    NextDateIsSoonest(i, today);
    RuleRecursOnItsWeekday(i);
  }

  /** What the event carries over from the request: title and description,
      the zone on both ends, one `{'email': em}` per attendee in order, and
      the reminders unchanged as overrides with the default reminders off. */
  lemma EventCarriesRequest(req: EventRequest, today: int)
    requires BuildEvent(req, today).Ok?
    ensures
      var e := BuildEvent(req, today).value;
      && e.summary == req.title
      && e.description == req.description
      && e.start.timeZone == req.timezone && e.end.timeZone == req.timezone
      && |e.attendees| == |req.attendees|
      && (forall k | 0 <= k < |e.attendees| :: e.attendees[k].email == req.attendees[k])
      && e.reminders == Reminders(false, req.reminders)
  {
  }

  /** 31 December 9999 is a Friday: the next Monday is three days past it. */
  lemma LastDayIsFriday()
    ensures Weekday(MaxOrdinal) == 4
    ensures NextDateForWeekday(0, MaxOrdinal) == MaxOrdinal + 3
  {
    assert MaxOrdinal + 6 == 7 * 521723 + 4;
  }

  /** A duration of at least the 9999 years' worth of minutes, either way,
      leaves the calendar whatever the date: the call raises OverflowError
      once the weekday and the time are accepted. */
  lemma LongDurationOverflows(req: EventRequest, today: int)
    requires Lower(req.weekday) in WeekdayMap && ParseTime(req.time).Ok?
    requires req.durationMinutes >= MaxOrdinal * MinutesPerDay || req.durationMinutes <= -MaxOrdinal * MinutesPerDay
    ensures BuildEvent(req, today) == Err(DateOutOfRange)
  {
    var date := FirstDate(req, today);
    var t := ParseTime(req.time).value;
    if InDateRange(date) {
      var end := At(date, t) + req.durationMinutes;
      assert MinutesPerDay <= At(date, t) < (MaxOrdinal + 1) * MinutesPerDay;
      assert end < MinutesPerDay || end >= (MaxOrdinal + 1) * MinutesPerDay;
      assert !InDateRange(end / MinutesPerDay);
    }
  }

  /** Two requests alike in weekday and time, the first built on a date
      with that weekday and the second on the day after: the first starts
      that day, the second a week later at the same time. */
  lemma NextDayEvents(a: EventRequest, b: EventRequest, today: int, tomorrow: int)
    requires a.weekday == b.weekday && ParseTime(a.time) == ParseTime(b.time)
    requires LookupWeekday(a.weekday) == Some(Weekday(today)) && tomorrow == today + 1
    requires BuildEvent(a, today).Ok? && BuildEvent(b, tomorrow).Ok?
    ensures BuildEvent(a, today).value.start.dateTime / MinutesPerDay == today
    ensures BuildEvent(b, tomorrow).value.start.dateTime ==
      BuildEvent(a, today).value.start.dateTime + 7 * MinutesPerDay
  {
    EventTiming(a, today);
    EventTiming(b, tomorrow);
    var t := ParseTime(a.time).value;
    NextWeekSameDay(today, tomorrow);
    assert LookupWeekday(b.weekday).value == Weekday(today);
    assert FirstDate(b, tomorrow) == today + 7;
    assert BuildEvent(a, today).value.start.dateTime == At(today, t);
    assert BuildEvent(b, tomorrow).value.start.dateTime == At(today + 7, t) == At(today, t) + 7 * MinutesPerDay;
  }

  /** Two events built on one date for the same weekday name recur by the
      same rule, and their first occurrences coincide exactly when their
      times of day do. */
  lemma SameWeekdayEvents(a: EventRequest, b: EventRequest, today: int)
    requires a.weekday == b.weekday
    requires BuildEvent(a, today).Ok? && BuildEvent(b, today).Ok?
    ensures LookupWeekday(a.weekday).Some?
    ensures BuildEvent(a, today).value.recurrence == BuildEvent(b, today).value.recurrence
              == [RecurrenceRule(DayCodes[LookupWeekday(a.weekday).value])]
    ensures (BuildEvent(a, today).value.start.dateTime == BuildEvent(b, today).value.start.dateTime)
              <==> (ParseTime(a.time) == ParseTime(b.time))
  {
    EventTiming(a, today);
    EventTiming(b, today);
    var ta, tb := ParseTime(a.time).value, ParseTime(b.time).value;
    var sa, sb := BuildEvent(a, today).value.start.dateTime, BuildEvent(b, today).value.start.dateTime;
    assert FirstDate(a, today) == FirstDate(b, today);
    if sa == sb {
      assert ta.hour * 60 + ta.minute == tb.hour * 60 + tb.minute;
      assert ta == tb;
    }
  }
}
