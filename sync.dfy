/** `main`: the defaults it fills in, the calendar it settles on, and the one
    insert per slot it issues, in the schedule's order, until the first slot
    that raises. */
module Sync {
  import opened Outcomes
  import opened Text
  import opened Weekdays
  import opened Events
  import opened Calendars

  /** A slot of the schedule; every key is optional. */
  datatype Slot = Slot(
    time: Option<string>,
    title: Option<string>,
    description: Option<string>,
    durationMinutes: Option<int>)

  datatype NamedSlot = NamedSlot(name: string, slot: Slot)

  /** One entry of `week`: a weekday name as written and its slots, in the
      schedule's order. */
  datatype DayBlock = DayBlock(weekday: string, slots: seq<NamedSlot>)

  /** The parsed schedule file; `defaultDuration` is
      `defaults.duration_minutes`. */
  datatype ScheduleConfig = ScheduleConfig(
    timezone: Option<string>,
    calendarName: Option<string>,
    attendees: Option<seq<string>>,
    reminders: Option<seq<Reminder>>,
    defaultDuration: Option<int>,
    week: Option<seq<DayBlock>>)

  /** The schedule with every default filled in. */
  datatype Settings = Settings(
    timezone: string,
    calendarName: string,
    attendees: seq<string>,
    reminders: seq<Reminder>,
    defaultDuration: int,
    week: seq<DayBlock>)

  function GetOr<T>(o: Option<T>, default: T): T
  {
    match o
    case Some(v) => v
    case None => default
  }

  /** The defaults of `main`: zone UTC, calendar "Your Calendar", no
      attendees, one popup reminder 15 minutes before, 30 minutes, an empty
      week; a value the schedule gives always wins. */
  function ResolveSettings(cfg: ScheduleConfig): (s: Settings)
    ensures cfg.timezone.None? ==> s.timezone == "UTC"
    ensures cfg.calendarName.None? ==> s.calendarName == "Your Calendar"
    ensures cfg.attendees.None? ==> s.attendees == []
    ensures cfg.reminders.None? ==> s.reminders == [Reminder("popup", 15)]
    ensures cfg.defaultDuration.None? ==> s.defaultDuration == 30
    ensures cfg.week.None? ==> s.week == []
    ensures cfg.timezone.Some? ==> s.timezone == cfg.timezone.value
    ensures cfg.calendarName.Some? ==> s.calendarName == cfg.calendarName.value
    ensures cfg.attendees.Some? ==> s.attendees == cfg.attendees.value
    ensures cfg.reminders.Some? ==> s.reminders == cfg.reminders.value
    ensures cfg.defaultDuration.Some? ==> s.defaultDuration == cfg.defaultDuration.value
    ensures cfg.week.Some? ==> s.week == cfg.week.value
  {
    Settings(
      GetOr(cfg.timezone, "UTC"),
      GetOr(cfg.calendarName, "Your Calendar"),
      GetOr(cfg.attendees, []),
      GetOr(cfg.reminders, [Reminder("popup", 15)]),
      GetOr(cfg.defaultDuration, 30),
      GetOr(cfg.week, []))
  }

  // ---------------------------------------------------------------------
  // One slot

  /** A slot together with the weekday name it is listed under. */
  datatype Job = Job(weekday: string, named: NamedSlot)

  /** The arguments `main` passes to `create_weekly_event` for one slot:
      the slot's own title, description and duration where it has them, and
      otherwise the title-cased "<weekday> <slot name>", the empty
      description and the schedule's default duration. */
  function RequestFor(s: Settings, job: Job): (req: EventRequest)
    ensures req.title == if job.named.slot.title.Some? then job.named.slot.title.value
                         else Title(job.weekday) + " " + Title(job.named.name)
    ensures req.durationMinutes == if job.named.slot.durationMinutes.Some?
                                   then job.named.slot.durationMinutes.value else s.defaultDuration
    ensures req.description == if job.named.slot.description.Some? then job.named.slot.description.value else ""
    ensures req.weekday == job.weekday && req.time == job.named.slot.time
    ensures req.timezone == s.timezone && req.attendees == s.attendees && req.reminders == s.reminders
  {
    var slot := job.named.slot;
    EventRequest(
      GetOr(slot.title, Title(job.weekday) + " " + Title(job.named.name)),
      GetOr(slot.description, ""),
      job.weekday,
      slot.time,
      GetOr(slot.durationMinutes, s.defaultDuration),
      s.timezone,
      s.attendees,
      s.reminders)
  }

  /** A recorded `events().insert(calendarId=…, body=…, sendUpdates=…)`. */
  datatype InsertCall = InsertCall(calendarId: string, event: EventRecord, sendUpdates: string)

  /** The inserts issued, and the exception that ended the run early, if one
      did. */
  datatype Outcome = Outcome(inserts: seq<InsertCall>, failure: Option<SyncError>)

  // ---------------------------------------------------------------------
  // All slots

  /** The slots of one weekday entry, in order. */
  function SlotsOf(b: DayBlock): (jobs: seq<Job>)
    ensures |jobs| == |b.slots|
    ensures forall k | 0 <= k < |jobs| :: jobs[k] == Job(b.weekday, b.slots[k])
  {
    seq(|b.slots|, k requires 0 <= k < |b.slots| => Job(b.weekday, b.slots[k]))
  }

  /** The slots of the whole week in the order the two nested loops of
      `main` visit them. */
  function Jobs(week: seq<DayBlock>): (jobs: seq<Job>)
    ensures |jobs| == 0 <==> forall i | 0 <= i < |week| :: |week[i].slots| == 0
    decreases |week|
  {
    if |week| == 0 then []
    else
      var init := week[..|week| - 1];
      assert forall i | 0 <= i < |init| :: init[i] == week[i];
      Jobs(init) + SlotsOf(week[|week| - 1])
  }

  lemma {:induction false} JobsAppend(a: seq<DayBlock>, b: seq<DayBlock>)
    ensures Jobs(a + b) == Jobs(a) + Jobs(b)
    decreases |b|
  {
    if |b| == 0 {
      assert a + b == a;
    } else {
      var last := |b| - 1;
      assert (a + b)[..|a + b| - 1] == a + b[..last];
      assert (a + b)[|a + b| - 1] == b[last];
      assert Jobs(a + b) == Jobs(a + b[..last]) + SlotsOf(b[last]);
      assert Jobs(b) == Jobs(b[..last]) + SlotsOf(b[last]);
      JobsAppend(a, b[..last]);
    }
  }

  /** The dates `datetime.now(tz).date()` gives during a run, one per call
      of `create_weekly_event`: `clock(k)` is the date in the schedule's
      zone when the slot visited after `k` others reads the clock. */
  type Clock = nat -> int

  /** What `create_weekly_event` makes of a slot when `k` slots have been
      visited before it: the event it inserts or the exception it raises.
      The position carries the clock reading of that call. */
  type SlotBuilder = (nat, Job) -> Result<EventRecord, SyncError>

  /** The builder `main` uses: `create_weekly_event` with the arguments of
      `RequestFor`, each call reading its own date off the clock. */
  function CreateWeeklyEvent(s: Settings, clock: Clock): (build: SlotBuilder)
    ensures forall k: nat, j: Job :: Lower(j.weekday) !in WeekdayMap ==> build(k, j) == Err(InvalidWeekday(j.weekday))
    ensures forall k: nat, j: Job :: Lower(j.weekday) in WeekdayMap ==>
      (build(k, j).Ok? <==>
         ParseTime(j.named.slot.time).Ok? &&
         FitsCalendar(RequestFor(s, j), clock(k), ParseTime(j.named.slot.time).value))
    ensures forall k: nat, j: Job :: Lower(j.weekday) in WeekdayMap && build(k, j).Err? ==>
      build(k, j).error == DateOutOfRange ||
      (ParseTime(j.named.slot.time).Err? && build(k, j).error == ParseTime(j.named.slot.time).error)
  {
    var build := (k: nat, job: Job) => BuildEvent(RequestFor(s, job), clock(k));
    assert forall k: nat, j: Job :: build(k, j) == BuildEvent(RequestFor(s, j), clock(k));
    build
  }

  /** The slot visited after `k` others is built on the date read then. */
  lemma SlotBuilt(s: Settings, clock: Clock, k: nat, j: Job)
    ensures CreateWeeklyEvent(s, clock)(k, j) == BuildEvent(RequestFor(s, j), clock(k))
  {
  }

  /** The inserts into calendar `calId` for the slots `jobs`, visited in
      order, stopping at the first slot that raises. */
  function PlanJobs(calId: string, build: SlotBuilder, jobs: seq<Job>): (p: Outcome)
    ensures |p.inserts| <= |jobs|
    ensures p.failure.None? <==> |p.inserts| == |jobs|
    ensures forall k | 0 <= k < |p.inserts| :: p.inserts[k].calendarId == calId && p.inserts[k].sendUpdates == "all"
    decreases |jobs|
  {
    if |jobs| == 0 then Outcome([], None)
    else
      var prev := PlanJobs(calId, build, jobs[..|jobs| - 1]);
      if prev.failure.Some? then prev
      else
        match build(|jobs| - 1, jobs[|jobs| - 1])
        case Ok(e) => Outcome(prev.inserts + [InsertCall(calId, e, "all")], None)
        case Err(err) => Outcome(prev.inserts, Some(err))
  }

  /** One more slot: inserted when nothing has raised yet and it builds an
      event, ending the run when it raises. */
  lemma PlanStep(calId: string, build: SlotBuilder, done: seq<Job>, job: Job)
    ensures PlanJobs(calId, build, done).failure.None? && build(|done|, job).Ok? ==>
      PlanJobs(calId, build, done + [job]) ==
        Outcome(PlanJobs(calId, build, done).inserts + [InsertCall(calId, build(|done|, job).value, "all")], None)
    ensures PlanJobs(calId, build, done).failure.None? && build(|done|, job).Err? ==>
      PlanJobs(calId, build, done + [job]) == Outcome(PlanJobs(calId, build, done).inserts, Some(build(|done|, job).error))
  {
    assert (done + [job])[..|done|] == done;
  }

  /** Once a slot has raised, later slots change nothing. */
  lemma {:induction false} PlanStopsAtFailure(calId: string, build: SlotBuilder, xs: seq<Job>, ys: seq<Job>)
    requires PlanJobs(calId, build, xs).failure.Some?
    ensures PlanJobs(calId, build, xs + ys) == PlanJobs(calId, build, xs)
    decreases |ys|
  {
    if |ys| > 0 {
      assert (xs + ys)[..|xs + ys| - 1] == xs + ys[..|ys| - 1];
      PlanStopsAtFailure(calId, build, xs, ys[..|ys| - 1]);
    } else {
      assert xs + ys == xs;
    }
  }

  /** What a run over a list of slots does: for a prefix of the slots, one
      insert each, in order, carrying the event built for it and asking the
      service to notify all attendees; the run covers every slot exactly
      when no exception ends it, and otherwise the exception is the one
      raised by the first slot not inserted. */
  lemma {:induction false} PlanJobsSpec(calId: string, build: SlotBuilder, jobs: seq<Job>)
    ensures
      var p := PlanJobs(calId, build, jobs);
      && |p.inserts| <= |jobs|
      && (forall k | 0 <= k < |p.inserts| ::
            build(k, jobs[k]).Ok? && p.inserts[k] == InsertCall(calId, build(k, jobs[k]).value, "all"))
      && (p.failure.None? <==> |p.inserts| == |jobs|)
      && (p.failure.Some? ==> build(|p.inserts|, jobs[|p.inserts|]) == Err(p.failure.value))
    decreases |jobs|
  {
    if |jobs| > 0 {
      var init := jobs[..|jobs| - 1];
      PlanJobsSpec(calId, build, init);
      assert forall k | 0 <= k < |init| :: jobs[k] == init[k];
    }
  }

  /** A run in which every slot is valid inserts one event per slot, in
      order. */
  lemma AllSlotsInserted(calId: string, build: SlotBuilder, jobs: seq<Job>)
    requires forall k | 0 <= k < |jobs| :: build(k, jobs[k]).Ok?
    ensures PlanJobs(calId, build, jobs).failure.None?
    ensures |PlanJobs(calId, build, jobs).inserts| == |jobs|
    ensures forall k | 0 <= k < |jobs| :: PlanJobs(calId, build, jobs).inserts[k].event == build(k, jobs[k]).value
  {
    PlanJobsSpec(calId, build, jobs);
  }

  /** A weekday entry without slots is never looked at, so not even an
      unknown weekday name there raises. */
  lemma EmptyDayIsSkipped(week: seq<DayBlock>, weekday: string)
    ensures Jobs(week + [DayBlock(weekday, [])]) == Jobs(week)
  {
    JobsAppend(week, [DayBlock(weekday, [])]);
    assert Jobs([DayBlock(weekday, [])]) == Jobs([]) + SlotsOf(DayBlock(weekday, []));
  }

  /** An entry whose weekday name is unknown in any case ends the run at its
      first slot: the slots before it are inserted, that slot and everything
      after it are not, and the exception names the weekday as written,
      whatever the slot's time. */
  lemma UnknownWeekdayEndsRun(calId: string, s: Settings, clock: Clock,
                              before: seq<DayBlock>, block: DayBlock, after: seq<DayBlock>)
    requires s.week == before + [block] + after
    requires |block.slots| > 0 && Lower(block.weekday) !in WeekdayMap
    requires forall k | 0 <= k < |Jobs(before)| :: BuildEvent(RequestFor(s, Jobs(before)[k]), clock(k)).Ok?
    ensures
      var p := PlanJobs(calId, CreateWeeklyEvent(s, clock), Jobs(s.week));
      && p.failure == Some(InvalidWeekday(block.weekday))
      && p.inserts == PlanJobs(calId, CreateWeeklyEvent(s, clock), Jobs(before)).inserts
      && |p.inserts| == |Jobs(before)|
  {
    var build := CreateWeeklyEvent(s, clock);
    var done := Jobs(before);
    var job := Job(block.weekday, block.slots[0]);
    var rest := SlotsOf(block)[1..] + Jobs(after);
    WeekAround(before, block, after);
    assert Jobs(s.week) == done + [job] + rest;
    assert forall k | 0 <= k < |done| :: build(k, done[k]) == BuildEvent(RequestFor(s, done[k]), clock(k));
    assert build(|done|, job) == BuildEvent(RequestFor(s, job), clock(|done|));
    RaisingSlotEndsRun(calId, build, done, job, rest);
  }

  /** The slots of a week around one of its entries. */
  lemma WeekAround(before: seq<DayBlock>, block: DayBlock, after: seq<DayBlock>)
    requires |block.slots| > 0
    ensures Jobs(before + [block] + after) ==
      Jobs(before) + [Job(block.weekday, block.slots[0])] + (SlotsOf(block)[1..] + Jobs(after))
  {
    JobsAround(before, block, after);
    Regroup(Jobs(before), SlotsOf(block), Jobs(after));
  }

  lemma JobsAround(before: seq<DayBlock>, block: DayBlock, after: seq<DayBlock>)
    ensures Jobs(before + [block] + after) == (Jobs(before) + SlotsOf(block)) + Jobs(after)
  {
    JobsAppend(before + [block], after);
    JobsAppend(before, [block]);
    JobsOfOneDay(block);
  }

  lemma Regroup<T>(x: seq<T>, y: seq<T>, z: seq<T>)
    requires |y| > 0
    ensures (x + y) + z == x + [y[0]] + (y[1..] + z)
  {
    assert y == [y[0]] + y[1..];
  }

  /** A slot that raises after valid ones ends the run there. */
  lemma RaisingSlotEndsRun(calId: string, build: SlotBuilder, done: seq<Job>, job: Job, rest: seq<Job>)
    requires forall k | 0 <= k < |done| :: build(k, done[k]).Ok?
    requires build(|done|, job).Err?
    ensures
      var p := PlanJobs(calId, build, done + [job] + rest);
      && p == Outcome(PlanJobs(calId, build, done).inserts, Some(build(|done|, job).error))
      && |p.inserts| == |done|
  {
    AllSlotsInserted(calId, build, done);
    PlanStep(calId, build, done, job);
    PlanStopsAtFailure(calId, build, done + [job], rest);
  }

  /** Two valid slots under one weekday give exactly two inserts. Both
      recur weekly on that weekday, and when both calls read the same date
      their first occurrences coincide exactly when their times of day do. */
  lemma TwoSlotsOneWeekday(calId: string, s: Settings, clock: Clock, weekday: string, a: NamedSlot, b: NamedSlot)
    requires s.week == [DayBlock(weekday, [a, b])]
    requires BuildEvent(RequestFor(s, Job(weekday, a)), clock(0)).Ok?
    requires BuildEvent(RequestFor(s, Job(weekday, b)), clock(1)).Ok?
    ensures LookupWeekday(weekday).Some?
    ensures
      var p := PlanJobs(calId, CreateWeeklyEvent(s, clock), Jobs(s.week));
      var i := LookupWeekday(weekday).value;
      && p.failure.None? && |p.inserts| == 2
      && p.inserts[0].event.recurrence == p.inserts[1].event.recurrence == [RecurrenceRule(DayCodes[i])]
      && (clock(0) == clock(1) ==>
          (p.inserts[0].event.start.dateTime == p.inserts[1].event.start.dateTime <==>
           ParseTime(a.slot.time) == ParseTime(b.slot.time)))
  {
    var ja, jb := Job(weekday, a), Job(weekday, b);
    JobsOfTwoSlots(weekday, a, b);
    var build := CreateWeeklyEvent(s, clock);
    TwoInserts(calId, build, ja, jb);
    EventTiming(RequestFor(s, ja), clock(0));
    EventTiming(RequestFor(s, jb), clock(1));
    if clock(0) == clock(1) {
      SameWeekdayEvents(RequestFor(s, ja), RequestFor(s, jb), clock(0));
    }
  }

  /** Each call reads its own date. Two slots at the same time under
      today's weekday, with midnight passing in the zone between the two
      calls, first occur a week apart: the first today, the second on the
      same weekday of the next week. */
  lemma MidnightBetweenSlots(calId: string, s: Settings, clock: Clock, weekday: string, a: NamedSlot, b: NamedSlot)
    requires s.week == [DayBlock(weekday, [a, b])]
    requires BuildEvent(RequestFor(s, Job(weekday, a)), clock(0)).Ok?
    requires BuildEvent(RequestFor(s, Job(weekday, b)), clock(1)).Ok?
    requires LookupWeekday(weekday) == Some(Weekday(clock(0))) && clock(1) == clock(0) + 1
    requires ParseTime(a.slot.time) == ParseTime(b.slot.time)
    ensures
      var p := PlanJobs(calId, CreateWeeklyEvent(s, clock), Jobs(s.week));
      && |p.inserts| == 2
      && p.inserts[0].event.start.dateTime / MinutesPerDay == clock(0)
      && p.inserts[1].event.start.dateTime == p.inserts[0].event.start.dateTime + 7 * MinutesPerDay
  {
    var ja, jb := Job(weekday, a), Job(weekday, b);
    var ra, rb := RequestFor(s, ja), RequestFor(s, jb);
    TwoSlotWeek(calId, s, clock, ja, jb);
    NextDayEvents(ra, rb, clock(0), clock(1));
  }

  /** A week of one weekday entry with two valid slots gives two inserts,
      of the events built for those slots, in order. */
  lemma TwoSlotWeek(calId: string, s: Settings, clock: Clock, x: Job, y: Job)
    requires x.weekday == y.weekday && s.week == [DayBlock(x.weekday, [x.named, y.named])]
    requires BuildEvent(RequestFor(s, x), clock(0)).Ok? && BuildEvent(RequestFor(s, y), clock(1)).Ok?
    ensures
      var p := PlanJobs(calId, CreateWeeklyEvent(s, clock), Jobs(s.week));
      && p.failure.None? && |p.inserts| == 2
      && p.inserts[0].event == BuildEvent(RequestFor(s, x), clock(0)).value
      && p.inserts[1].event == BuildEvent(RequestFor(s, y), clock(1)).value
  {
    JobsOfTwoSlots(x.weekday, x.named, y.named);
    SlotBuilt(s, clock, 0, x);
    SlotBuilt(s, clock, 1, y);
    TwoInserts(calId, CreateWeeklyEvent(s, clock), x, y);
  }

  /** A slot that builds an event gives one insert, of that event. */
  lemma OneInsert(calId: string, build: SlotBuilder, x: Job)
    requires build(0, x).Ok?
    ensures
      var p := PlanJobs(calId, build, [x]);
      p.failure.None? && |p.inserts| == 1 && p.inserts[0].event == build(0, x).value
  {
    AllSlotsInserted(calId, build, [x]);
  }

  /** Two slots that both build an event give two inserts, in order. */
  lemma TwoInserts(calId: string, build: SlotBuilder, x: Job, y: Job)
    requires build(0, x).Ok? && build(1, y).Ok?
    ensures
      var p := PlanJobs(calId, build, [x, y]);
      && p.failure.None? && |p.inserts| == 2
      && p.inserts[0].event == build(0, x).value && p.inserts[1].event == build(1, y).value
  {
    AllSlotsInserted(calId, build, [x, y]);
  }

  /** The week of a single weekday entry lists that entry's slots. */
  lemma JobsOfOneSlot(job: Job)
    ensures Jobs([DayBlock(job.weekday, [job.named])]) == [job]
  {
    JobsOfOneDay(DayBlock(job.weekday, [job.named]));
  }

  lemma JobsOfTwoSlots(weekday: string, a: NamedSlot, b: NamedSlot)
    ensures Jobs([DayBlock(weekday, [a, b])]) == [Job(weekday, a), Job(weekday, b)]
  {
    JobsOfOneDay(DayBlock(weekday, [a, b]));
  }

  lemma JobsOfOneDay(b: DayBlock)
    ensures Jobs([b]) == SlotsOf(b)
  {
    assert [b][..0] == [];
  }

  /** The event of a slot named `standup` under `monday` at `09:00` for 15
      minutes, without a title of its own: "Monday Standup", first on the
      next Monday from today at 09:00, ending 15 minutes later, weekly on
      Mondays. */
  predicate IsMondayStandup(e: EventRecord, today: int)
  {
    var day := e.start.dateTime / MinutesPerDay;
    && e.summary == "Monday Standup"
    && e.recurrence == ["RRULE:FREQ=WEEKLY;BYDAY=MO"]
    && today <= day <= today + 6 && Weekday(day) == 0
    && e.start.dateTime % MinutesPerDay == 9 * 60
    && e.end.dateTime == e.start.dateTime + 15
  }

  /** A week of one weekday entry with one valid slot gives one insert, of
      the event built for that slot. */
  lemma OneSlotWeek(calId: string, s: Settings, clock: Clock, job: Job)
    requires s.week == [DayBlock(job.weekday, [job.named])]
    requires BuildEvent(RequestFor(s, job), clock(0)).Ok?
    ensures
      var p := PlanJobs(calId, CreateWeeklyEvent(s, clock), Jobs(s.week));
      && p.failure.None? && |p.inserts| == 1
      && p.inserts[0].event == BuildEvent(RequestFor(s, job), clock(0)).value
  {
    JobsOfOneSlot(job);
    var build := CreateWeeklyEvent(s, clock);
    assert build(0, job) == BuildEvent(RequestFor(s, job), clock(0));
    OneInsert(calId, build, job);
  }

  /** A schedule holding just that slot gives one insert, of that event,
      on any date before the last week of year 9999. */
  lemma MondayStandup(calId: string, s: Settings, clock: Clock)
    requires s.week == [DayBlock("monday", [NamedSlot("standup", Slot(Some("09:00"), None, None, Some(15)))])]
    requires 1 <= clock(0) <= MaxOrdinal - 6
    ensures
      var p := PlanJobs(calId, CreateWeeklyEvent(s, clock), Jobs(s.week));
      p.failure.None? && |p.inserts| == 1 && IsMondayStandup(p.inserts[0].event, clock(0))
  {
    var job := Job(s.week[0].weekday, s.week[0].slots[0]);
    StandupRequest(s, job);
    StandupEvent(RequestFor(s, job), clock(0));
    OneSlotWeek(calId, s, clock, job);
  }

  /** On Friday 31 December 9999 the next Monday is past the last date, so
      the same schedule inserts nothing and raises OverflowError. */
  lemma StandupOnLastDay(calId: string, s: Settings, clock: Clock)
    requires s.week == [DayBlock("monday", [NamedSlot("standup", Slot(Some("09:00"), None, None, Some(15)))])]
    requires clock(0) == MaxOrdinal
    ensures
      var p := PlanJobs(calId, CreateWeeklyEvent(s, clock), Jobs(s.week));
      p.failure == Some(DateOutOfRange) && |p.inserts| == 0
  {
    var job := Job(s.week[0].weekday, s.week[0].slots[0]);
    StandupRequest(s, job);
    var req := RequestFor(s, job);
    LastDayIsFriday();
    assert FirstDate(req, MaxOrdinal) == MaxOrdinal + 3;
    var build := CreateWeeklyEvent(s, clock);
    SlotBuilt(s, clock, 0, job);
    JobsOfOneSlot(job);
    RaisingSlotEndsRun(calId, build, [], job, []);
  }

  /** The event built for such a request. */
  lemma StandupEvent(req: EventRequest, today: int)
    requires LookupWeekday(req.weekday) == Some(0)
    requires req.title == "Monday Standup" && req.durationMinutes == 15
    requires ParseTime(req.time) == Ok(TimeOfDay(9, 0))
    requires 1 <= today <= MaxOrdinal - 6
    ensures BuildEvent(req, today).Ok? && IsMondayStandup(BuildEvent(req, today).value, today)
  {
    var date := FirstDate(req, today);
    assert (At(date, TimeOfDay(9, 0)) + 15) / MinutesPerDay == date;
    assert FitsCalendar(req, today, TimeOfDay(9, 0));
    assert BuildEvent(req, today).Ok?;
    EventTiming(req, today);
    EventCarriesRequest(req, today);
    assert RecurrenceRule(DayCodes[0]) == "RRULE:FREQ=WEEKLY;BYDAY=MO";
  }

  /** The arguments `main` passes for that slot. */
  lemma StandupRequest(s: Settings, job: Job)
    requires job == Job("monday", NamedSlot("standup", Slot(Some("09:00"), None, None, Some(15))))
    ensures RequestFor(s, job).title == "Monday Standup"
    ensures RequestFor(s, job).durationMinutes == 15
    ensures ParseTime(RequestFor(s, job).time) == Ok(TimeOfDay(9, 0))
    ensures LookupWeekday(RequestFor(s, job).weekday) == Some(0)
  {
    LookupKeyOrTitle(0);
    assert RequestFor(s, job).title == Title(job.weekday) + " " + Title(job.named.name);
    StandupTitle();
    NineOClock();
  }

  /** The composed title of that slot. */
  lemma StandupTitle()
    ensures Title("monday") + " " + Title("standup") == "Monday Standup"
  {
    TitleMonday();
    TitleStandup();
  }

  lemma TitleMonday()
    ensures Title("monday") == "Monday"
  {
  }

  lemma TitleStandup()
    ensures Title("standup") == "Standup"
  {
  }

  lemma NineOClock()
    ensures ParseTime(Some("09:00")) == Ok(TimeOfDay(9, 0))
  {
    assert FormatTime(TimeOfDay(9, 0)) == "09:00";
    ParseFormattedTime(TimeOfDay(9, 0));
  }

  // ---------------------------------------------------------------------
  // main as it runs

  /** The inner loop of `main`: the slots of one weekday entry, one insert
      each, after the slots `before` have been inserted as `inserts`; it
      stops at the first slot that raises. */
  method InsertDay(calId: string, build: SlotBuilder, ghost before: seq<Job>, block: DayBlock,
                   inserts: seq<InsertCall>) returns (out: Outcome)
    requires PlanJobs(calId, build, before) == Outcome(inserts, None)
    ensures out == PlanJobs(calId, build, before + SlotsOf(block))
  {
    var acc := inserts;
    var j := 0;
    assert before + SlotsOf(block)[..0] == before;
    while j < |block.slots|
      invariant 0 <= j <= |block.slots|
      invariant PlanJobs(calId, build, before + SlotsOf(block)[..j]) == Outcome(acc, None)
    {
      var job := Job(block.weekday, block.slots[j]);
      var built := build(|acc|, job);
      ghost var done := before + SlotsOf(block)[..j];
      SlotsPrefixStep(block, j);
      assert before + SlotsOf(block)[..j + 1] == done + [job];
      PlanStep(calId, build, done, job);
      if built.Err? {
        DayEndsAt(calId, build, before, block, j);
        return Outcome(acc, Some(built.error));
      }
      acc := acc + [InsertCall(calId, built.value, "all")];
      j := j + 1;
    }
    assert SlotsOf(block)[..j] == SlotsOf(block);
    out := Outcome(acc, None);
  }

  /** The two nested loops of `main`: one insert per slot, day after day
      and slot after slot, until a slot raises. */
  method InsertEvents(calId: string, week: seq<DayBlock>, build: SlotBuilder) returns (out: Outcome)
    ensures out == PlanJobs(calId, build, Jobs(week))
  {
    var inserts: seq<InsertCall> := [];
    var i := 0;
    assert week[..0] == [];
    while i < |week|
      invariant 0 <= i <= |week|
      invariant PlanJobs(calId, build, Jobs(week[..i])) == Outcome(inserts, None)
    {
      var day := InsertDay(calId, build, Jobs(week[..i]), week[i], inserts);
      JobsStep(week, i);
      if day.failure.Some? {
        WeekEndsAt(calId, build, week, i);
        return day;
      }
      inserts := day.inserts;
      i := i + 1;
    }
    assert week[..i] == week;
    out := Outcome(inserts, None);
  }

  /** One more slot of a weekday entry. */
  lemma SlotsPrefixStep(b: DayBlock, j: nat)
    requires j < |b.slots|
    ensures SlotsOf(b)[..j + 1] == SlotsOf(b)[..j] + [Job(b.weekday, b.slots[j])]
  {
  }

  /** One more weekday entry. */
  lemma JobsStep(week: seq<DayBlock>, i: nat)
    requires i < |week|
    ensures Jobs(week[..i + 1]) == Jobs(week[..i]) + SlotsOf(week[i])
  {
    assert week[..i + 1][..i] == week[..i];
  }

  /** When slot `j` of a weekday entry raises, the rest of the entry
      changes nothing. */
  lemma DayEndsAt(calId: string, build: SlotBuilder, before: seq<Job>, block: DayBlock, j: nat)
    requires j < |block.slots|
    requires PlanJobs(calId, build, before + SlotsOf(block)[..j + 1]).failure.Some?
    ensures PlanJobs(calId, build, before + SlotsOf(block)) == PlanJobs(calId, build, before + SlotsOf(block)[..j + 1])
  {
    var slots := SlotsOf(block);
    assert before + slots == (before + slots[..j + 1]) + slots[j + 1..];
    PlanStopsAtFailure(calId, build, before + slots[..j + 1], slots[j + 1..]);
  }

  /** When weekday entry `i` raises, the entries after it change nothing. */
  lemma WeekEndsAt(calId: string, build: SlotBuilder, week: seq<DayBlock>, i: nat)
    requires i < |week|
    requires PlanJobs(calId, build, Jobs(week[..i + 1])).failure.Some?
    ensures PlanJobs(calId, build, Jobs(week)) == PlanJobs(calId, build, Jobs(week[..i + 1]))
  {
    assert week == week[..i + 1] + week[i + 1..];
    JobsAppend(week[..i + 1], week[i + 1..]);
    PlanStopsAtFailure(calId, build, Jobs(week[..i + 1]), Jobs(week[i + 1..]));
  }

  /** Everything one run of `main` does against the service. */
  datatype RunTrace = RunTrace(resolution: Resolution, outcome: Outcome)

  /** `main` with the schedule already parsed: `clock` gives the date in the
      schedule's zone at each slot's call, `pages` the calendar list the
      service returns and `newCalendarId` the id it gives a calendar it
      creates. */
  method Run(cfg: ScheduleConfig, clock: Clock, pages: seq<Page>, newCalendarId: string) returns (trace: RunTrace)
    requires Ends(pages)
    ensures var s := ResolveSettings(cfg);
      && trace.resolution == Resolve(pages, s.calendarName, s.timezone, newCalendarId)
      && trace.outcome == PlanJobs(trace.resolution.calendarId, CreateWeeklyEvent(s, clock), Jobs(s.week))
  {
    var s := ResolveSettings(cfg);
    var cal, requests := FindCalendar(pages, s.calendarName);
    var resolution: Resolution;
    if cal.None? {
      resolution := Resolution(newCalendarId, requests, Some(NewCalendar(s.calendarName, s.timezone)));
    } else {
      resolution := Resolution(cal.value.id, requests, None);
    }
    var outcome := InsertEvents(resolution.calendarId, s.week, CreateWeeklyEvent(s, clock));
    trace := RunTrace(resolution, outcome);
  }
}
