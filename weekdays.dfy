/** Weekday names, their RRULE codes, and the date of the next occurrence of
    a weekday (`WEEKDAY_MAP` and `next_date_for_weekday`).

    A date is its proleptic Gregorian ordinal, the number Python's
    `date.toordinal()` gives (1 January of year 1 is day 1, a Monday). */
module Weekdays {
  import opened Outcomes
  import opened Text

  /** `WEEKDAY_MAP`: lower-case weekday name to its two-letter BYDAY code. */
  const WeekdayMap: map<string, string> := map[
    "monday" := "MO", "tuesday" := "TU", "wednesday" := "WE",
    "thursday" := "TH", "friday" := "FR", "saturday" := "SA", "sunday" := "SU"]

  /** The keys of `WeekdayMap` in the order they are written, which is the
      order `list(WEEKDAY_MAP.keys())` yields. */
  const WeekdayKeys: seq<string> :=
    ["monday", "tuesday", "wednesday", "thursday", "friday", "saturday", "sunday"]

  /** The key order lists each key of the map exactly once, and no two
      weekdays share a code. */
  lemma WeekdayKeysListTheMap()
    ensures |WeekdayKeys| == 7
    ensures forall k :: k in WeekdayMap <==> k in WeekdayKeys
    ensures forall i, j | 0 <= i < j < 7 :: WeekdayKeys[i] != WeekdayKeys[j]
    ensures |DayCodes| == 7
    ensures forall i | 0 <= i < 7 :: WeekdayMap[WeekdayKeys[i]] == DayCodes[i]
    ensures forall i, j | 0 <= i < j < 7 :: DayCodes[i] != DayCodes[j]
  {
    KeysAreTheMapKeys();
    KeysDistinct();
    CodesInKeyOrder();
    CodesDistinct();
  }

  lemma KeysAreTheMapKeys()
    ensures |WeekdayKeys| == 7
    ensures forall k :: k in WeekdayMap <==> k in WeekdayKeys
  {
  }

  lemma KeysDistinct()
    ensures forall i, j | 0 <= i < j < 7 :: WeekdayKeys[i] != WeekdayKeys[j]
  {
  }

  lemma CodesInKeyOrder()
    ensures |DayCodes| == 7
    ensures forall i | 0 <= i < 7 :: WeekdayMap[WeekdayKeys[i]] == DayCodes[i]
  {
  }

  lemma CodesDistinct()
    ensures forall i, j | 0 <= i < j < 7 :: DayCodes[i] != DayCodes[j]
  {
  }

  /** `list.index`: the position of the first occurrence of `x`. */
  function IndexOf<T(==)>(s: seq<T>, x: T): (i: nat)
    requires x in s
    ensures i < |s| && s[i] == x
    ensures forall j | 0 <= j < i :: s[j] != x
  {
    if s[0] == x then 0 else 1 + IndexOf(s[1..], x)
  }

  /** The BYDAY codes in key order: `DayCodes[i]` is the code of the weekday
      with index `i` (Monday = 0). */
  const DayCodes: seq<string> := ["MO", "TU", "WE", "TH", "FR", "SA", "SU"]

  /** The case-insensitive lookup of a weekday name: its index in key
      order, or `None` when its lower-case form is not a key. */
  function LookupWeekday(name: string): (r: Option<nat>)
    ensures r.Some? <==> Lower(name) in WeekdayMap
    ensures r.Some? ==> r.value < 7 && WeekdayKeys[r.value] == Lower(name)
  {
    var key := Lower(name);
    if key in WeekdayMap then Some(IndexOf(WeekdayKeys, key)) else None
  }

  /** A name is found at position `i` whenever it lower-cases to the key
      there, whatever the case it is written in. */
  lemma LookupIgnoresCase(i: nat, name: string)
    requires i < 7 && Lower(name) == WeekdayKeys[i]
    ensures LookupWeekday(name) == Some(i)
  {
    WeekdayKeysListTheMap();
  }

  /** Every key is found at its own position, written in lower case or in
      title case (as `str.title` writes it). */
  lemma LookupKeyOrTitle(i: nat)
    requires i < 7
    ensures LookupWeekday(WeekdayKeys[i]) == Some(i)
    ensures LookupWeekday(Title(WeekdayKeys[i])) == Some(i)
  {
    var key := WeekdayKeys[i];
    KeysAreLowerCase(i);
    TitleKeepsLetters(key);
    LookupIgnoresCase(i, key);
    LookupIgnoresCase(i, Title(key));
  }

  lemma KeysAreLowerCase(i: nat)
    requires i < 7
    ensures Lower(WeekdayKeys[i]) == WeekdayKeys[i]
  {
    LowerOfLowerCase(WeekdayKeys[i]);
  }

  // ---------------------------------------------------------------------
  // Dates

  /** `date.weekday()` of the date with ordinal `d`: Monday = 0 … Sunday = 6. */
  function Weekday(d: int): (w: nat)
    ensures w < 7
  {
    (d + 6) % 7
  }

  /** The local `days_ahead` of `next_date_for_weekday`. For weekdays in
      range it is the distance, within one week, from `todayWeekday`
      forward to `weekday`, and 0 exactly when they agree. */
  function DaysAhead(weekday: int, todayWeekday: int): (n: int)
    ensures 0 <= weekday < 7 && 0 <= todayWeekday < 7 ==>
      0 <= n <= 6 && (todayWeekday + n) % 7 == weekday && (n == 0 <==> todayWeekday == weekday)
  {
    var ahead := weekday - todayWeekday;
    if ahead < 0 then ahead + 7 else ahead
  }

  /** `next_date_for_weekday(weekday, tz)`, with `today` the current date in
      the zone. */
  function NextDateForWeekday(weekday: int, today: int): (d: int)
    ensures 0 <= weekday < 7 ==> today <= d <= today + 6 && Weekday(d) == weekday
  {
    today + DaysAhead(weekday, Weekday(today))
  }

  /** The next occurrence is the soonest date from today on that falls on
      the requested weekday: at most six days ahead, and today itself when
      today already matches. */
  lemma NextDateIsSoonest(weekday: int, today: int)
    requires 0 <= weekday < 7
    ensures today <= NextDateForWeekday(weekday, today) <= today + 6
    ensures Weekday(NextDateForWeekday(weekday, today)) == weekday
    ensures Weekday(today) == weekday ==> NextDateForWeekday(weekday, today) == today
    ensures forall d | today <= d < NextDateForWeekday(weekday, today) :: Weekday(d) != weekday
  {
    var n := DaysAhead(weekday, Weekday(today));
    forall d | today <= d < today + n ensures Weekday(d) != weekday {
      WeekdayStep(today, d - today);
    }
    WeekdayStep(today, n);
  }

  /** The soonest date from tomorrow with today's weekday is a week on. */
  lemma NextWeekSameDay(today: int, tomorrow: int)
    requires tomorrow == today + 1
    ensures NextDateForWeekday(Weekday(today), tomorrow) == today + 7
  {
    var d := NextDateForWeekday(Weekday(today), tomorrow);
    WeekdayStep(today, d - today);
  }

  /** Moving `k` days on moves the weekday `k` places on, modulo seven. */
  lemma WeekdayStep(today: int, k: int)
    ensures Weekday(today + k) == (Weekday(today) + k) % 7
  {
  }
}
