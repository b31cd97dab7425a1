/** `find_calendar` and the create-if-absent step of `main`.

    The calendar list arrives as the pages the service answers, in the order
    they are requested; a page carries its items and, perhaps, a
    continuation token. */
module Calendars {
  import opened Outcomes

  /** An entry of the calendar list; `summary` is `None` when the entry has
      no display name (`cal.get('summary')`). */
  datatype CalendarEntry = CalendarEntry(id: string, summary: Option<string>)

  datatype Page = Page(items: seq<CalendarEntry>, nextPageToken: Option<string>)

  /** `if not page_token: break` stops on a missing and on an empty token. */
  predicate HasMore(p: Page)
  {
    p.nextPageToken.Some? && p.nextPageToken.value != ""
  }

  /** The listing ends: its last page carries no continuation token. */
  predicate Ends(pages: seq<Page>)
  {
    |pages| > 0 && !HasMore(pages[|pages| - 1])
  }

  predicate Matches(c: CalendarEntry, name: string)
  {
    c.summary == Some(name)
  }

  // ---------------------------------------------------------------------
  // Reference definitions of what the search sees and finds

  /** The index of the first page without a continuation token: the last
      page `find_calendar` can request. */
  function LastRequested(pages: seq<Page>): (k: nat)
    requires Ends(pages)
    ensures k < |pages| && !HasMore(pages[k])
    ensures forall j | 0 <= j < k :: HasMore(pages[j])
    decreases |pages|
  {
    if !HasMore(pages[0]) then 0 else 1 + LastRequested(pages[1..])
  }

  /** All items of the given pages, page after page. */
  function Flatten(pages: seq<Page>): seq<CalendarEntry>
    decreases |pages|
  {
    if |pages| == 0 then [] else pages[0].items + Flatten(pages[1..])
  }

  /** The items the search can reach: those of the pages up to and
      including the first one without a continuation token. */
  function Reachable(pages: seq<Page>): seq<CalendarEntry>
    requires Ends(pages)
  {
    Flatten(pages[..LastRequested(pages) + 1])
  }

  /** The first entry named `name`. */
  function FirstMatch(items: seq<CalendarEntry>, name: string): (r: Option<CalendarEntry>)
    ensures r.Some? ==> Matches(r.value, name) && r.value in items
    ensures r.None? <==> forall k | 0 <= k < |items| :: !Matches(items[k], name)
    decreases |items|
  {
    if |items| == 0 then None
    else if Matches(items[0], name) then Some(items[0])
    else FirstMatch(items[1..], name)
  }

  /** An entry named `name` with no such entry before it is the one
      `FirstMatch` returns. */
  lemma {:induction false} FirstMatchIsFirst(items: seq<CalendarEntry>, name: string, k: nat)
    requires k < |items| && Matches(items[k], name)
    requires forall j | 0 <= j < k :: !Matches(items[j], name)
    ensures FirstMatch(items, name) == Some(items[k])
    decreases k
  {
    if k > 0 {
      assert !Matches(items[0], name);
      FirstMatchIsFirst(items[1..], name, k - 1);
    }
  }

  /** The first match in a concatenation is the first match of the first
      part, if it has one, and otherwise that of the second. */
  lemma {:induction false} FirstMatchAppend(xs: seq<CalendarEntry>, ys: seq<CalendarEntry>, name: string)
    ensures FirstMatch(xs + ys, name) ==
      if FirstMatch(xs, name).Some? then FirstMatch(xs, name) else FirstMatch(ys, name)
    decreases |xs|
  {
    if |xs| > 0 {
      assert (xs + ys)[1..] == xs[1..] + ys;
      FirstMatchAppend(xs[1..], ys, name);
    } else {
      assert xs + ys == ys;
    }
  }

  /** What `find_calendar` returns, with the number of list requests it
      makes, read page by page. */
  function Lookup(pages: seq<Page>, name: string): (r: (Option<CalendarEntry>, nat))
    requires Ends(pages)
    ensures 1 <= r.1 <= |pages|
    ensures r.0.Some? ==> Matches(r.0.value, name)
    decreases |pages|
  {
    match FirstMatch(pages[0].items, name)
    case Some(c) => (Some(c), 1)
    case None =>
      if !HasMore(pages[0]) then (None, 1)
      else
        var rest := Lookup(pages[1..], name);
        (rest.0, rest.1 + 1)
  }

  /** Flattening a non-empty prefix peels off the first page. */
  lemma FlattenPrefix(pages: seq<Page>, m: nat)
    requires 1 <= m <= |pages|
    ensures Flatten(pages[..m]) == pages[0].items + Flatten(pages[1..][..m - 1])
  {
    assert pages[..m] == [pages[0]] + pages[1..][..m - 1];
    assert ([pages[0]] + pages[1..][..m - 1])[1..] == pages[1..][..m - 1];
  }

  /** The page-by-page search finds the first entry named `name` among the
      reachable items, in page-then-item order; so it finds `None` exactly
      when no reachable entry has that name. */
  lemma {:induction false} LookupIsFirstMatch(pages: seq<Page>, name: string)
    requires Ends(pages)
    ensures Lookup(pages, name).0 == FirstMatch(Reachable(pages), name)
    decreases |pages|
  {
    var k := LastRequested(pages);
    FlattenPrefix(pages, k + 1);
    FirstMatchAppend(pages[0].items, Flatten(pages[1..][..k]), name);
    if FirstMatch(pages[0].items, name).None? {
      if HasMore(pages[0]) {
        LookupIsFirstMatch(pages[1..], name);
      } else {
        assert Flatten(pages[1..][..0]) == [];
      }
    }
  }

  /** The search requests the pages up to the one holding the first match,
      no page after it, and every reachable page when there is no match. */
  lemma {:induction false} LookupRequests(pages: seq<Page>, name: string)
    requires Ends(pages)
    ensures 1 <= Lookup(pages, name).1 <= LastRequested(pages) + 1
    ensures Lookup(pages, name).0.None? ==> Lookup(pages, name).1 == LastRequested(pages) + 1
    ensures Lookup(pages, name).0.Some? ==>
      var n := Lookup(pages, name).1;
      && FirstMatch(Flatten(pages[..n - 1]), name).None?
      && FirstMatch(pages[n - 1].items, name) == Lookup(pages, name).0
    decreases |pages|
  {
    assert Flatten(pages[..0]) == [];
    if FirstMatch(pages[0].items, name).None? && HasMore(pages[0]) {
      LookupRequests(pages[1..], name);
      var n := Lookup(pages, name).1;
      if Lookup(pages, name).0.Some? && n >= 2 {
        FlattenPrefix(pages, n - 1);
        FirstMatchAppend(pages[0].items, Flatten(pages[1..][..n - 2]), name);
      }
    }
  }

  // ---------------------------------------------------------------------
  // The search as the program runs it

  /** `find_calendar(service, calendar_name)`, also returning how many
      list requests it issued. */
  method FindCalendar(pages: seq<Page>, name: string) returns (cal: Option<CalendarEntry>, requests: nat)
    requires Ends(pages)
    ensures (cal, requests) == Lookup(pages, name)
  {
    var k := 0;
    requests := 0;
    while true
      invariant 0 <= k < |pages| && requests == k
      invariant Lookup(pages, name) == (Lookup(pages[k..], name).0, Lookup(pages[k..], name).1 + k)
      decreases |pages| - k
    {
      var page := pages[k];
      requests := requests + 1;
      var i := 0;
      while i < |page.items|
        invariant 0 <= i <= |page.items|
        invariant FirstMatch(page.items, name) == FirstMatch(page.items[i..], name)
      {
        if page.items[i].summary == Some(name) {
          return Some(page.items[i]), requests;
        }
        assert page.items[i..][1..] == page.items[i + 1..];
        i := i + 1;
      }
      if !HasMore(page) {
        return None, requests;
      }
      assert pages[k..][1..] == pages[k + 1..];
      k := k + 1;
    }
  }

  // ---------------------------------------------------------------------
  // Create if absent

  /** The body of `calendars().insert`. */
  datatype NewCalendar = NewCalendar(summary: string, timeZone: string)

  /** The calendar `main` goes on with, how many list requests it took, and
      the calendar it created, if any. */
  datatype Resolution = Resolution(calendarId: string, listRequests: nat, created: Option<NewCalendar>)

  /** Lines 133-137 of `main`: look the calendar up and create it (with the
      id the service assigns, `newId`) only when the lookup found nothing. */
  function Resolve(pages: seq<Page>, name: string, timezone: string, newId: string): (r: Resolution)
    requires Ends(pages)
    ensures r.created.Some? <==> FirstMatch(Reachable(pages), name).None?
    ensures r.created.Some? ==> r.created.value == NewCalendar(name, timezone) && r.calendarId == newId
    ensures r.created.None? ==> r.calendarId == FirstMatch(Reachable(pages), name).value.id
  {
    LookupIsFirstMatch(pages, name);
    var (found, requests) := Lookup(pages, name);
    match found
    case Some(cal) => Resolution(cal.id, requests, None)
    case None => Resolution(newId, requests, Some(NewCalendar(name, timezone)))
  }

  /** The entry a resolution leaves in the calendar list: the created
      calendar, or nothing new. */
  function Registered(r: Resolution): seq<CalendarEntry>
  {
    match r.created
    case Some(c) => [CalendarEntry(r.calendarId, Some(c.summary))]
    case None => []
  }

  /** Resolving is idempotent. Run it again on a listing that shows what the
      first run saw plus the calendar it created (in any position), and it
      creates nothing and settles on the same calendar. */
  lemma ResolveIdempotent(pages1: seq<Page>, pages2: seq<Page>, name: string, timezone: string,
                          newId1: string, newId2: string, before: seq<CalendarEntry>, after: seq<CalendarEntry>)
    requires Ends(pages1) && Ends(pages2)
    requires before + after == Reachable(pages1)
    requires Reachable(pages2) == before + Registered(Resolve(pages1, name, timezone, newId1)) + after
    ensures Resolve(pages2, name, timezone, newId2).created.None?
    ensures Resolve(pages2, name, timezone, newId2).calendarId == Resolve(pages1, name, timezone, newId1).calendarId
  {
    var r1 := Resolve(pages1, name, timezone, newId1);
    var reg := Registered(r1);
    FirstMatchAppend(before, after, name);
    FirstMatchAppend(before + reg, after, name);
    FirstMatchAppend(before, reg, name);
  }
}
