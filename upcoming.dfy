/** `filter_upcoming_events`: keep the events whose date range meets the window from
    today 00:00 to now plus the horizon, look up a cover image for the kept events
    that have a page but no image, and sort the result by date with undated events
    last. */
module Upcoming {
  import opened Text
  import opened Dates
  import opened Events
  import Seqs

  const MicrosPerDay: int := 86_400_000_000

  /** Microseconds since midnight. */
  type DayMicros = m: int | 0 <= m < MicrosPerDay

  /** The moment `datetime.now()` returns, passed in by the caller. */
  datatype Now = Now(date: CalendarDate, time: DayMicros)

  /** A date's midnight as an absolute count of microseconds. */
  function Midnight(d: CalendarDate): int {
    DayNumber(d) * MicrosPerDay
  }

  function NowMicros(now: Now): int {
    Midnight(now.date) + now.time
  }

  /** `parsed_date_to`, falling back to `parsed_date`. */
  function EffectiveEnd(e: Event): Option<CalendarDate> {
    if e.parsedDateTo.Some? then e.parsedDateTo else e.parsedDate
  }

  /** `parsed_date_from`, falling back to `parsed_date`. */
  function EffectiveStart(e: Event): Option<CalendarDate> {
    if e.parsedDateFrom.Some? then e.parsedDateFrom else e.parsedDate
  }

  /** The selection test: the end exists and is no earlier than today 00:00, and the
      start exists and is no later than `now + timedelta(days=daysAhead)`. */
  predicate IsUpcoming(e: Event, now: Now, daysAhead: int) {
    var end := EffectiveEnd(e);
    var start := EffectiveStart(e);
    end.Some? && Midnight(end.value) >= Midnight(now.date) &&
    start.Some? && Midnight(start.value) <= NowMicros(now) + daysAhead * MicrosPerDay
  }

  lemma ScaleOrder(a: int, b: int, t: int)
    requires 0 <= t < MicrosPerDay
    ensures a * MicrosPerDay <= b * MicrosPerDay + t <==> a <= b
  {
    if a > b {
      assert a * MicrosPerDay >= (b + 1) * MicrosPerDay == b * MicrosPerDay + MicrosPerDay;
    }
  }

  /** The same test on whole days: because parsed dates are midnights, the window is
      `today <= end` and `start <= today + daysAhead` in day numbers. */
  lemma UpcomingByDay(e: Event, now: Now, daysAhead: int)
    ensures IsUpcoming(e, now, daysAhead) <==>
      EffectiveEnd(e).Some? && DayNumber(EffectiveEnd(e).value) >= DayNumber(now.date) &&
      EffectiveStart(e).Some? && DayNumber(EffectiveStart(e).value) <= DayNumber(now.date) + daysAhead
  {
    var today := DayNumber(now.date);
    if EffectiveEnd(e).Some? {
      ScaleOrder(today, DayNumber(EffectiveEnd(e).value), 0);
    }
    if EffectiveStart(e).Some? {
      ScaleOrder(DayNumber(EffectiveStart(e).value), today + daysAhead, now.time);
      assert (today + daysAhead) * MicrosPerDay == today * MicrosPerDay + daysAhead * MicrosPerDay;
    }
  }

  /** The same test in calendar terms: the event has not ended before today. */
  lemma UpcomingNotEnded(e: Event, now: Now, daysAhead: int)
    requires IsUpcoming(e, now, daysAhead)
    ensures !Before(EffectiveEnd(e).value, now.date)
  {
    UpcomingByDay(e, now, daysAhead);
    DayNumberOrder(EffectiveEnd(e).value, now.date);
  }

  /** The first loop: the upcoming events in their original order. */
  function Select(events: seq<Event>, now: Now, daysAhead: int): (r: seq<Event>)
    ensures |r| <= |events|
    ensures forall e :: e in r <==> e in events && IsUpcoming(e, now, daysAhead)
  {
    if events == [] then []
    else
      var prefix := events[..|events| - 1];
      var last := events[|events| - 1];
      Seqs.SplitLast(events);
      Select(prefix, now, daysAhead) + (if IsUpcoming(last, now, daysAhead) then [last] else [])
  }

  /** Selection keeps every copy of an upcoming event and no copy of any other. */
  lemma {:induction false} SelectCounts(events: seq<Event>, now: Now, daysAhead: int)
    ensures forall e ::
      multiset(Select(events, now, daysAhead))[e] == if IsUpcoming(e, now, daysAhead) then multiset(events)[e] else 0
  {
    if events != [] {
      var prefix := events[..|events| - 1];
      var last := events[|events| - 1];
      SelectCounts(prefix, now, daysAhead);
      Seqs.SplitLast(events);
      assert multiset(events) == multiset(prefix) + multiset([last]);
    }
  }

  /** Selection keeps the order of the input: it distributes over concatenation. */
  lemma {:induction false} SelectAppend(a: seq<Event>, b: seq<Event>, now: Now, daysAhead: int)
    ensures Select(a + b, now, daysAhead) == Select(a, now, daysAhead) + Select(b, now, daysAhead)
    decreases |b|
  {
    if b == [] {
      Seqs.AppendNil(a);
      Seqs.AppendNil(Select(a, now, daysAhead));
    } else {
      var c := b[..|b| - 1];
      var x := b[|b| - 1];
      SelectAppend(a, c, now, daysAhead);
      Seqs.DropLastOfAppend(a, b);
      var tail := if IsUpcoming(x, now, daysAhead) then [x] else [];
      Seqs.AppendAssoc(Select(a, now, daysAhead), Select(c, now, daysAhead), tail);
    }
  }

  /** Only events with a page address and no image yet are sent for a lookup. */
  predicate NeedsImage(e: Event) {
    e.url != "" && e.imageUrl == ""
  }

  /** `fetch_event_image`: `lookup` stands for `extract_image_from_url`, which
      answers "" when the page or its image cannot be had. */
  function Enrich(e: Event, lookup: string -> string): (r: Event)
    ensures r == e.(imageUrl := r.imageUrl)
    ensures !NeedsImage(e) ==> r == e
    ensures NeedsImage(e) ==> r.imageUrl == lookup(e.url)
  {
    if NeedsImage(e) then e.(imageUrl := lookup(e.url)) else e
  }

  /** Every kept event after its lookup, positions unchanged. */
  function EnrichAll(events: seq<Event>, lookup: string -> string): (r: seq<Event>)
    ensures |r| == |events|
    ensures forall i :: 0 <= i < |events| ==> r[i] == Enrich(events[i], lookup)
  {
    seq(|events|, i requires 0 <= i < |events| => Enrich(events[i], lookup))
  }

  /** An image lookup touches no date, so it cannot change the selection. */
  lemma EnrichKeepsUpcoming(e: Event, lookup: string -> string, now: Now, daysAhead: int)
    ensures IsUpcoming(Enrich(e, lookup), now, daysAhead) == IsUpcoming(e, now, daysAhead)
    ensures Enrich(e, lookup).parsedDate == e.parsedDate
  {
  }

  /** An event that already has an image, or has no page, is never looked up again. */
  lemma EnrichIdempotent(e: Event, lookup: string -> string)
    requires !NeedsImage(e) || lookup(e.url) != ""
    ensures Enrich(Enrich(e, lookup), lookup) == Enrich(e, lookup)
  {
  }

  // ----- Sorting by `parsed_date or datetime.max` -----

  /** The sort key order: dated events by date, every undated event after them. */
  predicate KeyLe(a: Option<CalendarDate>, b: Option<CalendarDate>) {
    match (a, b)
    case (None, _) => b.None?
    case (Some(_), None) => true
    case (Some(x), Some(y)) => NotAfter(x, y)
  }

  predicate Sorted(s: seq<Event>) {
    forall i, j :: 0 <= i < j < |s| ==> KeyLe(s[i].parsedDate, s[j].parsedDate)
  }

  lemma KeyLeTotal(a: Option<CalendarDate>, b: Option<CalendarDate>)
    ensures KeyLe(a, b) || KeyLe(b, a)
    ensures KeyLe(a, a)
  {
  }

  lemma KeyLeTransitive(a: Option<CalendarDate>, b: Option<CalendarDate>, c: Option<CalendarDate>)
    requires KeyLe(a, b) && KeyLe(b, c)
    ensures KeyLe(a, c)
  {
  }

  /** Places `x` after every element whose key is not greater than its own; this keeps
      equal keys in arrival order, as Python's stable sort does. */
  function Insert(t: seq<Event>, x: Event): (r: seq<Event>)
    ensures multiset(r) == multiset(t) + multiset{x}
  {
    if t == [] || KeyLe(t[|t| - 1].parsedDate, x.parsedDate) then
      t + [x]
    else
      Seqs.SplitLast(t);
      Insert(t[..|t| - 1], x) + [t[|t| - 1]]
  }

  lemma {:induction false} InsertSorted(t: seq<Event>, x: Event)
    requires Sorted(t)
    ensures Sorted(Insert(t, x))
  {
    if t == [] {
    } else if KeyLe(t[|t| - 1].parsedDate, x.parsedDate) {
      var r := t + [x];
      forall i, j | 0 <= i < j < |r|
        ensures KeyLe(r[i].parsedDate, r[j].parsedDate)
      {
        if j == |t| && i < |t| - 1 {
          KeyLeTransitive(t[i].parsedDate, t[|t| - 1].parsedDate, x.parsedDate);
        }
      }
    } else {
      var prefix := t[..|t| - 1];
      var last := t[|t| - 1];
      Seqs.SplitLast(t);
      InsertSorted(prefix, x);
      var head := Insert(prefix, x);
      KeyLeTotal(last.parsedDate, x.parsedDate);
      forall z | z in head
        ensures KeyLe(z.parsedDate, last.parsedDate)
      {
        assert z in multiset(prefix) + multiset{x};
        if z in prefix {
          var i :| 0 <= i < |prefix| && prefix[i] == z;
          assert t[i] == z;
        }
      }
      var r := head + [last];
      forall i, j | 0 <= i < j < |r|
        ensures KeyLe(r[i].parsedDate, r[j].parsedDate)
      {
        if j == |head| {
          assert r[i] == head[i];
          assert r[i] in head;
        }
      }
    }
  }

  /** `sorted(upcoming, key=lambda x: x.parsed_date or datetime.max)`. */
  function SortByDate(s: seq<Event>): (r: seq<Event>)
    ensures multiset(r) == multiset(s)
    ensures Sorted(r)
  {
    if s == [] then []
    else
      Seqs.SplitLast(s);
      InsertSorted(SortByDate(s[..|s| - 1]), s[|s| - 1]);
      Insert(SortByDate(s[..|s| - 1]), s[|s| - 1])
  }

  /** In a sorted list the undated events form a tail. */
  lemma UndatedLast(s: seq<Event>, i: nat, j: nat)
    requires Sorted(s) && i < j < |s| && s[i].parsedDate.None?
    ensures s[j].parsedDate.None?
  {
    assert KeyLe(s[i].parsedDate, s[j].parsedDate);
  }

  /** The events whose key is exactly `k`, in order. */
  function WithKey(s: seq<Event>, k: Option<CalendarDate>): seq<Event> {
    if s == [] then []
    else WithKey(s[..|s| - 1], k) + (if s[|s| - 1].parsedDate == k then [s[|s| - 1]] else [])
  }

  lemma {:induction false} WithKeyAppend(a: seq<Event>, b: seq<Event>, k: Option<CalendarDate>)
    ensures WithKey(a + b, k) == WithKey(a, k) + WithKey(b, k)
    decreases |b|
  {
    if b == [] {
      Seqs.AppendNil(a);
    } else {
      Seqs.DropLastOfAppend(a, b);
      WithKeyAppend(a, b[..|b| - 1], k);
    }
  }

  lemma WithKeySingle(x: Event, k: Option<CalendarDate>)
    ensures WithKey([x], k) == if x.parsedDate == k then [x] else []
  {
    var s := [x];
    assert s[..|s| - 1] == [];
    assert WithKey(s, k) == WithKey([], k) + (if s[0].parsedDate == k then [s[0]] else []);
  }

  lemma {:induction false} InsertStable(t: seq<Event>, x: Event, k: Option<CalendarDate>)
    ensures WithKey(Insert(t, x), k) == WithKey(t + [x], k)
  {
    if !(t == [] || KeyLe(t[|t| - 1].parsedDate, x.parsedDate)) {
      var prefix := t[..|t| - 1];
      var last := t[|t| - 1];
      Seqs.SplitLast(t);
      KeyLeTotal(x.parsedDate, x.parsedDate);
      assert last.parsedDate != x.parsedDate;
      var wx, wl := WithKey([x], k), WithKey([last], k);
      WithKeySingle(x, k);
      WithKeySingle(last, k);
      calc {
        WithKey(Insert(t, x), k);
        WithKey(Insert(prefix, x) + [last], k);
        { WithKeyAppend(Insert(prefix, x), [last], k); }
        WithKey(Insert(prefix, x), k) + wl;
        { InsertStable(prefix, x, k); WithKeyAppend(prefix, [x], k); }
        WithKey(prefix, k) + wx + wl;
        WithKey(prefix, k) + wl + wx;
        { WithKeyAppend(prefix, [last], k); }
        WithKey(t, k) + wx;
        { WithKeyAppend(t, [x], k); }
        WithKey(t + [x], k);
      }
    }
  }

  /** The sort is stable: events sharing a key keep their relative order. */
  lemma {:induction false} SortStable(s: seq<Event>, k: Option<CalendarDate>)
    ensures WithKey(SortByDate(s), k) == WithKey(s, k)
  {
    if s != [] {
      var prefix := s[..|s| - 1];
      SortStable(prefix, k);
      InsertStable(SortByDate(prefix), s[|s| - 1], k);
      WithKeyAppend(SortByDate(prefix), [s[|s| - 1]], k);
      WithKeyAppend(prefix, [s[|s| - 1]], k);
      Seqs.SplitLast(s);
    }
  }

  /** The horizon `days_ahead` takes when the caller gives none, as the page generator does. */
  const DefaultDaysAhead: int := 730

  /** `filter_upcoming_events(events, days_ahead)` with `now` and the image lookup passed in.
      The lookups run one after another here; the thread pool of the source only
      changes when they run, not what they write. */
  method FilterUpcoming(events: seq<Event>, now: Now, daysAhead: int, lookup: string -> string)
    returns (result: seq<Event>)
    ensures result == SortByDate(EnrichAll(Select(events, now, daysAhead), lookup))
    ensures Sorted(result)
    ensures forall e :: e in result ==> IsUpcoming(e, now, daysAhead)
    ensures forall e :: e in events && IsUpcoming(e, now, daysAhead) ==> Enrich(e, lookup) in result
  {
    var upcoming := SelectUpcoming(events, now, daysAhead);
    upcoming := FetchImages(upcoming, lookup);
    result := SortByDate(upcoming);
    FilteredAreUpcoming(events, now, daysAhead, lookup);
    FilteredKeepsUpcoming(events, now, daysAhead, lookup);
  }

  /** The `for event in events` loop: keeps the events in the window, in input order. */
  method SelectUpcoming(events: seq<Event>, now: Now, daysAhead: int) returns (upcoming: seq<Event>)
    ensures upcoming == Select(events, now, daysAhead)
  {
    upcoming := [];
    var i := 0;
    while i < |events|
      invariant 0 <= i <= |events|
      invariant upcoming == Select(events[..i], now, daysAhead)
    {
      Seqs.TakeOneMore(events, i);
      var event := events[i];
      if IsUpcoming(event, now, daysAhead) {
        upcoming := upcoming + [event];
      }
      i := i + 1;
    }
    assert events[..|events|] == events;
  }

  /** The image fetches: each kept event without an image but with a page gets the
      looked-up image, in place; no other event and no other field changes. */
  method FetchImages(selected: seq<Event>, lookup: string -> string) returns (upcoming: seq<Event>)
    ensures upcoming == EnrichAll(selected, lookup)
  {
    upcoming := selected;
    var k := 0;
    while k < |upcoming|
      invariant 0 <= k <= |upcoming| && |upcoming| == |selected|
      invariant forall j :: 0 <= j < k ==> upcoming[j] == Enrich(selected[j], lookup)
      invariant forall j :: k <= j < |upcoming| ==> upcoming[j] == selected[j]
    {
      var event := upcoming[k];
      if NeedsImage(event) {
        upcoming := upcoming[k := event.(imageUrl := lookup(event.url))];
      }
      k := k + 1;
    }
  }

  /** The filtered list holds only upcoming events. */
  lemma FilteredAreUpcoming(events: seq<Event>, now: Now, daysAhead: int, lookup: string -> string)
    ensures forall e :: e in SortByDate(EnrichAll(Select(events, now, daysAhead), lookup)) ==> IsUpcoming(e, now, daysAhead)
  {
    var selected := Select(events, now, daysAhead);
    var enriched := EnrichAll(selected, lookup);
    forall e | e in SortByDate(enriched)
      ensures IsUpcoming(e, now, daysAhead)
    {
      assert e in multiset(enriched);
      var j :| 0 <= j < |enriched| && enriched[j] == e;
      EnrichKeepsUpcoming(selected[j], lookup, now, daysAhead);
    }
  }

  /** Every upcoming input event is in the filtered list once its image is looked up. */
  lemma FilteredKeepsUpcoming(events: seq<Event>, now: Now, daysAhead: int, lookup: string -> string)
    ensures forall e :: e in events && IsUpcoming(e, now, daysAhead) ==>
      Enrich(e, lookup) in SortByDate(EnrichAll(Select(events, now, daysAhead), lookup))
  {
    var selected := Select(events, now, daysAhead);
    var enriched := EnrichAll(selected, lookup);
    forall e | e in events && IsUpcoming(e, now, daysAhead)
      ensures Enrich(e, lookup) in SortByDate(enriched)
    {
      var j :| 0 <= j < |selected| && selected[j] == e;
      assert Enrich(e, lookup) == enriched[j];
      assert enriched[j] in multiset(SortByDate(enriched));
    }
  }

  /** `filter_upcoming_events(events)`: the call the page generator makes, with the
      default horizon of 730 days. */
  method FilterUpcomingDefault(events: seq<Event>, now: Now, lookup: string -> string)
    returns (result: seq<Event>)
    ensures result == SortByDate(EnrichAll(Select(events, now, DefaultDaysAhead), lookup))
    ensures forall e :: e in result ==> IsUpcoming(e, now, 730)
  {
    result := FilterUpcoming(events, now, DefaultDaysAhead, lookup);
  }


  /** The three window cases of an ordinary run: an event still running today is
      kept, one that ended the day before yesterday is not, nor is one starting too far ahead. */
  lemma WindowExamples(base: Event)
    ensures var now := Now(Date(2025, 1, 1), 0);
      var running := base.(parsedDate := Some(Date(2024, 12, 31)), parsedDateFrom := Some(Date(2024, 12, 31)), parsedDateTo := Some(Date(2025, 1, 2)));
      var ended := base.(parsedDate := Some(Date(2024, 12, 30)), parsedDateFrom := Some(Date(2024, 12, 30)), parsedDateTo := Some(Date(2024, 12, 30)));
      var later := base.(parsedDate := Some(Date(2026, 6, 1)), parsedDateFrom := Some(Date(2026, 6, 1)), parsedDateTo := None);
      IsUpcoming(running, now, 365) && !IsUpcoming(ended, now, 365) && !IsUpcoming(later, now, 365)
  {
  }
}
