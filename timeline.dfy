/** The coordinate arithmetic of `create_ogp_image`: which events are drawn, where a
    date falls on the 1200x630 canvas, which row an event takes, where the month
    separators go and whether an event is a pill or a dot. Drawing itself (fonts,
    colours, the outline passes) is not modelled. */
module Timeline {
  import opened Text
  import opened Dates
  import opened Events
  import Seqs

  const Width: int := 1200
  const Height: int := 630
  const HeaderHeight: int := 80
  const ChartStartY: int := HeaderHeight + 20
  const ChartHeight: int := Height - ChartStartY - 40
  const RowHeight: int := 40
  const MaxRows: int := ChartHeight / RowHeight
  const MaxDisplay: nat := 12
  const TimelineStartX: int := 200
  const TimelineWidth: int := Width - TimelineStartX - 50
  const DotSize: int := 8
  const WidthExtend: int := 8

  lemma Geometry()
    ensures ChartStartY == 100 && ChartHeight == 490 && MaxRows == 12 && TimelineWidth == 950
  {
  }

  /** `events[:min(12, len(events))]`. */
  function DisplayEvents(events: seq<Event>): (r: seq<Event>)
    ensures |r| <= MaxDisplay && r <= events
    ensures |events| <= MaxDisplay ==> r == events
    ensures |events| > MaxDisplay ==> r == events[..MaxDisplay]
  {
    if |events| <= MaxDisplay then events else events[..MaxDisplay]
  }

  /** The `parsed_date` values present, in order. */
  function DatesOf(s: seq<Event>): (r: seq<CalendarDate>)
    ensures |r| <= |s|
  {
    if s == [] then []
    else DatesOf(s[..|s| - 1]) + (if s[|s| - 1].parsedDate.Some? then [s[|s| - 1].parsedDate.value] else [])
  }

  /** One more event adds its date, if it has one. */
  lemma DatesOfStep(s: seq<Event>, n: nat)
    requires n < |s|
    ensures s[n].parsedDate.Some? ==> DatesOf(s[..n + 1]) == DatesOf(s[..n]) + [s[n].parsedDate.value]
    ensures s[n].parsedDate.None? ==> DatesOf(s[..n + 1]) == DatesOf(s[..n])
  {
    Seqs.TakeOneMore(s, n);
  }

  /** Every dated event contributes its date, and there are no dates exactly when no
      event has one. */
  lemma {:induction false} DatesOfMembers(s: seq<Event>)
    ensures forall i :: 0 <= i < |s| && s[i].parsedDate.Some? ==> s[i].parsedDate.value in DatesOf(s)
    ensures forall d :: d in DatesOf(s) ==> exists i :: 0 <= i < |s| && s[i].parsedDate == Some(d)
    ensures DatesOf(s) == [] <==> forall i :: 0 <= i < |s| ==> s[i].parsedDate.None?
  {
    if s != [] {
      var prefix := s[..|s| - 1];
      DatesOfMembers(prefix);
      assert forall i :: 0 <= i < |prefix| ==> prefix[i] == s[i];
    }
  }

  /** `min(...)`: a date of the list no later than any other. */
  function Earliest(ds: seq<CalendarDate>): (m: CalendarDate)
    requires ds != []
    ensures m in ds && forall d :: d in ds ==> NotAfter(m, d)
  {
    if |ds| == 1 then ds[0]
    else
      var rest := Earliest(ds[1..]);
      assert forall d :: d in ds ==> d == ds[0] || d in ds[1..];
      if NotAfter(ds[0], rest) then ds[0] else rest
  }

  /** `max(...)`: a date of the list no earlier than any other. */
  function Latest(ds: seq<CalendarDate>): (m: CalendarDate)
    requires ds != []
    ensures m in ds && forall d :: d in ds ==> NotAfter(d, m)
  {
    if |ds| == 1 then ds[0]
    else
      var rest := Latest(ds[1..]);
      assert forall d :: d in ds ==> d == ds[0] || d in ds[1..];
      if NotAfter(rest, ds[0]) then ds[0] else rest
  }

  /** `(latest - earliest).days`, replaced by 1 when it is 0. */
  function DateRange(earliest: CalendarDate, latest: CalendarDate): int {
    var days := DayNumber(latest) - DayNumber(earliest);
    if days == 0 then 1 else days
  }

  /** The span of a non-empty list of dates: never below one day. */
  function Span(ds: seq<CalendarDate>): (r: int)
    requires ds != []
    ensures r >= 1 && r == DateRange(Earliest(ds), Latest(ds))
  {
    var e, l := Earliest(ds), Latest(ds);
    DayNumberOrder(e, l);
    DateRange(e, l)
  }

  /** `timeline_start_x + (days_from_start / date_range) * timeline_width`, exactly. */
  function XPos(d: CalendarDate, earliest: CalendarDate, range: int): real
    requires range > 0
  {
    AxisX(DayNumber(d) - DayNumber(earliest), range)
  }

  /** The x of a point `days` days into a span of `range` days. */
  function AxisX(days: int, range: int): real
    requires range > 0
  {
    TimelineStartX as real + (days as real / range as real) * TimelineWidth as real
  }

  /** `chart_start_y + (i % max_rows) * row_height`: rows cycle, they do not avoid
      one another. */
  function RowY(i: nat): (y: int)
    ensures ChartStartY <= y <= ChartStartY + (MaxRows - 1) * RowHeight
  {
    ChartStartY + (i % MaxRows) * RowHeight
  }

  /** `strftime('%Y-%m')`: the year unpadded, the month on two digits. */
  function MonthLabel(d: CalendarDate): string {
    NatToString(d.year) + "-" + Pad2(d.month)
  }

  /** Two dates share a label exactly when they share year and month. */
  lemma MonthLabelInjective(a: CalendarDate, b: CalendarDate)
    ensures MonthLabel(a) == MonthLabel(b) <==> a.year == b.year && a.month == b.month
  {
    if MonthLabel(a) == MonthLabel(b) {
      var s := MonthLabel(a);
      Pad2Parses(a.month);
      Pad2Parses(b.month);
      assert s[|s| - 2..] == Pad2(a.month) == Pad2(b.month);
      assert s[..|s| - 3] == NatToString(a.year) == NatToString(b.year);
      NatToStringInjective(a.year, b.year);
    }
  }

  /** A month separator: drawn at the x of `date`, labelled `month`. */
  datatype Marker = Marker(date: CalendarDate, month: string)

  function MarkerX(m: Marker, earliest: CalendarDate, range: int): real
    requires range > 0
  {
    XPos(m.date, earliest, range)
  }

  /** The label of the last date, the loop's `current_month`. */
  function LastMonth(ds: seq<CalendarDate>): Option<string> {
    if ds == [] then None else Some(MonthLabel(ds[|ds| - 1]))
  }

  predicate SameMonth(a: CalendarDate, b: CalendarDate) {
    a.year == b.year && a.month == b.month
  }

  /** `d` opens a new month after `ds`: there is no date before it, or the one before
      it lies in another year or month. */
  predicate OpensMonth(ds: seq<CalendarDate>, d: CalendarDate) {
    ds == [] || !SameMonth(ds[|ds| - 1], d)
  }

  /** The loop's string test `event_month != current_month` is the calendar test. */
  lemma LastMonthTest(ds: seq<CalendarDate>, d: CalendarDate)
    ensures LastMonth(ds) != Some(MonthLabel(d)) <==> OpensMonth(ds, d)
  {
    if ds != [] {
      MonthLabelInjective(ds[|ds| - 1], d);
    }
  }

  /** A separator for every date whose month differs from that of the date before it. */
  function MarkersOf(ds: seq<CalendarDate>): (r: seq<Marker>)
    ensures |r| <= |ds|
  {
    if ds == [] then []
    else
      var prefix := ds[..|ds| - 1];
      var d := ds[|ds| - 1];
      MarkersOf(prefix) + (if OpensMonth(prefix, d) then [Marker(d, MonthLabel(d))] else [])
  }

  /** One more date adds a separator exactly when it opens a new month. */
  lemma MarkersStep(ds: seq<CalendarDate>, d: CalendarDate)
    ensures MarkersOf(ds + [d]) == MarkersOf(ds) +
      (if OpensMonth(ds, d) then [Marker(d, MonthLabel(d))] else [])
  {
    Seqs.DropLastOfSnoc(ds, d);
  }

  /** One dated event in the marker loop, stated on the loop's own variables. */
  lemma MarkersLoopStep(before: seq<CalendarDate>, d: CalendarDate, markers: seq<Marker>, current: Option<string>)
    requires markers == MarkersOf(before) && current == LastMonth(before)
    ensures current != Some(MonthLabel(d)) ==> markers + [Marker(d, MonthLabel(d))] == MarkersOf(before + [d])
    ensures current == Some(MonthLabel(d)) ==> markers == MarkersOf(before + [d])
    ensures LastMonth(before + [d]) == Some(MonthLabel(d))
  {
    MarkersStep(before, d);
    LastMonthTest(before, d);
    Seqs.DropLastOfSnoc(before, d);
  }

  /** The body of the marker loop for a dated event: a separator when `%Y-%m` differs
      from `current_month`, which then takes the new label. */
  method MarkDate(ghost dates: seq<CalendarDate>, markers: seq<Marker>, current: Option<string>, d: CalendarDate)
    returns (markers': seq<Marker>, current': Option<string>)
    requires markers == MarkersOf(dates) && current == LastMonth(dates)
    ensures markers' == MarkersOf(dates + [d]) && current' == LastMonth(dates + [d])
  {
    var month := MonthLabel(d);
    MarkersLoopStep(dates, d, markers, current);
    markers', current' := markers, current;
    if current != Some(month) {
      markers' := markers + [Marker(d, month)];
      current' := Some(month);
    }
  }

  /** The first marker loop: `current_month` remembers the label of the last dated
      event; x is computed and drawn, which the marker records through its date. */
  method MonthMarkers(display: seq<Event>) returns (markers: seq<Marker>)
    ensures markers == MarkersOf(DatesOf(display))
  {
    markers := [];
    var currentMonth: Option<string> := None;
    ghost var dates: seq<CalendarDate> := [];
    var i := 0;
    while i < |display|
      invariant 0 <= i <= |display|
      invariant dates == DatesOf(display[..i])
      invariant markers == MarkersOf(dates) && currentMonth == LastMonth(dates)
    {
      DatesOfStep(display, i);
      var event := display[i];
      if event.parsedDate.Some? {
        var d := event.parsedDate.value;
        markers, currentMonth := MarkDate(dates, markers, currentMonth, d);
        dates := dates + [d];
      }
      i := i + 1;
    }
    Seqs.TakeAll(display);
  }

  /** Every separator sits at one of the dates and carries that date's month; the
      last one carries the month of the last date. */
  lemma {:induction false} MarkersFromDates(ds: seq<CalendarDate>)
    ensures ds != [] <==> MarkersOf(ds) != []
    ensures ds != [] ==> var m := MarkersOf(ds); m[|m| - 1].month == MonthLabel(ds[|ds| - 1])
    ensures forall mk :: mk in MarkersOf(ds) ==> mk.date in ds && mk.month == MonthLabel(mk.date)
  {
    if ds != [] {
      var prefix := ds[..|ds| - 1];
      var d := ds[|ds| - 1];
      Seqs.SplitLast(ds);
      MarkersFromDates(prefix);
      MarkersStep(prefix, d);
      var m := MarkersOf(ds);
      var mp := MarkersOf(prefix);
      if !OpensMonth(prefix, d) {
        assert m == mp && prefix != [];
        MonthLabelInjective(prefix[|prefix| - 1], d);
      } else {
        assert m == mp + [Marker(d, MonthLabel(d))];
      }
      forall mk | mk in m
        ensures mk.date in ds && mk.month == MonthLabel(mk.date)
      {
        if mk in mp {
          assert mk.date in prefix;
        }
      }
    }
  }

  /** Neighbouring separators always name different months. */
  lemma {:induction false} MarkersChangeMonth(ds: seq<CalendarDate>, i: nat)
    requires i + 1 < |MarkersOf(ds)|
    ensures MarkersOf(ds)[i].month != MarkersOf(ds)[i + 1].month
  {
    var prefix := ds[..|ds| - 1];
    var d := ds[|ds| - 1];
    Seqs.SplitLast(ds);
    MarkersStep(prefix, d);
    var m := MarkersOf(ds);
    var mp := MarkersOf(prefix);
    assert mp <= m;
    if i + 1 < |mp| {
      MarkersChangeMonth(prefix, i);
      assert m[i] == mp[i] && m[i + 1] == mp[i + 1];
    } else {
      assert OpensMonth(prefix, d) && m == mp + [Marker(d, MonthLabel(d))];
      MarkersFromDates(prefix);
      assert prefix != [] && m[i] == mp[|mp| - 1];
      MonthLabelInjective(prefix[|prefix| - 1], d);
    }
  }

  /** Every month that has a dated event gets a separator. */
  lemma {:induction false} EveryMonthMarked(ds: seq<CalendarDate>, d: CalendarDate)
    requires d in ds
    ensures exists mk :: mk in MarkersOf(ds) && mk.month == MonthLabel(d)
  {
    var prefix := ds[..|ds| - 1];
    var m := MarkersOf(ds);
    if d == ds[|ds| - 1] {
      MarkersFromDates(ds);
      assert m[|m| - 1] in m;
    } else {
      assert d in prefix;
      EveryMonthMarked(prefix, d);
      assert MarkersOf(prefix) <= m;
    }
  }

  predicate DatesSorted(ds: seq<CalendarDate>) {
    forall i, j :: 0 <= i < j < |ds| ==> NotAfter(ds[i], ds[j])
  }

  /** In a sorted list every date is no later than the last one. */
  lemma SortedLast(ds: seq<CalendarDate>, e: CalendarDate)
    requires DatesSorted(ds) && e in ds
    ensures NotAfter(e, ds[|ds| - 1])
  {
    var k :| 0 <= k < |ds| && ds[k] == e;
    if k < |ds| - 1 {
      assert NotAfter(ds[k], ds[|ds| - 1]);
    }
  }

  /** Strict year-month order. */
  predicate MonthBefore(a: CalendarDate, b: CalendarDate) {
    a.year < b.year || (a.year == b.year && a.month < b.month)
  }

  /** A date after a sorted list that opens a new month is in a later month than every
      date of the list. */
  lemma NewMonthIsLater(prefix: seq<CalendarDate>, d: CalendarDate, e: CalendarDate)
    requires prefix != [] && DatesSorted(prefix) && e in prefix
    requires NotAfter(prefix[|prefix| - 1], d)
    requires !SameMonth(prefix[|prefix| - 1], d)
    ensures MonthBefore(e, d)
  {
    SortedLast(prefix, e);
  }

  /** Every separator sits at one of the dates. */
  lemma {:induction false} MarkerDatesIn(ds: seq<CalendarDate>)
    ensures forall mk :: mk in MarkersOf(ds) ==> mk.date in ds
  {
    if ds != [] {
      var prefix := ds[..|ds| - 1];
      var d := ds[|ds| - 1];
      Seqs.SplitLast(ds);
      MarkersStep(prefix, d);
      MarkerDatesIn(prefix);
    }
  }

  /** A date that opens a new month after a sorted list is in a later month than every
      separator of the list. */
  lemma MarkersBeforeNewMonth(prefix: seq<CalendarDate>, d: CalendarDate)
    requires prefix != [] && DatesSorted(prefix)
    requires NotAfter(prefix[|prefix| - 1], d) && !SameMonth(prefix[|prefix| - 1], d)
    ensures forall k :: 0 <= k < |MarkersOf(prefix)| ==> MonthBefore(MarkersOf(prefix)[k].date, d)
  {
    var mp := MarkersOf(prefix);
    MarkerDatesIn(prefix);
    forall k | 0 <= k < |mp|
      ensures MonthBefore(mp[k].date, d)
    {
      assert mp[k] in mp;
      NewMonthIsLater(prefix, d, mp[k].date);
    }
  }

  /** On dates in order the separators are in strictly increasing months. */
  lemma {:induction false} SortedMarkersIncrease(ds: seq<CalendarDate>)
    requires DatesSorted(ds)
    ensures var m := MarkersOf(ds);
      forall i, j :: 0 <= i < j < |m| ==> MonthBefore(m[i].date, m[j].date)
  {
    if ds != [] {
      var prefix := ds[..|ds| - 1];
      var d := ds[|ds| - 1];
      assert DatesSorted(prefix);
      SortedMarkersIncrease(prefix);
      Seqs.SplitLast(ds);
      MarkersStep(prefix, d);
      var mp := MarkersOf(prefix);
      if OpensMonth(prefix, d) {
        var m := mp + [Marker(d, MonthLabel(d))];
        assert MarkersOf(ds) == m;
        if prefix != [] {
          assert NotAfter(prefix[|prefix| - 1], d) by {
            assert ds[|prefix| - 1] == prefix[|prefix| - 1];
          }
          MarkersBeforeNewMonth(prefix, d);
        }
        forall i, j | 0 <= i < j < |m|
          ensures MonthBefore(m[i].date, m[j].date)
        {
          assert m[i] == mp[i];
          if j < |mp| {
            assert m[j] == mp[j];
          }
        }
      } else {
        assert MarkersOf(ds) == mp;
      }
    }
  }

  /** So on dates in order (the upcoming list is sorted) no month gets two separators. */
  lemma SortedMarkersDistinct(ds: seq<CalendarDate>)
    requires DatesSorted(ds)
    ensures var m := MarkersOf(ds);
      forall i, j :: 0 <= i < j < |m| ==> m[i].month != m[j].month
  {
    SortedMarkersIncrease(ds);
    MarkersFromDates(ds);
    var m := MarkersOf(ds);
    forall i, j | 0 <= i < j < |m|
      ensures m[i].month != m[j].month
    {
      assert m[i] in m && m[j] in m;
      MonthLabelInjective(m[i].date, m[j].date);
    }
  }

  /** Pill for a multi-day event (`parsed_date_to` set and different from
      `parsed_date_from`), dot otherwise. */
  predicate IsPill(e: Event) {
    e.parsedDateTo.Some? && e.parsedDateFrom != e.parsedDateTo
  }

  /** `len(name) > 25` keeps the first 22 characters and appends "...". */
  function Truncate(name: string): (r: string)
    ensures |r| <= 25
    ensures |name| <= 25 ==> r == name
    ensures |name| > 25 ==> |r| == 25 && r[..22] == name[..22] && r[22..] == "..."
  {
    if |name| > 25 then name[..22] + "..." else name
  }

  /** `strftime('%m/%d')`. */
  function MonthDay(d: CalendarDate): string {
    Pad2(d.month) + "/" + Pad2(d.day)
  }

  /** The date text right of the mark: `MM/DD-DD` within a month, `MM/DD-MM/DD`
      across months (the years are not compared), `MM/DD` for one day, `TBD` with no date. */
  function DateLabel(e: Event): string {
    if e.parsedDateTo.Some? && e.parsedDateFrom.Some? && e.parsedDateFrom != e.parsedDateTo then
      var from, to := e.parsedDateFrom.value, e.parsedDateTo.value;
      if from.month == to.month then MonthDay(from) + "-" + Pad2(to.day)
      else MonthDay(from) + "-" + MonthDay(to)
    else if e.parsedDateFrom.Some? then MonthDay(e.parsedDateFrom.value)
    else if e.parsedDate.Some? then MonthDay(e.parsedDate.value)
    else "TBD"
  }

  /** The label's shape tells the cases apart: 5 characters for one day, 8 for a range
      within a month, 11 across months; the first five name the start (the bare
      `parsed_date` when there is no start), and after the
      '-' of a range come the end's day, or the end's month and day. */
  lemma DateLabelShape(e: Event)
    ensures var l := DateLabel(e);
      (e.parsedDateFrom.Some? || e.parsedDate.Some? <==> l != "TBD") &&
      (l != "TBD" ==> |l| in {5, 8, 11} && l[2] == '/') &&
      (e.parsedDateFrom.Some? ==> l[..5] == MonthDay(e.parsedDateFrom.value)) &&
      (e.parsedDateFrom.None? && e.parsedDate.Some? ==> l == MonthDay(e.parsedDate.value)) &&
      (|l| > 5 <==> e.parsedDateTo.Some? && e.parsedDateFrom.Some? && e.parsedDateFrom != e.parsedDateTo)
    ensures var l := DateLabel(e);
      (|l| == 8 ==> e.parsedDateTo.Some? && l[5] == '-' && l[6..] == Pad2(e.parsedDateTo.value.day)) &&
      (|l| == 11 ==> e.parsedDateTo.Some? && l[5] == '-' && l[6..] == MonthDay(e.parsedDateTo.value))
  {
    forall d: CalendarDate ensures |MonthDay(d)| == 5 && MonthDay(d)[2] == '/' {
      Pad2Parses(d.month);
      Pad2Parses(d.day);
    }
    if e.parsedDateTo.Some? {
      Pad2Parses(e.parsedDateTo.value.day);
    }
  }

  /** The two range forms the drawing code names: `08/02-03` and `08/31-09/01`. */
  lemma DateLabelExamples(e: Event, f: Event)
    requires e.parsedDateFrom == Some(Date(2025, 8, 2)) && e.parsedDateTo == Some(Date(2025, 8, 3))
    requires f.parsedDateFrom == Some(Date(2025, 8, 31)) && f.parsedDateTo == Some(Date(2025, 9, 1))
    ensures DateLabel(e) == "08/02-03"
    ensures DateLabel(f) == "08/31-09/01"
  {
    assert Pad2(8) == "08" && Pad2(2) == "02" && Pad2(3) == "03";
    assert Pad2(31) == "31" && Pad2(9) == "09" && Pad2(1) == "01";
  }

  /** One drawn event: its position `index` in the display list (which picks the
      row), the date whose x it is drawn at, its mark and its two texts. */
  datatype Item = Item(index: nat, date: CalendarDate, pill: bool, name: string, dateText: string)

  function ItemX(it: Item, earliest: CalendarDate, range: int): real
    requires range > 0
  {
    XPos(it.date, earliest, range)
  }

  function ItemY(it: Item): int {
    RowY(it.index)
  }

  /** Half the width of the mark: 8 for the 16x16 dot, 16 for the 32 wide pill,
      which stays centred on the start date and does not reach toward the end date. */
  function HalfWidth(it: Item): int {
    DotSize + (if it.pill then WidthExtend else 0)
  }

  function ItemFor(i: nat, e: Event): Item
    requires e.parsedDate.Some?
  {
    Item(i, e.parsedDate.value, IsPill(e), Truncate(e.name), DateLabel(e))
  }

  /** The bar loop: one item per dated event, each keeping its position. */
  function ItemsOf(s: seq<Event>): (r: seq<Item>)
    ensures |r| <= |s|
  {
    if s == [] then []
    else
      var e := s[|s| - 1];
      ItemsOf(s[..|s| - 1]) + (if e.parsedDate.Some? then [ItemFor(|s| - 1, e)] else [])
  }

  /** Each item is the dated event at its index, made up from that event alone. */
  lemma {:induction false} ItemsAreEvents(s: seq<Event>)
    ensures forall it :: it in ItemsOf(s) ==>
      (it.index < |s| && s[it.index].parsedDate == Some(it.date) && it == ItemFor(it.index, s[it.index]))
  {
    if s != [] {
      var prefix := s[..|s| - 1];
      ItemsAreEvents(prefix);
      assert forall i :: 0 <= i < |prefix| ==> prefix[i] == s[i];
    }
  }

  /** Conversely, every dated event gets its mark. */
  lemma {:induction false} EveryDatedEventPlaced(s: seq<Event>)
    ensures forall i :: 0 <= i < |s| && s[i].parsedDate.Some? ==> ItemFor(i, s[i]) in ItemsOf(s)
  {
    if s != [] {
      var prefix := s[..|s| - 1];
      EveryDatedEventPlaced(prefix);
      assert forall i :: 0 <= i < |prefix| ==> prefix[i] == s[i];
    }
  }

  /** The second loop of the drawing code, without the drawing. */
  method PlaceEvents(display: seq<Event>) returns (items: seq<Item>)
    ensures items == ItemsOf(display)
  {
    items := [];
    var i := 0;
    while i < |display|
      invariant 0 <= i <= |display|
      invariant items == ItemsOf(display[..i])
    {
      assert display[..i + 1][..i] == display[..i];
      var event := display[i];
      if event.parsedDate.Some? {
        items := items + [Item(i, event.parsedDate.value, IsPill(event), Truncate(event.name), DateLabel(event))];
      }
      i := i + 1;
    }
    assert display[..|display|] == display;
  }

  /** The outcome of the layout: nothing to show, no dated event (where `min()` of
      the empty generator raises and no image is produced), or a frame. */
  datatype Layout =
    | NoEvents
    | NoDatedEvent
    | Drawn(earliest: CalendarDate, latest: CalendarDate, dateRange: int,
            markers: seq<Marker>, items: seq<Item>)

  /** The layout part of `create_ogp_image(events)`. */
  method LayoutTimeline(events: seq<Event>) returns (r: Layout)
    ensures r.NoEvents? <==> events == []
    ensures r.NoDatedEvent? <==> events != [] && DatesOf(DisplayEvents(events)) == []
    ensures r.Drawn? ==> var display := DisplayEvents(events);
      var ds := DatesOf(display);
      ds != [] && r.earliest == Earliest(ds) && r.latest == Latest(ds) &&
      r.dateRange == DateRange(r.earliest, r.latest) && r.dateRange >= 1 &&
      r.markers == MarkersOf(ds) && r.items == ItemsOf(display)
    ensures r.Drawn? ==> |r.items| <= MaxDisplay
  {
    var display := DisplayEvents(events);
    if display == [] {
      return NoEvents;
    }
    var ds := DatesOf(display);
    if ds == [] {
      return NoDatedEvent;
    }
    var earliest := Earliest(ds);
    var latest := Latest(ds);
    DayNumberOrder(earliest, latest);
    var range := DayNumber(latest) - DayNumber(earliest);
    if range == 0 {
      range := 1;
    }
    var markers := MonthMarkers(display);
    var items := PlaceEvents(display);
    r := Drawn(earliest, latest, range, markers, items);
  }

  lemma FractionBounds(a: int, r: int)
    requires 0 <= a <= r && r >= 1
    ensures 0.0 <= a as real / r as real <= 1.0
  {
    var q := a as real / r as real;
    assert q * r as real == a as real;
    assert (1.0 - q) * r as real == (r - a) as real;
  }

  /** A point inside the span lands on the axis, from x = 200 to x = 1150; the ends of
      the span land on the ends of the axis. */
  lemma AxisPoint(a: int, r: int)
    requires 0 <= a <= r && r >= 1
    ensures 200.0 <= AxisX(a, r) <= 1150.0
  {
    FractionBounds(a, r);
  }

  lemma AxisEndPoints(r: int)
    requires r >= 1
    ensures AxisX(0, r) == 200.0 && AxisX(r, r) == 1150.0
  {
    assert r as real / r as real == 1.0;
  }

  /** A date between the bounds is between zero and the span days from the start. */
  lemma DayOffsetBounds(e: CalendarDate, d: CalendarDate, l: CalendarDate)
    requires NotAfter(e, d) && NotAfter(d, l)
    ensures 0 <= DayNumber(d) - DayNumber(e) <= DateRange(e, l)
  {
    DayNumberOrder(e, d);
    DayNumberOrder(d, l);
  }

  /** Distinct bounds span their exact day difference. */
  lemma DistinctSpan(e: CalendarDate, l: CalendarDate)
    requires NotAfter(e, l) && e != l
    ensures DateRange(e, l) == DayNumber(l) - DayNumber(e) > 0
  {
    DayNumberOrder(e, l);
  }

  lemma XOnAxis(e: CalendarDate, d: CalendarDate, l: CalendarDate)
    requires 0 <= DayNumber(d) - DayNumber(e) <= DateRange(e, l)
    ensures TimelineStartX as real <= XPos(d, e, DateRange(e, l)) <= (TimelineStartX + TimelineWidth) as real
  {
    AxisPoint(DayNumber(d) - DayNumber(e), DateRange(e, l));
  }

  /** Every date between the bounds lands on the axis. */
  lemma XWithinAxis(ds: seq<CalendarDate>, d: CalendarDate)
    requires d in ds
    ensures var e, l := Earliest(ds), Latest(ds);
      TimelineStartX as real <= XPos(d, e, Span(ds)) <= (TimelineStartX + TimelineWidth) as real
  {
    var e, l := Earliest(ds), Latest(ds);
    DayOffsetBounds(e, d, l);
    XOnAxis(e, d, l);
  }

  /** Every month separator is drawn on the axis, between x 200 and x 1150. */
  lemma MarkersOnAxis(ds: seq<CalendarDate>, mk: Marker)
    requires ds != [] && mk in MarkersOf(ds)
    ensures TimelineStartX as real <= MarkerX(mk, Earliest(ds), Span(ds)) <= (TimelineStartX + TimelineWidth) as real
  {
    MarkerDatesIn(ds);
    XWithinAxis(ds, mk.date);
  }


  /** With distinct bounds the earliest date sits at the left end and the latest at the
      right end of the axis. */
  lemma AxisEnds(ds: seq<CalendarDate>)
    requires ds != [] && Earliest(ds) != Latest(ds)
    ensures var e, l := Earliest(ds), Latest(ds);
      XPos(e, e, Span(ds)) == TimelineStartX as real &&
      XPos(l, e, Span(ds)) == (TimelineStartX + TimelineWidth) as real
  {
    var e, l := Earliest(ds), Latest(ds);
    DistinctSpan(e, l);
    AxisEndPoints(DateRange(e, l));
  }

  /** A single dated event: both bounds are its date and the span falls back to one
      day, so the axis never has zero width. */
  lemma SingleDate(d: CalendarDate)
    ensures Earliest([d]) == Latest([d]) == d && DateRange(d, d) == 1
    ensures XPos(d, d, 1) == TimelineStartX as real
  {
  }

  /** Everything drawn for an event stays on the canvas, below the header and above
      the footer band: the mark within x 184..1166 and y 110..566. */
  lemma ItemsOnCanvas(events: seq<Event>, it: Item)
    requires var ds := DatesOf(DisplayEvents(events));
      ds != [] && it in ItemsOf(DisplayEvents(events))
    ensures var ds := DatesOf(DisplayEvents(events));
      var e, l := Earliest(ds), Latest(ds);
      var x := ItemX(it, e, Span(ds));
      0.0 <= x - HalfWidth(it) as real && x + HalfWidth(it) as real <= Width as real
    ensures ChartStartY <= ItemY(it) + 10 && ItemY(it) + 26 <= Height - 40
  {
    var display := DisplayEvents(events);
    var ds := DatesOf(display);
    ItemsAreEvents(display);
    DatesOfMembers(display);
    XWithinAxis(ds, it.date);
  }

  /** Rows are assigned by position and wrap after twelve; only the first twelve
      events are shown, so within one image no two items share a row. */
  lemma {:induction false} RowsDistinct(events: seq<Event>, a: Item, b: Item)
    requires a in ItemsOf(DisplayEvents(events)) && b in ItemsOf(DisplayEvents(events)) && a != b
    ensures ItemY(a) != ItemY(b)
  {
    var display := DisplayEvents(events);
    ItemsAreEvents(display);
    var i, j := a.index, b.index;
    assert a == ItemFor(i, display[i]) && b == ItemFor(j, display[j]);
    assert i != j;
    RowsOfFirstTwelve(i, j);
  }

  /** Within the first twelve indices every row is its own. */
  lemma RowsOfFirstTwelve(i: nat, j: nat)
    requires i < MaxDisplay && j < MaxDisplay && i != j
    ensures RowY(i) != RowY(j)
  {
    Geometry();
    assert i % MaxRows == i && j % MaxRows == j;
  }
}
