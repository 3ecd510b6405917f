/** What `generate_html` does with the upcoming list before rendering: the two
    sections of the page (`is_japan` and not), and the list handed to the image. */
module Pages {
  import opened Text
  import opened Dates
  import opened Events
  import Upcoming
  import Timeline

  /** `[e for e in events if e.is_japan == domestic]`, order kept. */
  function Section(s: seq<Event>, domestic: bool): (r: seq<Event>)
    ensures |r| <= |s|
    ensures forall e :: e in r <==> e in s && e.isJapan == domestic
  {
    if s == [] then []
    else
      var prefix := s[..|s| - 1];
      var e := s[|s| - 1];
      assert s == prefix + [e];
      Section(prefix, domestic) + (if e.isJapan == domestic then [e] else [])
  }

  /** `japan_events`. */
  function JapanEvents(s: seq<Event>): seq<Event> {
    Section(s, true)
  }

  /** `international_events`. */
  function InternationalEvents(s: seq<Event>): seq<Event> {
    Section(s, false)
  }

  /** The two sections together hold every event exactly once, so the two counts the
      generator reports add up to the total. */
  lemma {:induction false} SectionsPartition(s: seq<Event>)
    ensures multiset(JapanEvents(s)) + multiset(InternationalEvents(s)) == multiset(s)
    ensures |JapanEvents(s)| + |InternationalEvents(s)| == |s|
  {
    if s != [] {
      var prefix := s[..|s| - 1];
      var e := s[|s| - 1];
      assert s == prefix + [e];
      SectionsPartition(prefix);
    }
    assert |multiset(JapanEvents(s))| + |multiset(InternationalEvents(s))| == |multiset(s)|;
  }

  /** A section of a date-sorted list is date-sorted. */
  lemma {:induction false} SectionSorted(s: seq<Event>, domestic: bool)
    requires Upcoming.Sorted(s)
    ensures Upcoming.Sorted(Section(s, domestic))
  {
    if s != [] {
      var prefix := s[..|s| - 1];
      var e := s[|s| - 1];
      assert Upcoming.Sorted(prefix);
      SectionSorted(prefix, domestic);
      var p := Section(prefix, domestic);
      if e.isJapan == domestic {
        var r := p + [e];
        forall i, j | 0 <= i < j < |r|
          ensures Upcoming.KeyLe(r[i].parsedDate, r[j].parsedDate)
        {
          if j == |p| {
            assert r[i] == p[i] && p[i] in prefix;
            var k :| 0 <= k < |prefix| && prefix[k] == p[i];
            assert s[k] == p[i] && s[|s| - 1] == e;
          } else {
            assert r[i] == p[i] && r[j] == p[j];
          }
        }
      }
    }
  }

  /** The dates of a date-sorted list are in order. */
  lemma {:induction false} SortedDates(s: seq<Event>)
    requires Upcoming.Sorted(s)
    ensures Timeline.DatesSorted(Timeline.DatesOf(s))
  {
    if s != [] {
      var n := |s| - 1;
      var prefix := s[..n];
      assert Upcoming.Sorted(prefix);
      SortedDates(prefix);
      Timeline.DatesOfStep(s, n);
      assert s[..n + 1] == s;
      if s[n].parsedDate.Some? {
        var d := s[n].parsedDate.value;
        var ds := Timeline.DatesOf(prefix);
        Timeline.DatesOfMembers(prefix);
        forall i | 0 <= i < |ds| ensures NotAfter(ds[i], d) {
          assert ds[i] in ds;
          var k :| 0 <= k < |prefix| && prefix[k].parsedDate == Some(ds[i]);
          assert s[k] == prefix[k];
          assert Upcoming.KeyLe(s[k].parsedDate, s[n].parsedDate);
        }
        var r := ds + [d];
        forall i, j | 0 <= i < j < |r| ensures NotAfter(r[i], r[j]) {
          if j < |ds| {
            assert r[i] == ds[i] && r[j] == ds[j];
          } else {
            assert r[i] == ds[i];
          }
        }
      }
    }
  }

  /** The image is drawn from the upcoming list, which is sorted by date, so its month
      markers name distinct months. */
  lemma ImageMarkersDistinct(upcoming: seq<Event>)
    requires Upcoming.Sorted(upcoming)
    ensures var m := Timeline.MarkersOf(Timeline.DatesOf(Timeline.DisplayEvents(upcoming)));
      forall i, j :: 0 <= i < j < |m| ==> m[i].month != m[j].month
  {
    var display := Timeline.DisplayEvents(upcoming);
    assert Upcoming.Sorted(display) by {
      forall i, j | 0 <= i < j < |display|
        ensures Upcoming.KeyLe(display[i].parsedDate, display[j].parsedDate)
      {
        assert display[i] == upcoming[i] && display[j] == upcoming[j];
      }
    }
    SortedDates(display);
    Timeline.SortedMarkersDistinct(Timeline.DatesOf(display));
  }
}
