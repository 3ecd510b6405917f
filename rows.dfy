/** `parse_events`: one pass over the spreadsheet rows that drops year-header rows
    and incomplete rows, completes month/day fragments with the year in force, and
    builds an `Event` for every remaining row, in input order. */
module Rows {
  import opened Text
  import opened Dates
  import opened Events
  import Seqs

  /** A CSV row as `csv.DictReader` yields it: column name to cell. A row shorter
      than the header has `None` cells (the reader's `restval`). */
  type RawRow = map<string, Option<string>>

  const NameColumn: string := "名称"
  const LocationColumn: string := "場所"
  const RegionColumn: string := "地域"
  const FromColumn: string := "から"
  const ToColumn: string := "まで"
  const UrlColumn: string := "URL"
  const NoteColumn: string := "備考"

  /** `raw.get(column, '').strip()`; None when the cell is `None`, on which `.strip()`
      raises and the row is abandoned by the loop's `except`. */
  function Cell(row: RawRow, column: string): (r: Option<string>)
    ensures column !in row ==> r == Some("")
    ensures column in row && row[column].None? ==> r.None?
    ensures column in row && row[column].Some? ==> r == Some(Strip(row[column].value))
    ensures r.Some? ==> Strip(r.value) == r.value
  {
    if column !in row then Some("")
    else match row[column]
      case None => None
      case Some(v) => StripIdempotent(v); Some(Strip(v))
  }

  /** The seven stripped cells of one row. */
  datatype Fields = Fields(name: string, location: string, region: string,
                           dateFrom: string, dateTo: string, url: string, description: string)

  /** Every one of the seven cells reads without raising. */
  predicate Readable(row: RawRow) {
    Cell(row, NameColumn).Some? && Cell(row, LocationColumn).Some? && Cell(row, RegionColumn).Some? &&
    Cell(row, FromColumn).Some? && Cell(row, ToColumn).Some? && Cell(row, UrlColumn).Some? &&
    Cell(row, NoteColumn).Some?
  }

  function ReadFields(row: RawRow): Option<Fields> {
    if Readable(row) then
      Some(Fields(Cell(row, NameColumn).value, Cell(row, LocationColumn).value, Cell(row, RegionColumn).value,
                  Cell(row, FromColumn).value, Cell(row, ToColumn).value, Cell(row, UrlColumn).value,
                  Cell(row, NoteColumn).value))
    else None
  }

  const YearMark: char := '年'

  /** A year-header row: the name ends in 年 and there is neither a location nor a
      start date. */
  predicate IsHeader(f: Fields) {
    f.name != [] && f.name[|f.name| - 1] == YearMark && f.location == "" && f.dateFrom == ""
  }

  /** `int(name.replace('年', ''))`, None when `int` raises. */
  function HeaderYear(f: Fields): Option<int> {
    ParseInt(RemoveAll(f.name, YearMark))
  }

  /** A name of digits followed by 年 carries the year those digits spell, and with
      no location and no start date the row is a header. */
  lemma HeaderYearOfName(digits: string, f: Fields)
    requires digits != [] && AllDigits(digits) && f.name == digits + [YearMark]
    ensures HeaderYear(f) == Some(DigitsValue(digits))
    ensures IsHeader(f) <==> f.location == "" && f.dateFrom == ""
  {
    assert YearMark !in digits by {
      assert forall k :: 0 <= k < |digits| ==> IsDigit(digits[k]);
    }
    RemoveAllSnoc(digits, YearMark);
    ParseIntDigits(digits);
  }

  /** `2025年` above an event row sets the year to 2025. */
  lemma HeaderYearExample()
    ensures HeaderYear(Fields("2025年", "", "", "", "", "", "")) == Some(2025)
  {
    assert "2025年" == "2025" + [YearMark];
    assert DigitsValue("2") == 2;
    assert DigitsValue("20") == 20 by { assert "20"[..1] == "2"; }
    assert DigitsValue("202") == 202 by { assert "202"[..2] == "20"; }
    assert DigitsValue("2025") == 2025 by { assert "2025"[..3] == "202"; }
    HeaderYearOfName("2025", Fields("2025年", "", "", "", "", "", ""));
  }

  /** The source's test for a fragment that already carries its year:
      `'/' in s and len(s.split('/')) >= 3`. */
  predicate HasYear(frag: string) {
    '/' in frag && |Split(frag, '/')| >= 3
  }

  lemma {:induction false} CountMeansIn(s: string, c: char)
    ensures Count(s, c) > 0 <==> c in s
  {
    if s != [] {
      CountMeansIn(s[1..], c);
      assert s == [s[0]] + s[1..];
    }
  }

  /** The test amounts to "at least two slashes". */
  lemma HasYearSlashes(frag: string)
    ensures HasYear(frag) <==> Count(frag, '/') >= 2
  {
    CountMeansIn(frag, '/');
  }

  /** Date completion: empty stays empty, `Y/M/D` is kept verbatim, anything else gets
      `"{year}/"` in front. */
  function CompleteDate(frag: string, year: int): (r: string)
    ensures frag == "" <==> r == ""
    ensures HasYear(frag) ==> r == frag
    ensures frag != "" && !HasYear(frag) ==> r == IntToString(year) + "/" + frag
  {
    if frag == "" then ""
    else if HasYear(frag) then frag
    else IntToString(year) + "/" + frag
  }

  /** A fragment that already has its year parses the same whatever the year in force. */
  lemma CompleteFullDate(frag: string, y1: int, y2: int)
    requires Count(frag, '/') >= 2
    ensures CompleteDate(frag, y1) == CompleteDate(frag, y2) == frag
  {
    HasYearSlashes(frag);
  }

  /** Two digit runs joined by one slash split back into the two runs. */
  lemma MonthDayPieces(m: string, d: string)
    requires AllDigits(m) && AllDigits(d)
    ensures '/' !in m && '/' !in d
    ensures Split(m + "/" + d, '/') == [m, d] && !HasYear(m + "/" + d)
  {
    assert '/' !in m && '/' !in d by {
      assert forall k :: 0 <= k < |m| ==> IsDigit(m[k]);
      assert forall k :: 0 <= k < |d| ==> IsDigit(d[k]);
    }
    assert m + "/" + d == m + ['/'] + d;
    SplitCons(m, '/', d);
    SplitNone(d, '/');
  }

  /** A `M/D` fragment of two digit runs (leading zeros allowed) completed under year
      `y` names that day of year `y`. */
  lemma CompleteMonthDay(y: int, m: string, d: string)
    requires m != [] && d != [] && AllDigits(m) && AllDigits(d)
    requires Valid(Date(y, DigitsValue(m), DigitsValue(d)))
    ensures ParseDate(CompleteDate(m + "/" + d, y)) == Some(Date(y, DigitsValue(m), DigitsValue(d)))
  {
    var frag := m + "/" + d;
    MonthDayPieces(m, d);
    var ys := NatToString(y);
    assert '/' !in ys by {
      assert forall k :: 0 <= k < |ys| ==> IsDigit(ys[k]);
    }
    var s := CompleteDate(frag, y);
    assert s == ys + ['/'] + frag;
    SplitCons(ys, '/', frag);
    assert Split(s, '/') == [ys, m, d];
    NatToStringParses(y);
  }

  /** `08/02` under 2025 is the second of August 2025. */
  lemma CompleteMonthDayExample()
    ensures ParseDate(CompleteDate("08/02", 2025)) == Some(Date(2025, 8, 2))
  {
    assert "08/02" == "08" + "/" + "02";
    assert DigitsValue("08") == 8 && DigitsValue("02") == 2;
    CompleteMonthDay(2025, "08", "02");
  }

  /** `f"{location}, {region}" if region else location`. */
  function FullLocation(location: string, region: string): (r: string)
    ensures StartsWith(r, location)
    ensures region == "" ==> r == location
    ensures region != "" ==> r == location + ", " + region
  {
    if region != "" then location + ", " + region else location
  }

  /** The `Event` built for a data row under the year `year`. */
  function BuildEvent(f: Fields, year: int, mapping: map<string, string>): (e: Event)
    ensures e.name == f.name && e.location == FullLocation(f.location, f.region)
    ensures StartsWith(e.location, f.location)
    ensures e.country == RegionCountry(f.region, mapping) && e.isJapan == IsJapanCountry(e.country)
    ensures e.date == e.dateFrom == CompleteDate(f.dateFrom, year)
    ensures e.dateTo == CompleteDate(f.dateTo, year)
    ensures e.parsedDate == e.parsedDateFrom == ParseOptional(e.dateFrom)
    ensures e.parsedDateTo == ParseOptional(e.dateTo)
    ensures e.url == f.url && e.description == f.description && e.imageUrl == ""
  {
    var from := CompleteDate(f.dateFrom, year);
    NewEvent(f.name, from, FullLocation(f.location, f.region), RegionCountry(f.region, mapping),
             f.description, f.url, "", from, CompleteDate(f.dateTo, year))
  }

  /** The parser's state between rows: the year in force (None before any) and the
      events built so far. */
  datatype ParseState = ParseState(year: Option<int>, events: seq<Event>)

  /** One iteration of the loop body. */
  function Step(st: ParseState, row: RawRow, mapping: map<string, string>, nowYear: int): ParseState {
    match ReadFields(row)
    case None => st
    case Some(f) =>
      if IsHeader(f) then
        match HeaderYear(f)
        case Some(y) => st.(year := Some(y))
        case None => st
      else if f.name == "" || f.location == "" then st
      else
        var y := if st.year.Some? then st.year.value else nowYear;
        ParseState(Some(y), st.events + [BuildEvent(f, y, mapping)])
  }

  /** The state after the loop has seen `rows`. */
  function Run(rows: seq<RawRow>, mapping: map<string, string>, nowYear: int): ParseState {
    if rows == [] then ParseState(None, [])
    else Step(Run(rows[..|rows| - 1], mapping, nowYear), rows[|rows| - 1], mapping, nowYear)
  }

  /** `parse_events(raw_events)`. The country mapping that the source reads from its
      mapping file at the start, and the current year, are passed in; each event is
      built inside the loop (`BuildEvent`), and a row whose cells cannot be read is
      skipped, as the loop's exception handler does. */
  method ParseEvents(rows: seq<RawRow>, mapping: map<string, string>, nowYear: int)
    returns (events: seq<Event>)
    ensures events == Run(rows, mapping, nowYear).events
    ensures events == Reference(rows, mapping, nowYear)
    ensures |events| == DataCount(rows)
  {
    events := [];
    var currentYear: Option<int> := None;
    var i := 0;
    while i < |rows|
      invariant 0 <= i <= |rows|
      invariant ParseState(currentYear, events) == Run(rows[..i], mapping, nowYear)
    {
      Seqs.TakeOneMore(rows, i);
      var raw := rows[i];
      var fields := ReadFields(raw);
      i := i + 1;
      if fields.None? {
        continue;
      }
      var f := fields.value;
      if IsHeader(f) {
        var y := HeaderYear(f);
        if y.Some? {
          currentYear := y;
        }
        continue;
      }
      if f.name == "" || f.location == "" {
        continue;
      }
      if currentYear.None? {
        currentYear := Some(nowYear);
      }
      events := events + [BuildEvent(f, currentYear.value, mapping)];
    }
    assert rows[..|rows|] == rows;
    RunMatchesReference(rows, mapping, nowYear);
    ReferenceCount(rows, mapping, nowYear);
  }

  // ----- A declarative account of the same pass -----

  /** The year announced by a row, if it is a header whose year `int` accepts. */
  function RowHeaderYear(row: RawRow): Option<int> {
    match ReadFields(row)
    case Some(f) => if IsHeader(f) then HeaderYear(f) else None
    case None => None
  }

  /** A row that yields an event. */
  predicate IsDataRow(row: RawRow) {
    match ReadFields(row)
    case Some(f) => !IsHeader(f) && f.name != "" && f.location != ""
    case None => false
  }

  /** The year of the nearest preceding header that carried one. */
  function LastHeaderYear(rows: seq<RawRow>): Option<int> {
    if rows == [] then None
    else if RowHeaderYear(rows[|rows| - 1]).Some? then RowHeaderYear(rows[|rows| - 1])
    else LastHeaderYear(rows[..|rows| - 1])
  }

  /** The year a data row right after `prefix` is completed with. */
  function ContextYear(prefix: seq<RawRow>, nowYear: int): int {
    match LastHeaderYear(prefix)
    case Some(y) => y
    case None => nowYear
  }

  function DataCount(rows: seq<RawRow>): nat {
    if rows == [] then 0
    else DataCount(rows[..|rows| - 1]) + (if IsDataRow(rows[|rows| - 1]) then 1 else 0)
  }

  /** One event per data row, in row order, each completed with the year of the
      nearest preceding header (the current year when there is none). */
  function Reference(rows: seq<RawRow>, mapping: map<string, string>, nowYear: int): seq<Event> {
    if rows == [] then []
    else
      var prefix := rows[..|rows| - 1];
      var last := rows[|rows| - 1];
      Reference(prefix, mapping, nowYear) +
        (if IsDataRow(last) then [BuildEvent(ReadFields(last).value, ContextYear(prefix, nowYear), mapping)] else [])
  }

  /** The year every branch of one iteration in declarative terms: a header's year
      replaces it, a data row fixes the current year when none was set yet, and any other
      row leaves it alone. */
  lemma StepYear(st: ParseState, row: RawRow, mapping: map<string, string>, nowYear: int)
    ensures Step(st, row, mapping, nowYear).year ==
      if RowHeaderYear(row).Some? then RowHeaderYear(row)
      else if IsDataRow(row) then Some(if st.year.Some? then st.year.value else nowYear)
      else st.year
  {
  }

  /** The events of one iteration in declarative terms: a data row appends its event,
      any other row appends nothing. */
  lemma StepEvents(st: ParseState, row: RawRow, mapping: map<string, string>, nowYear: int)
    ensures Step(st, row, mapping, nowYear).events == st.events +
      if IsDataRow(row) then [BuildEvent(ReadFields(row).value, if st.year.Some? then st.year.value else nowYear, mapping)]
      else []
  {
  }

  /** The year the loop holds, or the current year before it holds one, is the
      context year. */
  lemma {:induction false} RunYear(rows: seq<RawRow>, mapping: map<string, string>, nowYear: int)
    ensures Run(rows, mapping, nowYear).year.None? ==> LastHeaderYear(rows).None?
    ensures Run(rows, mapping, nowYear).year.Some? ==>
      Run(rows, mapping, nowYear).year.value == ContextYear(rows, nowYear)
  {
    if rows != [] {
      var prefix := rows[..|rows| - 1];
      RunYear(prefix, mapping, nowYear);
      StepYear(Run(prefix, mapping, nowYear), rows[|rows| - 1], mapping, nowYear);
    }
  }

  /** The loop's state agrees with the declarative account: the same events. */
  lemma {:induction false} RunMatchesReference(rows: seq<RawRow>, mapping: map<string, string>, nowYear: int)
    ensures Run(rows, mapping, nowYear).events == Reference(rows, mapping, nowYear)
  {
    if rows != [] {
      var prefix := rows[..|rows| - 1];
      RunMatchesReference(prefix, mapping, nowYear);
      RunYear(prefix, mapping, nowYear);
      StepEvents(Run(prefix, mapping, nowYear), rows[|rows| - 1], mapping, nowYear);
    }
  }

  /** Exactly one event per data row. */
  lemma {:induction false} ReferenceCount(rows: seq<RawRow>, mapping: map<string, string>, nowYear: int)
    ensures |Reference(rows, mapping, nowYear)| == DataCount(rows)
  {
    if rows != [] {
      ReferenceCount(rows[..|rows| - 1], mapping, nowYear);
    }
  }

  /** Later rows never change the events of earlier ones. */
  lemma {:induction false} ReferencePrefix(p: seq<RawRow>, q: seq<RawRow>, mapping: map<string, string>, nowYear: int)
    ensures Reference(p, mapping, nowYear) <= Reference(p + q, mapping, nowYear)
    decreases |q|
  {
    if q == [] {
      Seqs.AppendNil(p);
    } else {
      var front := q[..|q| - 1];
      Seqs.DropLastOfAppend(p, q);
      ReferencePrefix(p, front, mapping, nowYear);
    }
  }

  /** The data row at position `i` yields the event at position "number of data rows
      before it", built with the year in force at `i`. */
  lemma ReferenceAt(rows: seq<RawRow>, i: nat, mapping: map<string, string>, nowYear: int)
    requires i < |rows| && IsDataRow(rows[i])
    ensures DataCount(rows[..i]) < |Reference(rows, mapping, nowYear)|
    ensures Reference(rows, mapping, nowYear)[DataCount(rows[..i])] ==
      BuildEvent(ReadFields(rows[i]).value, ContextYear(rows[..i], nowYear), mapping)
  {
    var p := rows[..i];
    var q := rows[i + 1..];
    var e := BuildEvent(ReadFields(rows[i]).value, ContextYear(p, nowYear), mapping);
    ReferenceSnoc(p, rows[i], mapping, nowYear);
    ReferencePrefix(p + [rows[i]], q, mapping, nowYear);
    Seqs.SplitAt(rows, i);
    Seqs.PrefixAt(Reference(p, mapping, nowYear), e, Reference(rows, mapping, nowYear));
    ReferenceCount(p, mapping, nowYear);
  }

  /** A data row appends one event to those of the rows before it. */
  lemma ReferenceSnoc(p: seq<RawRow>, r: RawRow, mapping: map<string, string>, nowYear: int)
    requires IsDataRow(r)
    ensures Reference(p + [r], mapping, nowYear) ==
      Reference(p, mapping, nowYear) + [BuildEvent(ReadFields(r).value, ContextYear(p, nowYear), mapping)]
  {
    Seqs.DropLastOfSnoc(p, r);
  }

  /** The nearest header wins: headers in `q` override those in `p`. */
  lemma {:induction false} LastHeaderYearAppend(p: seq<RawRow>, q: seq<RawRow>)
    ensures LastHeaderYear(p + q) == if LastHeaderYear(q).Some? then LastHeaderYear(q) else LastHeaderYear(p)
  {
    if q == [] {
      Seqs.AppendNil(p);
    } else {
      Seqs.DropLastOfAppend(p, q);
      LastHeaderYearAppend(p, q[..|q| - 1]);
    }
  }

  /** A header whose year parses governs every later row until the next such header,
      and yields no event itself. */
  lemma HeaderGoverns(p: seq<RawRow>, h: RawRow, q: seq<RawRow>, y: int, mapping: map<string, string>, nowYear: int)
    requires RowHeaderYear(h) == Some(y)
    requires LastHeaderYear(q).None?
    ensures ContextYear(p + [h] + q, nowYear) == y
    ensures !IsDataRow(h)
    ensures Reference(p + [h], mapping, nowYear) == Reference(p, mapping, nowYear)
  {
    LastHeaderYearAppend(p + [h], q);
    Seqs.DropLastOfSnoc(p, h);
  }

  /** A header whose year does not parse, or any other row that is not a data row,
      yields nothing and leaves the year in force unchanged. */
  lemma NonHeaderKeepsYear(p: seq<RawRow>, r: RawRow, mapping: map<string, string>, nowYear: int)
    requires RowHeaderYear(r).None? && !IsDataRow(r)
    ensures ContextYear(p + [r], nowYear) == ContextYear(p, nowYear)
    ensures Reference(p + [r], mapping, nowYear) == Reference(p, mapping, nowYear)
  {
    Seqs.DropLastOfSnoc(p, r);
  }

}
