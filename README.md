# Maker-event page generator: a Dafny model of its core

`generate_events.py` builds a static page listing upcoming maker events. It downloads a
Google Sheets CSV and turns each row into an `Event`. Year-header rows such as `2025年`
give the year to month/day dates, and the country comes from the bracketed part of the
region column. It keeps the events that have not ended and start within a window, sorts
them by date, draws a timeline image for social previews, formats each event's date in
Japanese or English, and splits the list into domestic and international sections. A
content hash and a twelve-hour rule decide whether anything is regenerated at all.

This project models that core in Dafny, one module per concern:

| module | file | what it holds |
|---|---|---|
| `Text` | `text.dfy` | `str.strip`, `lower`, `split`/`join`, `int()` and `%d` / `%02d` formatting on `seq<char>` |
| `Dates` | `dates.dfy` | proleptic Gregorian dates, the day ordinal, and the `Y/M/D` form of `dateutil.parser.parse` the sheet uses |
| `Events` | `events.dfy` | the `Event` record and `model_post_init`, `extract_country_from_region`, `is_japan` |
| `Rows` | `rows.dfy` | `parse_events`: a loop method, the recursive function it computes, and a row-by-row reference definition |
| `Upcoming` | `upcoming.dfy` | `filter_upcoming_events`: the date window, image enrichment, and the stable sort by date |
| `Timeline` | `timeline.dfy` | the geometry of `create_ogp_image`: the axis, month separators, event marks, truncated names and date labels |
| `DateText` | `datetext.dfy` | `format_event_date` |
| `ChangeGate` | `changegate.dfy` | `get_spreadsheet_csv_url`, and the decision of `has_spreadsheet_changed` plus `should_update_page` |
| `Pages` | `pages.dfy` | the domestic/international split in `generate_html` and `main`, and how it interacts with sorting and the image |

Loops that build lists (`parse_events`, `filter_upcoming_events`, the two passes in
`create_ogp_image`) are methods with `while` loops. Each one is proved equal to a
recursive specification function, and the lemmas are stated about those functions. An
`Event` is a value. `fetch_event_image` changing `image_url` in place is modelled as
replacing the event with a copy that differs only in that field.

Some behaviour of the code is easy to misread:

- A multi-day event is drawn as a pill of fixed width, 16 px either side of its start
  position. It is not a bar reaching to the end date.
- Both `format_event_date` and the image's date label decide "same month" on `.month`
  alone. A range from 2025-12-30 to 2026-12-02 is therefore printed as `2025年12月30日〜02日`
  (`DateText.FormatExampleSameMonthNextYear`).
- In `create_ogp_image` the test `if earliest_date and latest_date` is always true.
  When no displayed event has a date, `min()` raises and no image is produced. The model
  makes this the `NoDatedEvent` layout.
- `model_post_init` sets `parsed_date` from `date_from` when `date` fails to parse. An
  event from `parse_events` always has `date == date_from`, so its `parsed_date` equals
  its `parsed_date_from`.

## Model

| member | source | states |
|---|---|---|
| Text.StripSlice | generate_events.py:635-641 | `Strip`, the `str.strip()` of every cell, removes exactly a whitespace prefix and a whitespace suffix: the result is a slice of the input with no whitespace at either end |
| Text.StripIdempotent | generate_events.py:635-641 | stripping a stripped cell changes nothing |
| Text.JoinSplit | generate_events.py:669 | joining the pieces of `split('/')` with '/' gives back the string |
| Text.NatToStringParses | generate_events.py:647 | reading back the decimal text of a natural gives the number |
| Text.ParseIntOfIntToString | generate_events.py:647 | `int(str(n))` is `n` for every integer, negatives included |
| Text.ParseIntDigits | generate_events.py:647 | `ParseInt`, the model of `int()`, reads a non-empty digit run, leading zeros allowed, as its decimal value |
| Text.ParseIntNegative | generate_events.py:647 | a minus sign before a digit run gives the negated value |
| Text.ParseIntPadded | generate_events.py:647 | whitespace before a digit run, after it, or both, in independent amounts, does not change what `int()` reads (so `int("2025 ")` from the header `2025 年` reads 2025) |
| Text.ParseIntOfStrip | generate_events.py:647 | `int()` depends only on the stripped text |
| Text.RemoveAllSnoc | generate_events.py:647 | `replace('年', '')` on a name whose only 年 is the last character drops just that character |
| Text.Pad2Parses | generate_events.py:590-599 | `%02d` of a number below 100 is two digits that read back to the number |
| Dates.DayNumberOrder | generate_events.py:740 | comparing datetimes is comparing day ordinals: earlier iff smaller ordinal, equal iff equal ordinals |
| Dates.DayNumberInYear | generate_events.py:485 | a date's ordinal lies strictly after the days of the earlier years and within its own year |
| Dates.ParseDate | generate_events.py:51 | a date parses only from text with exactly two slashes, and only to a valid calendar date |
| Dates.ParseFormatYMD | generate_events.py:674 | every valid date written as `Y/M/D` parses back to itself |
| Events.NewEvent | generate_events.py:47-71 | the stored fields are the arguments; `is_japan` iff the lowered country is japan/日本/jp; `parsed_date_from` is the parse of `date_from` and `parsed_date_to` the parse of `date_to` (None when empty or unparsable); `parsed_date` is the parse of `date` when that succeeds and otherwise `parsed_date_from`, so it is set iff one of the two parses |
| Events.JapanCountries | generate_events.py:71 | Japan in any letter case, JP/jp and 日本 are domestic; USA, France and the empty name are not |
| Events.ExtractCountryDefault | generate_events.py:95-102 | `ExtractCountry`: with no `(…)` group anywhere in the region the country is "Japan" |
| Events.ExtractCountryGroup | generate_events.py:95-99 | `ExtractCountry`: with a leftmost `(…)` group, the country is the mapping's value for the text between the brackets, or that text itself when it is unmapped |
| Events.RegionCountry | generate_events.py:690 | an empty region gives "Japan"; any other region goes through the bracket rule |
| Events.CountryExamples | generate_events.py:86-102 | パリ(フランス) gives France through the mapping, 東京都 gives Japan, 台北(台湾) gives the unmapped 台湾, and an empty group `()` gives Japan |
| Rows.Cell | generate_events.py:635-641 | a missing column reads as "" (the `get` default); a `None` cell makes the row unreadable (`.strip()` raises); any other cell reads as its stripped text |
| Rows.HeaderYearOfName | generate_events.py:644-647 | `HeaderYear` of a name made of digits followed by 年 is the number those digits spell; `IsHeader` holds for such a name iff the location and the start date are empty |
| Rows.HeaderYearExample | generate_events.py:644-647 | the header `2025年` gives the year 2025 |
| Rows.HasYearSlashes | generate_events.py:669 | the "already has a year" test (`'/' in s` and at least three `split('/')` parts) holds iff the text has at least two slashes |
| Rows.CompleteDate | generate_events.py:667-684 | empty stays empty; a fragment with a year is kept as it is; any other fragment becomes `year/fragment` |
| Rows.CompleteFullDate | generate_events.py:669-671 | a fragment with two slashes is the same whatever the year in force |
| Rows.CompleteMonthDay | generate_events.py:667-684 | a `M/D` fragment of two digit runs (leading zeros allowed, as in `08/02`) completed with the year in force parses to that day of that year |
| Rows.CompleteMonthDayExample | generate_events.py:667-684 | `08/02` under 2025 is 2025-08-02 |
| Rows.FullLocation | generate_events.py:687 | the location is the place when the region is empty, and the place, ", " and the region otherwise |
| Rows.BuildEvent | generate_events.py:686-708 | the event's name, url and description are the row's; its location is `FullLocation` of place and region; its country is the region's country and `is_japan` follows it; `date` and `date_from` are the completed start; `date_to` is the completed end; the image URL is empty; `parsed_date` equals `parsed_date_from` |
| Rows.ParseEvents | generate_events.py:624-715 | the loop returns the row-by-row reference list: one event per data row, in row order, built with the year in force at that row |
| Rows.StepYear | generate_events.py:644-659 | one row moves the carried year: a header sets it, a data row read while it is unset fixes the current year, any other row leaves it |
| Rows.StepEvents | generate_events.py:654-709 | one row adds exactly one event when it is a data row, built with the carried year or the current year, and none otherwise |
| Rows.RunMatchesReference | generate_events.py:632-709 | the recursive run and the row-by-row reference produce the same events |
| Rows.RunYear | generate_events.py:644-659 | while the carried year is unset no header year has been read; once set it is the last header year above, or the current year when there is none |
| Rows.ReferenceCount | generate_events.py:654-655 | the number of events equals the number of rows whose cells all read and that have a name and a place |
| Rows.ReferencePrefix | generate_events.py:632 | the events of a prefix of the rows are a prefix of the events |
| Rows.ReferenceAt | generate_events.py:644-709 | the k-th data row produces the k-th event, built with the year of the last header above it, or the current year when there is none |
| Rows.LastHeaderYearAppend | generate_events.py:644-647 | the year in force after two blocks of rows is the second block's last header year, else the first's |
| Rows.HeaderGoverns | generate_events.py:644-651 | a header row yields no event, and its year applies to every later row until the next header |
| Rows.NonHeaderKeepsYear | generate_events.py:644-655 | a row that is neither a header nor data yields no event and leaves the year alone |
| Upcoming.UpcomingByDay | generate_events.py:726-741 | `IsUpcoming`, the window test, holds iff the effective end is today or later and the effective start is at most `days_ahead` days after today, counted in whole days |
| Upcoming.UpcomingNotEnded | generate_events.py:736-740 | a selected event has not ended before today |
| Upcoming.WindowExamples | generate_events.py:733-741 | an event still running today is kept; one that ended two days ago is not; one starting beyond the window is not |
| Upcoming.Select | generate_events.py:733-741 | an event is selected iff it is among the input and passes the window test |
| Upcoming.SelectCounts | generate_events.py:733-741 | every copy of an upcoming event is kept and no copy of any other |
| Upcoming.SelectAppend | generate_events.py:733-741 | selection keeps the input order: selecting from two lists one after the other is selecting from each and concatenating |
| Upcoming.Enrich | generate_events.py:718-723 | only the image URL can change; an event with no url or with an image keeps it; any other event gets the lookup of its url |
| Upcoming.EnrichAll | generate_events.py:744-758 | every selected event is enriched on its own, at its own position |
| Upcoming.EnrichKeepsUpcoming | generate_events.py:744-763 | enrichment changes neither the window test nor the sort key |
| Upcoming.EnrichIdempotent | generate_events.py:720 | when the lookup finds an image, enriching again changes nothing |
| Upcoming.KeyLeTotal | generate_events.py:763 | the sort key order is total and reflexive, with a missing date sorting as `datetime.max` |
| Upcoming.KeyLeTransitive | generate_events.py:763 | the sort key order is transitive |
| Upcoming.InsertSorted | generate_events.py:763 | inserting into a sorted list keeps it sorted |
| Upcoming.SortByDate | generate_events.py:763 | the sorted list is a permutation of the input, in non-decreasing date order |
| Upcoming.SortStable | generate_events.py:763 | events with equal keys keep their input order |
| Upcoming.UndatedLast | generate_events.py:763 | in a sorted list every event after an undated one is undated |
| Upcoming.FilterUpcoming | generate_events.py:726-763 | the result is the window selection, enriched, stably sorted; it is sorted, contains only upcoming events, and contains the enriched form of every upcoming input event |
| Upcoming.SelectUpcoming | generate_events.py:733-741 | the selection loop returns exactly the events in the window, in input order (the reference `Select`) |
| Upcoming.FetchImages | generate_events.py:742-761 | after the image fetches, each kept event that has a page and no image carries the looked-up image and every other event and field is as before (the reference `EnrichAll`) |
| Upcoming.FilteredAreUpcoming | generate_events.py:733-763 | every event of the filtered, enriched and sorted list is upcoming |
| Upcoming.FilteredKeepsUpcoming | generate_events.py:733-763 | every upcoming input event appears, after its image lookup, in the filtered list |
| Upcoming.FilterUpcomingDefault | generate_events.py:726 | the call without a horizon uses 730 days and returns the same list as the explicit call |
| Timeline.Geometry | generate_events.py:464-491 | the chart starts at y 100, is 490 px tall with 12 rows, and the axis is 950 px wide |
| Timeline.DisplayEvents | generate_events.py:470 | the events drawn are the whole list when it has at most 12 events, and its first 12 otherwise |
| Timeline.DatesOfMembers | generate_events.py:481-482 | the dates the bounds are taken over are exactly those of the dated events; there are none iff no event is dated |
| Timeline.Earliest | generate_events.py:481 | the earliest date is one of the dates and not after any of them |
| Timeline.Latest | generate_events.py:482 | the latest date is one of the dates and not before any of them |
| Timeline.Span | generate_events.py:485-487 | the day span between the bounds, at least 1 |
| Timeline.SingleDate | generate_events.py:485-487 | one dated event: both bounds are its date, the span is 1, and it is drawn at the axis start |
| Timeline.RowY | generate_events.py:504 | an event's row lies between y 100 and y 540 |
| Timeline.MonthLabelInjective | generate_events.py:507 | two dates have the same `%Y-%m` text iff they share year and month |
| Timeline.MonthMarkers | generate_events.py:494-510 | the loop returns the separator list of the displayed dates, in display order |
| Timeline.MarkDate | generate_events.py:506-510 | one dated event adds a separator exactly when its month differs from the last one, and the current month becomes its month |
| Timeline.LastMonthTest | generate_events.py:507-510 | comparing the `%Y-%m` labels is comparing year and month |
| Timeline.MarkerDatesIn | generate_events.py:506-510 | every separator sits at one of the displayed dates |
| Timeline.MarkersFromDates | generate_events.py:494-510 | there is a separator iff there is a dated event; the last one carries the last date's month; each separator sits at one of the dates and carries its month |
| Timeline.MarkersChangeMonth | generate_events.py:508-510 | consecutive separators carry different months |
| Timeline.EveryMonthMarked | generate_events.py:506-510 | the month of every dated event has a separator |
| Timeline.SortedMarkersIncrease | generate_events.py:506-510 | on dates in order the separators' months strictly increase |
| Timeline.SortedMarkersDistinct | generate_events.py:506-510 | on dates in order no month gets two separators |
| Timeline.Truncate | generate_events.py:573-575 | a name is at most 25 characters: unchanged up to 25, else its first 22 followed by "..." |
| Timeline.DateLabelShape | generate_events.py:587-601 | `DateLabel` is "TBD" iff the event has no date; otherwise 5, 8 or 11 characters with '/' third; it starts with the start's MM/DD, and is the bare `parsed_date`'s MM/DD when there is no start; it is longer than 5 iff the event is a range; after the range's '-' come the end's DD (8 characters) or the end's MM/DD (11 characters) |
| Timeline.DateLabelExamples | generate_events.py:587-593 | 2025-08-02 to 08-03 is labelled `08/02-03` and 2025-08-31 to 09-01 `08/31-09/01` |
| Timeline.ItemsAreEvents | generate_events.py:526-545 | every mark belongs to the dated event at its index, at that event's date and row, a pill iff `IsPill` (an end date that differs from the start) |
| Timeline.EveryDatedEventPlaced | generate_events.py:526-545 | every dated displayed event gets its mark |
| Timeline.PlaceEvents | generate_events.py:526-545 | the loop returns one mark per dated displayed event, in display order |
| Timeline.LayoutTimeline | generate_events.py:464-545 | no events gives the empty-chart message; events with no date among the first 12 give no image; otherwise the bounds, span, separators and marks are those of the first 12 events, with at most 12 marks |
| Timeline.AxisPoint | generate_events.py:502-503 | `AxisX`, and so `XPos`, places a day offset within the span between x 200 and x 1150 |
| Timeline.AxisEndPoints | generate_events.py:503 | offset 0 is at x 200 and the full span at x 1150 |
| Timeline.XWithinAxis | generate_events.py:501-503 | every displayed date is placed on the axis |
| Timeline.MarkersOnAxis | generate_events.py:502-514 | every month separator is drawn at an x on the axis |
| Timeline.AxisEnds | generate_events.py:502-503 | with distinct bounds, the earliest date is at the axis start and the latest at its end |
| Timeline.ItemsOnCanvas | generate_events.py:530-569 | every mark, pill or dot, lies within the image's width and between the chart top and the footer band |
| Timeline.RowsDistinct | generate_events.py:530 | two different marks are in different rows |
| DateText.FormatEmpty | generate_events.py:766-796 | `FormatEventDate` is empty iff there is no start date |
| DateText.FormatSeparator | generate_events.py:773-796 | '〜' (Japanese) or '-' (English) appears iff the event is a range |
| DateText.FormatStartsWithStart | generate_events.py:773-779 | the text starts with the start date, in full in Japanese or as month and day in English; a single day is exactly that date's form |
| DateText.FormatRangeEndJapanese | generate_events.py:781-790 | a Japanese range is the start's full form, `〜`, then the end's own single-day form without its year, and within a month without its month too |
| DateText.FormatRangeEndEnglish | generate_events.py:781-796 | an English range is the start's month and day, then `-` and the end's single-day form without its month name within a month, or ` - ` and the end's full form across months |
| DateText.JaDayInjective | generate_events.py:777 | two dates with the same `%Y年%m月%d日` text are the same date |
| DateText.SingleDayTextIdentifiesDate | generate_events.py:775-777 | two domestic one-day events with the same text start on the same date |
| DateText.DayFormsHaveNoSeparator | generate_events.py:777-779 | neither single-day form contains a range separator |
| DateText.FormatExampleJapanese | generate_events.py:787 | 2025-08-02 to 2025-08-03 in Japan is `2025年08月02日〜03日` |
| DateText.FormatExampleEnglish | generate_events.py:796 | 2025-08-30 to 2025-09-01 abroad is `August 30 - September 01, 2025` |
| DateText.FormatExampleJapaneseAcrossMonths | generate_events.py:788-790 | 2025-08-31 to 2025-09-01 in Japan is `2025年08月31日〜09月01日` |
| DateText.FormatExampleEnglishSameMonth | generate_events.py:793-794 | 2025-08-02 to 2025-08-03 abroad is `August 02-03, 2025` |
| DateText.FormatExampleSingle | generate_events.py:779 | 2025-03-07 abroad is `March 07, 2025` |
| DateText.FormatExampleSameMonthNextYear | generate_events.py:785-787 | an end twelve months on is printed as if it fell in the start month |
| ChangeGate.FindId | generate_events.py:108 | the search returns the leftmost position where `/spreadsheets/d/` is followed by an identifier character, or reports that there is none |
| ChangeGate.CsvUrl | generate_events.py:105-111 | a URL without the Sheets host, or with no `/spreadsheets/d/<id>` match, is unchanged; otherwise the result is the export URL of the greedy identifier after the leftmost match |
| ChangeGate.CsvUrlOfSheetUrl | generate_events.py:107-110 | a URL of the form `https://docs.google.com/spreadsheets/d/<id><rest>` becomes the CSV export URL of `<id>` |
| ChangeGate.CsvUrlIdempotent | generate_events.py:105-111 | rewriting an export URL again changes nothing |
| ChangeGate.CsvUrlExample | generate_events.py:1128 | the configured edit URL becomes its sheet's export URL |
| ChangeGate.ShouldUpdate | generate_events.py:141-210 | the stored hash is the fetched one, or empty when the download failed |
| ChangeGate.SkipExactly | generate_events.py:162-206 | the page is skipped iff the download succeeded, the hash is the stored one, and the stored time is usable and less than twelve hours ago |
| ChangeGate.UpdateStaysDue | generate_events.py:198-203 | once an update is due, it stays due at any later time |
| ChangeGate.DecisionExamples | generate_events.py:162-206 | unchanged content after 13 h updates; after 1 h it skips; a failed download updates with an empty hash; changed content updates |
| Pages.Section | generate_events.py:1095-1096 | a section holds exactly the input's events of its kind |
| Pages.SectionsPartition | generate_events.py:1095-1096 | the two sections together are a permutation of the input, and their sizes add up to its size |
| Pages.SectionSorted | generate_events.py:1095-1096 | each section of a date-sorted list is date-sorted |
| Pages.SortedDates | generate_events.py:481-510 | the dates of a date-sorted list are in order |
| Pages.ImageMarkersDistinct | generate_events.py:1151-1155 | for the sorted upcoming list, no month gets two separators in the image |

## Left out

- Network, files and processes are not modelled: `requests`, `csv` decoding, MD5, the
  state file, the country-mapping file, HTML scraping in `extract_image_from_url`, the
  Jinja template, writing the page and image, and git. The downloaded hash, the mapping,
  the current time and the image lookup are parameters (`lookup` is any function of the
  URL).
- Drawing is not modelled: fonts, colours, bold-effect offsets, the `%m月` text at each
  separator, the header and the footer. The model covers the positions and texts passed
  to the drawing calls.
- The `print` progress and warning messages throughout `parse_events`,
  `filter_upcoming_events` and `create_ogp_image` are output only and are not modelled.
- The thread pool in `filter_upcoming_events` is modelled as a sequential map. Each task
  touches only its own event, and a failing task leaves the image URL empty, which is a
  lookup that returns "".
- Aliasing is not modelled. `fetch_event_image` writes to `Event` objects that are
  shared with the caller's `events` list; the model returns new values and says nothing
  about the old list.
- Dates.ParseDate: a restricted `dateutil.parser.parse`. It accepts ASCII-digit `Y/M/D`
  of years 1 to 9999 and rejects everything else. dateutil also reads other layouts,
  fills missing parts from today, and treats two-digit years differently.
- Text.ParseInt: `int()` without underscores or non-ASCII digits.
- Text.Lower: lowers ASCII letters only; Python's `lower()` covers all of Unicode.
- Time is integer microseconds, which is `datetime`'s resolution. `hours_since_update`
  is a float, and rounding at the twelve-hour boundary is not modelled.
- Timeline.AxisX: x is a real number. The float rounding of `days_from_start / date_range`
  is not modelled.
- Upcoming.IsUpcoming: `now + timedelta(days=days_ahead)` can raise OverflowError near
  year 9999. The window test assumes it does not.
- Text.NatToString: `%Y` is modelled without zero padding. For years below 1000 the
  platform's `strftime` may pad.
- ChangeGate.Stamp: `datetime.fromisoformat` is not modelled. A stored time is given as
  usable (an instant) or unusable (`BadStamp`, which also covers an aware time whose
  subtraction from the naive now fails).
- The `--force` and `--auto-push` paths of `main`, `load_country_mapping`,
  `fetch_events_from_sheet`, `load_last_state`, `save_last_state` and `get_content_hash` are I/O
  wrappers and are not part of this model.
