/** `format_event_date`: the date text of an event on the page, in Japanese for
    domestic events and in English for the others. */
module DateText {
  import opened Text
  import opened Dates
  import opened Events
  import Seqs

  /** `%B` in the C locale. */
  const MonthNames: seq<string> := ["January", "February", "March", "April", "May", "June", "July",
    "August", "September", "October", "November", "December"]

  function MonthName(m: int): string
    requires 1 <= m <= 12
  {
    MonthNames[m - 1]
  }

  /** `strftime('%Y年%m月%d日')`. */
  function JaDay(d: CalendarDate): string {
    NatToString(d.year) + "年" + Pad2(d.month) + "月" + Pad2(d.day) + "日"
  }

  /** `strftime('%B %d, %Y')`. */
  function EnDay(d: CalendarDate): string {
    MonthName(d.month) + " " + Pad2(d.day) + ", " + NatToString(d.year)
  }

  /** A range is printed when there is an end date that is not the start date; both
      sides are midnights, so comparing `.date()` is comparing the values. */
  predicate IsMultiDay(e: Event) {
    e.parsedDateFrom.Some? && e.parsedDateTo.Some? && e.parsedDateFrom != e.parsedDateTo
  }

  /** `strftime('%B %d')` of the start date, the head of every English form. */
  function EnHead(d: CalendarDate): string {
    MonthName(d.month) + " " + Pad2(d.day)
  }

  /** What follows the start date in the Japanese forms: nothing for one day,
      `〜DD日` within a month, `〜MM月DD日` across months. */
  function JaTail(e: Event): string
    requires e.parsedDateFrom.Some?
  {
    if !IsMultiDay(e) then ""
    else
      var start, end := e.parsedDateFrom.value, e.parsedDateTo.value;
      if start.month == end.month then "〜" + Pad2(end.day) + "日"
      else "〜" + Pad2(end.month) + "月" + Pad2(end.day) + "日"
  }

  /** What follows `%B %d` of the start in the English forms: `, YYYY` for one day,
      `-DD, YYYY` within a month, ` - Month DD, YYYY` across months; the year printed
      is the end's. */
  function EnTail(e: Event): string
    requires e.parsedDateFrom.Some?
  {
    var start := e.parsedDateFrom.value;
    if !IsMultiDay(e) then ", " + NatToString(start.year)
    else
      var end := e.parsedDateTo.value;
      if start.month == end.month then "-" + Pad2(end.day) + ", " + NatToString(end.year)
      else " - " + EnDay(end)
  }

  /** `format_event_date(event)`. Same month or not is decided on `.month` alone. */
  function FormatEventDate(e: Event): string {
    if e.parsedDateFrom.None? then ""
    else if e.isJapan then JaDay(e.parsedDateFrom.value) + JaTail(e)
    else EnHead(e.parsedDateFrom.value) + EnTail(e)
  }

  /** A character that is not a digit does not occur in a run of digits. */
  lemma NotInDigits(s: string, c: char)
    requires AllDigits(s) && !IsDigit(c)
    ensures c !in s
  {
  }

  lemma NoDashInMonthNames(m: int)
    requires 1 <= m <= 12
    ensures '-' !in MonthName(m) && '〜' !in MonthName(m)
  {
  }

  /** Where the year, month and day sit in the Japanese form. */
  lemma JaDayParts(d: CalendarDate)
    ensures var s := JaDay(d);
      |s| == |NatToString(d.year)| + 7 &&
      s[..|s| - 7] == NatToString(d.year) &&
      s[|s| - 6..|s| - 4] == Pad2(d.month) &&
      s[|s| - 3..|s| - 1] == Pad2(d.day)
  {
    Pad2Parses(d.month);
    Pad2Parses(d.day);
  }

  /** The Japanese single-day form names the date unambiguously. */
  lemma JaDayInjective(a: CalendarDate, b: CalendarDate)
    requires JaDay(a) == JaDay(b)
    ensures a == b
  {
    JaDayParts(a);
    JaDayParts(b);
    NatToStringInjective(a.year, b.year);
    Pad2Parses(a.month);
    Pad2Parses(b.month);
    Pad2Parses(a.day);
    Pad2Parses(b.day);
  }

  /** Neither single-day form contains a range separator. */
  lemma DayFormsHaveNoSeparator(d: CalendarDate)
    ensures '〜' !in JaDay(d) && '-' !in EnDay(d)
  {
    Pad2Parses(d.month);
    Pad2Parses(d.day);
    NotInDigits(NatToString(d.year), '〜');
    NotInDigits(Pad2(d.month), '〜');
    NotInDigits(Pad2(d.day), '〜');
    NotInDigits(NatToString(d.year), '-');
    NotInDigits(Pad2(d.day), '-');
    NoDashInMonthNames(d.month);
  }

  /** The text is empty exactly when there is no start date. */
  lemma FormatEmpty(e: Event)
    ensures FormatEventDate(e) == "" <==> e.parsedDateFrom.None?
  {
  }

  /** A range separator appears exactly for multi-day events: '〜' in the Japanese
      forms and '-' in the English ones. */
  lemma FormatSeparator(e: Event)
    requires e.parsedDateFrom.Some?
    ensures e.isJapan ==> ('〜' in FormatEventDate(e) <==> IsMultiDay(e))
    ensures !e.isJapan ==> ('-' in FormatEventDate(e) <==> IsMultiDay(e))
  {
    var start := e.parsedDateFrom.value;
    DayFormsHaveNoSeparator(start);
    assert '-' !in EnHead(start) by {
      assert EnDay(start) == EnHead(start) + (", " + NatToString(start.year));
    }
    if IsMultiDay(e) {
      assert JaTail(e)[0] == '〜';
      assert EnTail(e)[0] == '-' || EnTail(e)[1] == '-';
    } else {
      assert EnHead(start) + EnTail(e) == EnDay(start);
    }
  }

  /** The Japanese day form less its year (`%m月%d日`), and less its year and month (`%d日`). */
  lemma JaDaySuffixes(d: CalendarDate)
    ensures var y := |NatToString(d.year)|;
      JaDay(d)[y + 1..] == Pad2(d.month) + "月" + Pad2(d.day) + "日" &&
      JaDay(d)[y + 4..] == Pad2(d.day) + "日"
  {
    Pad2Parses(d.month);
    var y := NatToString(d.year);
    assert JaDay(d) == y + "年" + (Pad2(d.month) + "月" + Pad2(d.day) + "日");
    assert JaDay(d) == (y + "年" + Pad2(d.month) + "月") + (Pad2(d.day) + "日");
  }

  /** The English day form less its month name (`%d, %Y`). */
  lemma EnDaySuffix(d: CalendarDate)
    ensures EnDay(d)[|MonthName(d.month)| + 1..] == Pad2(d.day) + ", " + NatToString(d.year)
  {
    assert EnDay(d) == (MonthName(d.month) + " ") + (Pad2(d.day) + ", " + NatToString(d.year));
  }

  /** Every non-empty text starts with the start date: its full Japanese form, or
      its English month name and day; a single day is exactly that date's form. */
  lemma FormatStartsWithStart(e: Event)
    requires e.parsedDateFrom.Some?
    ensures e.isJapan ==> JaDay(e.parsedDateFrom.value) <= FormatEventDate(e)
    ensures !e.isJapan ==> EnHead(e.parsedDateFrom.value) <= FormatEventDate(e)
    ensures !IsMultiDay(e) ==>
      FormatEventDate(e) == if e.isJapan then JaDay(e.parsedDateFrom.value) else EnDay(e.parsedDateFrom.value)
  {
    var a := if e.isJapan then JaDay(e.parsedDateFrom.value) else EnHead(e.parsedDateFrom.value);
    var b := if e.isJapan then JaTail(e) else EnTail(e);
    assert FormatEventDate(e) == a + b;
    assert (a + b)[..|a|] == a;
  }

  /** A Japanese range continues after the start with `〜` and the end date in its own
      single-day form less its year, and within a month less its month too. */
  lemma FormatRangeEndJapanese(e: Event)
    requires IsMultiDay(e) && e.isJapan
    ensures var start, end := e.parsedDateFrom.value, e.parsedDateTo.value;
      var y := |NatToString(end.year)|;
      FormatEventDate(e) == JaDay(start) + "〜" +
        if start.month == end.month then JaDay(end)[y + 4..] else JaDay(end)[y + 1..]
  {
    var start, end := e.parsedDateFrom.value, e.parsedDateTo.value;
    var y := |NatToString(end.year)|;
    JaDaySuffixes(end);
    var rest := if start.month == end.month then JaDay(end)[y + 4..] else JaDay(end)[y + 1..];
    assert JaTail(e) == "〜" + rest;
    Seqs.AppendAssoc(JaDay(start), "〜", rest);
  }

  /** An English range continues after the start's month and day with the end date in
      its own single-day form: less its month name within a month, in full across months. */
  lemma FormatRangeEndEnglish(e: Event)
    requires IsMultiDay(e) && !e.isJapan
    ensures var start, end := e.parsedDateFrom.value, e.parsedDateTo.value;
      FormatEventDate(e) == EnHead(start) +
        if start.month == end.month then "-" + EnDay(end)[|MonthName(end.month)| + 1..] else " - " + EnDay(end)
  {
    var start, end := e.parsedDateFrom.value, e.parsedDateTo.value;
    EnDaySuffix(end);
    var rest := if start.month == end.month then "-" + EnDay(end)[|MonthName(end.month)| + 1..] else " - " + EnDay(end);
    assert EnTail(e) == rest;
  }

  /** Two domestic single-day events get the same text only when they start on the
      same date. */
  lemma SingleDayTextIdentifiesDate(a: Event, b: Event)
    requires a.parsedDateFrom.Some? && b.parsedDateFrom.Some? && a.isJapan && b.isJapan
    requires !IsMultiDay(a) && !IsMultiDay(b)
    requires FormatEventDate(a) == FormatEventDate(b)
    ensures a.parsedDateFrom == b.parsedDateFrom
  {
    FormatStartsWithStart(a);
    FormatStartsWithStart(b);
    JaDayInjective(a.parsedDateFrom.value, b.parsedDateFrom.value);
  }

  lemma Year2025() ensures NatToString(2025) == "2025" {
    assert NatToString(2) == "2";
    assert NatToString(20) == "20";
    assert NatToString(202) == "202";
  }

  /** A domestic event within one month. */
  lemma FormatExampleJapanese(e: Event)
    requires e.isJapan && e.parsedDateFrom == Some(Date(2025, 8, 2)) && e.parsedDateTo == Some(Date(2025, 8, 3))
    ensures FormatEventDate(e) == "2025年08月02日〜03日"
  {
    Year2025();
    assert Pad2(8) == "08" && Pad2(2) == "02" && Pad2(3) == "03";
    assert JaTail(e) == "〜03日";
  }

  /** An international event across months: the start's year is not printed. */
  lemma FormatExampleEnglish(e: Event)
    requires !e.isJapan && e.parsedDateFrom == Some(Date(2025, 8, 30)) && e.parsedDateTo == Some(Date(2025, 9, 1))
    ensures FormatEventDate(e) == "August 30 - September 01, 2025"
  {
    assert EnHead(e.parsedDateFrom.value) == "August 30" by {
      EnglishHeadExample();
    }
    assert EnTail(e) == " - September 01, 2025" by {
      assert IsMultiDay(e) && e.parsedDateFrom.value.month != e.parsedDateTo.value.month;
      EnglishDayExample();
    }
    EnglishRangeJoin();
  }

  lemma EnglishRangeJoin() ensures "August 30" + " - September 01, 2025" == "August 30 - September 01, 2025" {
  }

  lemma EnglishHeadExample() ensures EnHead(Date(2025, 8, 30)) == "August 30" {
    assert Pad2(30) == "30";
  }

  lemma EnglishDayExample() ensures EnDay(Date(2025, 9, 1)) == "September 01, 2025" {
    Year2025();
    assert Pad2(1) == "01";
  }

  /** A domestic event across months: the end keeps its month. */
  lemma FormatExampleJapaneseAcrossMonths(e: Event)
    requires e.isJapan && e.parsedDateFrom == Some(Date(2025, 8, 31)) && e.parsedDateTo == Some(Date(2025, 9, 1))
    ensures FormatEventDate(e) == "2025年08月31日〜09月01日"
  {
    JapaneseDayExample();
    assert Pad2(9) == "09" && Pad2(1) == "01";
    assert JaTail(e) == "〜09月01日";
  }

  lemma JapaneseDayExample() ensures JaDay(Date(2025, 8, 31)) == "2025年08月31日" {
    Year2025();
    assert Pad2(8) == "08" && Pad2(31) == "31";
  }

  /** An international event within one month. */
  lemma FormatExampleEnglishSameMonth(e: Event)
    requires !e.isJapan && e.parsedDateFrom == Some(Date(2025, 8, 2)) && e.parsedDateTo == Some(Date(2025, 8, 3))
    ensures FormatEventDate(e) == "August 02-03, 2025"
  {
    assert EnHead(Date(2025, 8, 2)) == "August 02" by {
      assert Pad2(2) == "02";
    }
    assert EnTail(e) == "-03, 2025" by {
      Year2025();
      assert Pad2(3) == "03";
    }
  }

  /** An international one-day event. */
  lemma FormatExampleSingle(e: Event)
    requires !e.isJapan && e.parsedDateFrom == Some(Date(2025, 3, 7)) && e.parsedDateTo.None?
    ensures FormatEventDate(e) == "March 07, 2025"
  {
    Year2025();
    assert Pad2(7) == "07";
    assert EnTail(e) == ", 2025";
  }

  /** An end date twelve months after the start: the month-only comparison renders
      it as if it fell in the start month. */
  lemma FormatExampleSameMonthNextYear(e: Event)
    requires e.isJapan && e.parsedDateFrom == Some(Date(2025, 12, 30)) && e.parsedDateTo == Some(Date(2026, 12, 2))
    ensures FormatEventDate(e) == "2025年12月30日〜02日"
  {
    Year2025();
    assert Pad2(12) == "12" && Pad2(30) == "30" && Pad2(2) == "02";
    assert JaTail(e) == "〜02日";
  }
}
