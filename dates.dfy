/** Calendar dates as the generator sees them: the midnight `datetime` values that
    `dateutil.parser.parse` returns for slash-separated year/month/day strings. */
module Dates {
  import opened Text

  /** A proleptic Gregorian date; `Valid` says it is one `datetime` can hold. */
  datatype Date = Date(year: int, month: int, day: int)

  predicate IsLeap(y: int) {
    y % 4 == 0 && (y % 100 != 0 || y % 400 == 0)
  }

  function DaysInMonth(y: int, m: int): int
    requires 1 <= m <= 12
  {
    if m == 2 then (if IsLeap(y) then 29 else 28)
    else if m == 4 || m == 6 || m == 9 || m == 11 then 30
    else 31
  }

  function YearLength(y: int): int {
    if IsLeap(y) then 366 else 365
  }

  /** `datetime`'s range: years 1 to 9999 and a day that exists in its month. */
  predicate Valid(d: Date) {
    1 <= d.year <= 9999 && 1 <= d.month <= 12 && 1 <= d.day <= DaysInMonth(d.year, d.month)
  }

  /** The dates a `datetime` can actually hold. */
  type CalendarDate = d: Date | Valid(d) witness Date(1, 1, 1)

  /** `datetime` ordering on midnights: lexicographic on (year, month, day). */
  predicate Before(a: Date, b: Date) {
    a.year < b.year || (a.year == b.year && (a.month < b.month || (a.month == b.month && a.day < b.day)))
  }

  predicate NotAfter(a: Date, b: Date) {
    Before(a, b) || a == b
  }

  /** Days in the years before `y`, counting from year 1. */
  function DaysBeforeYear(y: int): int
    requires y >= 1
  {
    var n := y - 1;
    365 * n + n / 4 - n / 100 + n / 400
  }

  /** Days in the months of year `y` before month `m`. */
  function DaysBeforeMonth(y: int, m: int): int
    requires 1 <= m <= 12
  {
    var table := [0, 31, 59, 90, 120, 151, 181, 212, 243, 273, 304, 334];
    table[m - 1] + (if m > 2 && IsLeap(y) then 1 else 0)
  }

  /** `date.toordinal()`: 0001-01-01 is day 1. Differences of day numbers are the
      `.days` of a `datetime` difference. */
  function DayNumber(d: Date): int
    requires d.year >= 1 && 1 <= d.month <= 12
  {
    DaysBeforeYear(d.year) + DaysBeforeMonth(d.year, d.month) + d.day
  }

  lemma DaysBeforeYearStep(y: int)
    requires y >= 1
    ensures DaysBeforeYear(y + 1) == DaysBeforeYear(y) + YearLength(y)
  {
    var n := y - 1;
    assert (n + 1) / 4 - n / 4 == if y % 4 == 0 then 1 else 0;
    assert (n + 1) / 100 - n / 100 == if y % 100 == 0 then 1 else 0;
    assert (n + 1) / 400 - n / 400 == if y % 400 == 0 then 1 else 0;
  }

  lemma {:induction false} DaysBeforeYearGrows(y: int, z: int)
    requires 1 <= y < z
    ensures DaysBeforeYear(y) + YearLength(y) <= DaysBeforeYear(z)
    decreases z - y
  {
    DaysBeforeYearStep(y);
    if y + 1 < z {
      DaysBeforeYearGrows(y + 1, z);
    }
  }

  /** A valid date's day number lies inside its year. */
  lemma DayNumberInYear(d: Date)
    requires Valid(d)
    ensures DaysBeforeYear(d.year) < DayNumber(d) <= DaysBeforeYear(d.year) + YearLength(d.year)
  {
  }

  /** The day number is order-preserving and one-to-one on valid dates, so day
      differences agree with the `datetime` order. */
  lemma DayNumberOrder(a: Date, b: Date)
    requires Valid(a) && Valid(b)
    ensures Before(a, b) <==> DayNumber(a) < DayNumber(b)
    ensures a == b <==> DayNumber(a) == DayNumber(b)
  {
    DayNumberInYear(a);
    DayNumberInYear(b);
    if a.year < b.year {
      DaysBeforeYearGrows(a.year, b.year);
    } else if b.year < a.year {
      DaysBeforeYearGrows(b.year, a.year);
    }
  }

  /** The restricted stand-in for `dateutil.parser.parse`: exactly three
      slash-separated runs of ASCII digits naming a valid year/month/day. Midnight
      is implied; every other string is a parse failure (None). */
  function ParseDate(s: string): (r: Option<CalendarDate>)
    ensures r.Some? ==> Count(s, '/') == 2
  {
    var parts := Split(s, '/');
    if |parts| != 3 then None
    else
      match (ParseNat(parts[0]), ParseNat(parts[1]), ParseNat(parts[2]))
      case (Some(y), Some(m), Some(d)) =>
        var date := Date(y, m, d);
        if Valid(date) then Some(date) else None
      case _ => None
  }

  /** `Y/M/D` without padding, the form the spreadsheet rows use. */
  function FormatYMD(d: Date): string
    requires d.year >= 0 && d.month >= 0 && d.day >= 0
  {
    NatToString(d.year) + "/" + NatToString(d.month) + "/" + NatToString(d.day)
  }

  /** Every valid date is recognised from its `Y/M/D` rendering. */
  lemma ParseFormatYMD(d: Date)
    requires Valid(d)
    ensures ParseDate(FormatYMD(d)) == Some(d)
  {
    var y, m, dd := NatToString(d.year), NatToString(d.month), NatToString(d.day);
    assert '/' !in y && '/' !in m && '/' !in dd by {
      assert forall k :: 0 <= k < |y| ==> IsDigit(y[k]);
      assert forall k :: 0 <= k < |m| ==> IsDigit(m[k]);
      assert forall k :: 0 <= k < |dd| ==> IsDigit(dd[k]);
    }
    assert FormatYMD(d) == y + ['/'] + (m + ['/'] + dd);
    SplitCons(y, '/', m + ['/'] + dd);
    SplitCons(m, '/', dd);
    SplitNone(dd, '/');
    NatToStringParses(d.year);
    NatToStringParses(d.month);
    NatToStringParses(d.day);
  }
}
