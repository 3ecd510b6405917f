/** The `Event` record, its post-initialisation (date parsing and the domestic flag)
    and the country rule applied to the region column. */
module Events {
  import opened Text
  import opened Dates

  /** One event. An absent optional string (`None` in the source) and the empty
      string behave alike everywhere the source looks at them, so both are "". */
  datatype Event = Event(
    name: string,
    date: string,
    location: string,
    country: string,
    description: string,
    url: string,
    imageUrl: string,
    isJapan: bool,
    parsedDate: Option<CalendarDate>,
    dateFrom: string,
    dateTo: string,
    parsedDateFrom: Option<CalendarDate>,
    parsedDateTo: Option<CalendarDate>)

  /** Parsing an optional date string: an empty one is not parsed at all. */
  function ParseOptional(s: string): (r: Option<CalendarDate>)
    ensures r.Some? ==> s != ""
  {
    if s == "" then None else ParseDate(s)
  }

  /** The names `is_japan` accepts, compared after lower-casing. */
  const JapanNames: seq<string> := ["japan", "日本", "jp"]

  /** `country.lower() in ['japan', '日本', 'jp']`. */
  predicate IsJapanCountry(country: string) {
    var l := Lower(country);
    l == JapanNames[0] || l == JapanNames[1] || l == JapanNames[2]
  }

  /** The names the domestic flag accepts, spelled out. */
  lemma JapanCountries()
    ensures IsJapanCountry("Japan") && IsJapanCountry("JAPAN") && IsJapanCountry("japan")
    ensures IsJapanCountry("JP") && IsJapanCountry("jp") && IsJapanCountry("日本")
    ensures !IsJapanCountry("USA") && !IsJapanCountry("France") && !IsJapanCountry("")
  {
    assert Lower("Japan") == "japan";
    assert Lower("JAPAN") == "japan";
    assert Lower("japan") == "japan";
    assert Lower("JP") == "jp";
    assert Lower("jp") == "jp";
    assert Lower("日本") == "日本";
    assert Lower("USA") == "usa";
    assert Lower("France") == "france";
  }

  /** Pydantic construction followed by `model_post_init`. `parsed_date` comes from
      `date` and falls back to `parsed_date_from`; the flag comes from the country. */
  function NewEvent(name: string, date: string, location: string, country: string,
                    description: string, url: string, imageUrl: string,
                    dateFrom: string, dateTo: string): (e: Event)
    ensures e.name == name && e.date == date && e.location == location && e.country == country
    ensures e.description == description && e.url == url && e.imageUrl == imageUrl
    ensures e.dateFrom == dateFrom && e.dateTo == dateTo
    ensures e.isJapan <==> IsJapanCountry(country)
    ensures e.parsedDateFrom == ParseOptional(dateFrom) && e.parsedDateTo == ParseOptional(dateTo)
    ensures e.parsedDateFrom.Some? ==> e.parsedDate.Some?
    ensures e.parsedDate.Some? <==> ParseOptional(date).Some? || ParseOptional(dateFrom).Some?
    ensures ParseOptional(date).Some? ==> e.parsedDate == ParseOptional(date)
    ensures ParseOptional(date).None? ==> e.parsedDate == e.parsedDateFrom
    ensures e.parsedDateTo.Some? ==> dateTo != ""
  {
    var fromDate := ParseOptional(dateFrom);
    var plain := ParseOptional(date);
    Event(name, date, location, country, description, url, imageUrl,
          IsJapanCountry(country),
          if plain.Some? then plain else fromDate,
          dateFrom, dateTo, fromDate, ParseOptional(dateTo))
  }

  /** Index of the first ')' at or after `i`, or `|s|` when there is none. */
  function FirstClose(s: string, i: nat): (j: nat)
    requires i <= |s|
    ensures i <= j <= |s|
    ensures j < |s| ==> s[j] == ')'
    ensures forall m :: i <= m < j ==> s[m] != ')'
    decreases |s| - i
  {
    if i == |s| || s[i] == ')' then i else FirstClose(s, i + 1)
  }

  /** `\(([^)]+)\)` matches with its '(' at `k` and its ')' at `j`. */
  ghost predicate GroupAt(s: string, k: int, j: int) {
    0 <= k && k + 1 < j < |s| && s[k] == '(' && s[j] == ')' &&
    forall m :: k < m < j ==> s[m] != ')'
  }

  /** `re.search(r'\(([^)]+)\)', s)` from position `from`: the position of the '(' of
      the leftmost match, or None when nothing matches. */
  function LeftmostGroup(s: string, from: nat): (r: Option<nat>)
    requires from <= |s|
    ensures r.None? ==> forall k, j :: from <= k ==> !GroupAt(s, k, j)
    ensures r.Some? ==> from <= r.value < |s| && GroupAt(s, r.value, FirstClose(s, r.value + 1))
    ensures r.Some? ==> forall k, j :: from <= k < r.value ==> !GroupAt(s, k, j)
    decreases |s| - from
  {
    if from == |s| then None
    else if s[from] == '(' && from + 1 < FirstClose(s, from + 1) < |s| then Some(from)
    else
      assert forall j :: !GroupAt(s, from, j);
      LeftmostGroup(s, from + 1)
  }

  /** The captured text of the leftmost match: what lies between its parentheses. */
  function GroupText(s: string, k: nat): string
    requires k < |s|
  {
    s[k + 1..FirstClose(s, k + 1)]
  }

  /** `extract_country_from_region`: the text inside the first parenthesised group,
      translated through the mapping when the mapping knows it; "Japan" otherwise. */
  function ExtractCountry(region: string, mapping: map<string, string>): string {
    match LeftmostGroup(region, 0)
    case None => "Japan"
    case Some(k) => CountryOf(GroupText(region, k), mapping)
  }

  /** A region with no parenthesised group is domestic. */
  lemma ExtractCountryDefault(region: string, mapping: map<string, string>)
    requires forall k, j :: !GroupAt(region, k, j)
    ensures ExtractCountry(region, mapping) == "Japan"
  {
  }

  /** The leftmost group decides: its text, through the mapping if the mapping has it. */
  lemma ExtractCountryGroup(region: string, mapping: map<string, string>, k: int, j: int)
    requires GroupAt(region, k, j)
    requires forall k2, j2 :: k2 < k ==> !GroupAt(region, k2, j2)
    ensures ExtractCountry(region, mapping) == CountryOf(region[k + 1..j], mapping)
  {
    var r := LeftmostGroup(region, 0);
    assert r.Some?;
    var fc := FirstClose(region, k + 1);
    assert r.value == k;
    assert fc == j;
  }

  /** A group the mapping knows is translated; an unknown one is kept as written. */
  function CountryOf(g: string, mapping: map<string, string>): string {
    if g in mapping then mapping[g] else g
  }

  /** The row's country: an empty region is domestic without consulting the mapping. */
  function RegionCountry(region: string, mapping: map<string, string>): (c: string)
    ensures region == "" ==> c == "Japan"
    ensures c == ExtractCountry(region, mapping)
  {
    if region == "" then
      ExtractCountryDefault(region, mapping);
      "Japan"
    else
      ExtractCountry(region, mapping)
  }

  /** Examples in the shape of the source's docstring. */
  lemma CountryExamples(mapping: map<string, string>)
    requires mapping == map["フランス" := "France", "アメリカ" := "USA"]
    ensures ExtractCountry("パリ(フランス)", mapping) == "France"
    ensures ExtractCountry("東京都", mapping) == "Japan"
    ensures ExtractCountry("台北(台湾)", mapping) == "台湾"
    ensures ExtractCountry("()", mapping) == "Japan"
  {
    ExtractCountryGroup("パリ(フランス)", mapping, 2, 7);
    assert "パリ(フランス)"[3..7] == "フランス";
    ExtractCountryGroup("台北(台湾)", mapping, 2, 5);
    assert "台北(台湾)"[3..5] == "台湾";
    ExtractCountryDefault("東京都", mapping);
    ExtractCountryDefault("()", mapping);
  }
}
