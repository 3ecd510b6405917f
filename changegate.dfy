/** Deciding whether the page is regenerated: the spreadsheet URL rewritten to
    its CSV export, then the content-hash and twelve-hour rules of
    `has_spreadsheet_changed` and `should_update_page`. */
module ChangeGate {
  import opened Text

  const SheetsHost: string := "docs.google.com/spreadsheets"
  const IdPath: string := "/spreadsheets/d/"
  const ExportPrefix: string := "https://docs.google.com/spreadsheets/d/"
  const ExportSuffix: string := "/export?format=csv"

  /** `[a-zA-Z0-9-_]`: the '-' after the range `0-9` is a literal. */
  predicate IdChar(c: char) {
    ('a' <= c <= 'z') || ('A' <= c <= 'Z') || ('0' <= c <= '9') || c == '-' || c == '_'
  }

  /** End of the greedy run of identifier characters starting at `i`. */
  function IdEnd(s: string, i: nat): (j: nat)
    requires i <= |s|
    ensures i <= j <= |s|
    ensures forall k :: i <= k < j ==> IdChar(s[k])
    ensures j < |s| ==> !IdChar(s[j])
    decreases |s| - i
  {
    if i < |s| && IdChar(s[i]) then IdEnd(s, i + 1) else i
  }

  /** `/spreadsheets/d/([a-zA-Z0-9-_]+)` matches at `p`. */
  predicate IdMatchAt(s: string, p: nat) {
    p + |IdPath| < |s| && s[p..p + |IdPath|] == IdPath && IdChar(s[p + |IdPath|])
  }

  /** `re.search` for the identifier from `from`: the leftmost match position. */
  function FindId(s: string, from: nat): (r: Option<nat>)
    requires from <= |s|
    ensures r.None? ==> forall p :: from <= p ==> !IdMatchAt(s, p)
    ensures r.Some? ==> from <= r.value && IdMatchAt(s, r.value)
    ensures r.Some? ==> forall p :: from <= p < r.value ==> !IdMatchAt(s, p)
    decreases |s| - from
  {
    if from == |s| then None
    else if IdMatchAt(s, from) then Some(from)
    else FindId(s, from + 1)
  }

  /** `get_spreadsheet_csv_url`: a Google Sheets URL becomes the CSV export URL of
      the sheet it names; any other URL is returned unchanged. */
  function CsvUrl(url: string): (r: string)
    ensures r == url || (Contains(url, SheetsHost) &&
      exists p :: 0 <= p < |url| && IdMatchAt(url, p) && r == ExportOf(url, p))
    ensures !Contains(url, SheetsHost) || FindId(url, 0).None? ==> r == url
    ensures Contains(url, SheetsHost) && FindId(url, 0).Some? ==> r == ExportOf(url, FindId(url, 0).value)
  {
    if !Contains(url, SheetsHost) then url
    else
      match FindId(url, 0)
      case None => url
      case Some(p) => ExportOf(url, p)
  }

  /** The export URL of the greedy identifier run after a match at `p`. */
  function ExportOf(url: string, p: nat): string
    requires IdMatchAt(url, p)
  {
    ExportPrefix + url[p + |IdPath|..IdEnd(url, p + |IdPath|)] + ExportSuffix
  }

  predicate IdString(id: string) {
    id != [] && forall k :: 0 <= k < |id| ==> IdChar(id[k])
  }

  /** A run that stops before a non-identifier character (or the end) is the
      greedy run. */
  lemma {:induction false} IdEndOfRun(s: string, i: nat, j: nat)
    requires i <= j <= |s|
    requires forall k :: i <= k < j ==> IdChar(s[k])
    requires j < |s| ==> !IdChar(s[j])
    ensures IdEnd(s, i) == j
    decreases j - i
  {
    if i < j {
      IdEndOfRun(s, i + 1, j);
    }
  }

  /** No match of the identifier pattern starts inside the fixed prefix. */
  lemma NoMatchInPrefix(s: string, p: nat)
    requires ExportPrefix <= s && p < 23
    ensures s[p..p + 16] != IdPath
  {
    if s[p..p + 16] == IdPath {
      assert IdPath[13] == '/' && IdPath[14] == 'd';
      assert s[p + 13] == s[p..p + 16][13] && s[p + 14] == s[p..p + 16][14];
      assert s[p + 13] == ExportPrefix[p + 13] && s[p + 14] == ExportPrefix[p + 14];
      NoSlashDBefore(p + 13);
      assert false;
    }
  }

  /** The only "/d" of the export prefix is the one before the identifier. */
  lemma NoSlashDBefore(k: nat)
    requires 13 <= k < |ExportPrefix| - 3
    ensures !(ExportPrefix[k] == '/' && ExportPrefix[k + 1] == 'd')
  {
  }

  /** In a URL that starts with the export prefix and continues with an identifier
      character, the leftmost match is the one that ends the prefix. */
  lemma FindIdAfterPrefix(s: string)
    requires ExportPrefix <= s && |ExportPrefix| < |s| && IdChar(s[|ExportPrefix|])
    ensures FindId(s, 0) == Some(|ExportPrefix| - |IdPath|)
  {
    var n := |ExportPrefix|;
    var q := n - |IdPath|;
    assert s[..n] == ExportPrefix;
    assert s[q..n] == ExportPrefix[q..n] == IdPath;
    assert IdMatchAt(s, q);
    var r := FindId(s, 0);
    assert r.Some? && r.value <= q;
    if r.value < q {
      NoMatchInPrefix(s, r.value);
      assert false;
    }
    assert r.value == q;
  }

  /** The greedy identifier run after the prefix is exactly `id`. */
  lemma IdAfterPrefix(id: string, rest: string)
    requires IdString(id) && (rest == [] || !IdChar(rest[0]))
    ensures var s := ExportPrefix + id + rest;
      IdEnd(s, |ExportPrefix|) == |ExportPrefix| + |id| && s[|ExportPrefix|..|ExportPrefix| + |id|] == id
  {
    var s := ExportPrefix + id + rest;
    var n := |ExportPrefix|;
    forall k | n <= k < n + |id| ensures IdChar(s[k]) {
      assert s[k] == id[k - n];
    }
    if rest != [] {
      assert s[n + |id|] == rest[0];
    }
    IdEndOfRun(s, n, n + |id|);
    assert s[n..n + |id|] == id;
  }

  /** A URL of the form `https://docs.google.com/spreadsheets/d/<id><rest>`, where the
      identifier is not followed by another identifier character, is rewritten to the
      export URL of `<id>`. */
  lemma CsvUrlOfSheetUrl(id: string, rest: string)
    requires IdString(id) && (rest == [] || !IdChar(rest[0]))
    ensures CsvUrl(ExportPrefix + id + rest) == ExportPrefix + id + ExportSuffix
  {
    var s := ExportPrefix + id + rest;
    var n := |ExportPrefix|;
    PrefixNamesHost(s);
    assert s[n] == id[0];
    FindIdAfterPrefix(s);
    IdAfterPrefix(id, rest);
    assert CsvUrl(s) == ExportOf(s, n - |IdPath|);
  }

  /** A URL that starts with the export prefix names the Sheets host. */
  lemma PrefixNamesHost(s: string)
    requires ExportPrefix <= s
    ensures Contains(s, SheetsHost)
  {
    assert s[..|ExportPrefix|] == ExportPrefix;
    assert ExportPrefix == "https://" + SheetsHost + "/d/";
    assert s[8..8 + |SheetsHost|] == ExportPrefix[8..8 + |SheetsHost|] == SheetsHost;
    ContainsAt(s, SheetsHost, 8);
  }

  /** Rewriting is idempotent: an export URL is left as it is. */
  lemma CsvUrlIdempotent(url: string)
    ensures CsvUrl(CsvUrl(url)) == CsvUrl(url)
  {
    var r := CsvUrl(url);
    if r != url {
      var p :| 0 <= p < |url| && IdMatchAt(url, p) &&
        r == ExportOf(url, p);
      var id := url[p + |IdPath|..IdEnd(url, p + |IdPath|)];
      assert IdString(id) by {
        assert id[0] == url[p + |IdPath|];
      }
      CsvUrlOfSheetUrl(id, ExportSuffix);
    }
  }

  /** The identifier of the sheet the generator reads. */
  const MainSheetId: string := "1a2XqNp01q6hFiyyFjq5hMlYGV66Z9UeOHZP4snSXaz0"

  /** The edit URL the generator is configured with becomes that sheet's export URL. */
  lemma CsvUrlExample()
    ensures CsvUrl(ExportPrefix + MainSheetId + "/edit?gid=0#gid=0") == ExportPrefix + MainSheetId + ExportSuffix
  {
    assert IdString(MainSheetId);
    CsvUrlOfSheetUrl(MainSheetId, "/edit?gid=0#gid=0");
  }

  /** Twelve hours in microseconds, the resolution of `datetime`. */
  const RefreshAfter: int := 12 * 3600 * 1_000_000

  /** The stored `last_updated`: absent or empty, present but not usable (not ISO
      8601, or carrying a time zone so that subtracting it from the naive now fails),
      or a naive instant in microseconds. */
  datatype Stamp = NoStamp | BadStamp | At(micros: int)

  /** The result of `should_update_page`: whether to regenerate, and the hash to store. */
  datatype Decision = Decision(update: bool, hash: string)

  /** `should_update_page` with `has_spreadsheet_changed` inlined. `fetched` is the
      MD5 of the downloaded CSV, None when the download failed; `lastHash` is the
      stored `content_hash` ("" when absent); `now` is the current naive instant. */
  function ShouldUpdate(fetched: Option<string>, lastHash: string, lastUpdated: Stamp, now: int): (d: Decision)
    ensures d.hash == if fetched.Some? then fetched.value else ""
  {
    if fetched.None? then Decision(true, "")
    else if fetched.value != lastHash then Decision(true, fetched.value)
    else
      match lastUpdated
      case NoStamp => Decision(true, fetched.value)
      case BadStamp => Decision(true, fetched.value)
      case At(t) => Decision(now - t >= RefreshAfter, fetched.value)
  }

  /** The page is skipped exactly when the download succeeded, the hash is the stored
      one, and the stored time is usable and less than twelve hours ago (a stored time
      in the future counts as recent). */
  lemma SkipExactly(fetched: Option<string>, lastHash: string, lastUpdated: Stamp, now: int)
    ensures !ShouldUpdate(fetched, lastHash, lastUpdated, now).update <==>
      fetched == Some(lastHash) && lastUpdated.At? && now - lastUpdated.micros < RefreshAfter
  {
  }

  /** Once an update is due it stays due: waiting longer never turns it off. */
  lemma UpdateStaysDue(fetched: Option<string>, lastHash: string, lastUpdated: Stamp, now: int, later: int)
    requires now <= later && ShouldUpdate(fetched, lastHash, lastUpdated, now).update
    ensures ShouldUpdate(fetched, lastHash, lastUpdated, later).update
  {
  }

  /** Thirteen hours after the last run with identical content: regenerate; one hour
      after: skip; a failed download: regenerate and store an empty hash. */
  lemma DecisionExamples(h: string)
    ensures ShouldUpdate(Some(h), h, At(0), 13 * 3600 * 1_000_000) == Decision(true, h)
    ensures ShouldUpdate(Some(h), h, At(0), 3600 * 1_000_000) == Decision(false, h)
    ensures ShouldUpdate(None, h, At(0), 0) == Decision(true, "")
    ensures ShouldUpdate(Some(h + "x"), h, At(0), 0) == Decision(true, h + "x")
  {
  }
}
