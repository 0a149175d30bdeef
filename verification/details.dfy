/** The detail-page stage, `scrape_cache_desc`: description cleanup, hint
    decoding, the log-tally parse and the found rate, for every record in turn.
    HTML parsing is abstract: a page is the text of its three anchors, each
    absent when the page lacks it. */
module Details {
  import opened Wrappers
  import opened Text
  import opened Records
  import HintCipher

  /** The text content of the anchors the scraper looks for on a detail page. */
  datatype Page = Page(
    description: Option<string>,  // span#ctl00_ContentBody_LongDescription
    hint: Option<string>,         // div#div_hint
    logTotals: Option<string>     // ul.LogTotals
  )

  /** The detail page requested for a cache code. */
  const CacheUrl: string := "https://www.geocaching.com/geocache/"

  function PageUrl(code: string): (url: string)
    ensures |url| == |CacheUrl| + |code| && url[..|CacheUrl|] == CacheUrl && url[|CacheUrl|..] == code
  {
    CacheUrl + code
  }

  /** The description with non-breaking spaces and newlines turned into spaces. */
  function CleanDescription(text: string): (r: string)
    ensures |r| == |text|
    ensures forall i :: 0 <= i < |r| ==>
      r[i] == (if text[i] == '\U{A0}' || text[i] == '\n' then ' ' else text[i])
  {
    ReplaceChar(ReplaceChar(text, '\U{A0}', ' '), '\n', ' ')
  }

  /** The hint text with CR-LF pairs removed and surrounding whitespace stripped. */
  function CleanHint(text: string): (r: string)
    ensures |r| <= |text|
    ensures exists i :: Inner(RemoveCrLf(text), r, i)
    ensures |r| > 0 ==> !IsSpace(r[0]) && !IsSpace(r[|r| - 1])
  {
    Strip(RemoveCrLf(text))
  }

  /** One tally token: thousands separators removed, then read as a number. */
  function ParseCount(token: string): (r: Result<nat, ScrapeError>)
    ensures r.Failure? ==> r.error == NotANumber(token)
  {
    match ParseNat(RemoveChar(token, ','))
    case Some(n) => Success(n)
    case None => Failure(NotANumber(token))
  }

  /** A token parses exactly when, without its commas, it is a non-empty digit string. */
  lemma ParseCountDigits(token: string)
    ensures ParseCount(token).Success? <==> |RemoveChar(token, ',')| > 0 && AllDigits(RemoveChar(token, ','))
    ensures ParseCount(token).Success? ==> ParseCount(token).value == DigitsValue(RemoveChar(token, ','))
  {
  }

  /** The log-totals text, stripped and split on single spaces; the first two
      tokens are the found and did-not-find counts. The first token is read
      before the second is looked up, so a bad first token is reported even
      when there is no second one. */
  function ParseTally(text: string): (r: Result<(nat, nat), ScrapeError>)
    ensures var tally := TallyTokens(text);
      && (ParseCount(tally[0]).Failure? ==> r == Failure(NotANumber(tally[0])))
      && (ParseCount(tally[0]).Success? && |tally| < 2 ==> r == Failure(TooFewTallyTokens))
      && (ParseCount(tally[0]).Success? && |tally| >= 2 && ParseCount(tally[1]).Failure? ==>
            r == Failure(NotANumber(tally[1])))
      && (r.Success? <==> |tally| >= 2 && ParseCount(tally[0]).Success? && ParseCount(tally[1]).Success?)
      && (r.Success? ==> r.value == (ParseCount(tally[0]).value, ParseCount(tally[1]).value))
  {
    TallyOf(TallyTokens(text))
  }

  /** The log-totals text, stripped and split on single spaces. */
  function TallyTokens(text: string): (r: seq<string>)
    ensures |r| >= 1 && forall k :: 0 <= k < |r| ==> Free(r[k], ' ')
  {
    Split(Strip(text), ' ')
  }

  /** The tokens are the stripped text cut at its spaces: joined back with
      single spaces they give the stripped text. */
  lemma TallyTokensJoin(text: string)
    ensures Join(TallyTokens(text), ' ') == Strip(text)
  {
    JoinSplit(Strip(text), ' ');
  }

  /** The tally read from its tokens, first token first. */
  function TallyOf(tally: seq<string>): (r: Result<(nat, nat), ScrapeError>)
    requires |tally| > 0
    ensures ParseCount(tally[0]).Failure? ==> r == Failure(NotANumber(tally[0]))
    ensures ParseCount(tally[0]).Success? && |tally| < 2 ==> r == Failure(TooFewTallyTokens)
    ensures ParseCount(tally[0]).Success? && |tally| >= 2 && ParseCount(tally[1]).Failure? ==>
      r == Failure(NotANumber(tally[1]))
    ensures r.Success? <==> |tally| >= 2 && ParseCount(tally[0]).Success? && ParseCount(tally[1]).Success?
    ensures r.Success? ==> r.value == (ParseCount(tally[0]).value, ParseCount(tally[1]).value)
  {
    var found :- ParseCount(tally[0]);
    if |tally| < 2 then Failure(TooFewTallyTokens)
    else
      var dnf :- ParseCount(tally[1]);
      Success((found, dnf))
  }

  /** Three digits, with leading zeros: one group after a thousands separator. */
  function Pad3(n: nat): (s: string)
    requires n < 1000
    ensures |s| == 3 && AllDigits(s) && DigitsValue(s) == n
  {
    var s := [Digit(n / 100), Digit(n / 10 % 10), Digit(n % 10)];
    ThreeDigits(n / 100, n / 10 % 10, n % 10);
    HundredsTensUnits(n);
    s
  }

  lemma ThreeDigits(x: nat, y: nat, z: nat)
    requires x < 10 && y < 10 && z < 10
    ensures DigitsValue([Digit(x), Digit(y), Digit(z)]) == (x * 10 + y) * 10 + z
  {
    var s := [Digit(x), Digit(y), Digit(z)];
    assert s[..2] == [s[0], s[1]] && [s[0], s[1]][..1] == [s[0]] && [s[0]][..0] == [];
    assert DigitsValue([s[0]]) == x;
    assert DigitsValue([s[0], s[1]]) == x * 10 + y;
  }

  lemma HundredsTensUnits(n: nat)
    requires n < 1000
    ensures n / 100 < 10 && n / 10 % 10 < 10
    ensures (n / 100 * 10 + n / 10 % 10) * 10 + n % 10 == n
  {
    var t := n / 10;
    assert n == t * 10 + n % 10;
    assert t == t / 10 * 10 + t % 10;
    assert t / 10 == n / 100;
  }

  /** A count as the page prints it, with a comma between groups of three digits. */
  function Grouped(n: nat): (s: string)
    ensures |s| > 0 && IsDigit(s[0]) && IsDigit(s[|s| - 1]) && Free(s, ' ')
  {
    if n < 1000 then ShowNat(n) else Grouped(n / 1000) + "," + Pad3(n % 1000)
  }

  lemma {:induction false} RemoveCharAppend(a: string, b: string, c: char)
    ensures RemoveChar(a + b, c) == RemoveChar(a, c) + RemoveChar(b, c)
  {
    if |a| > 0 {
      var head: string := if a[0] == c then [] else [a[0]];
      assert (a + b)[0] == a[0] && (a + b)[1..] == a[1..] + b;
      assert RemoveChar(a + b, c) == head + RemoveChar(a[1..] + b, c);
      RemoveCharAppend(a[1..], b, c);
      assert RemoveChar(a, c) == head + RemoveChar(a[1..], c);
      assert head + (RemoveChar(a[1..], c) + RemoveChar(b, c)) == (head + RemoveChar(a[1..], c)) + RemoveChar(b, c);
    } else {
      assert a + b == b;
    }
  }

  lemma RemoveCommaGrouped(n: nat)
    requires n >= 1000
    ensures RemoveChar(Grouped(n), ',') == RemoveChar(Grouped(n / 1000), ',') + Pad3(n % 1000)
  {
    var head, tail, comma: string := Grouped(n / 1000), Pad3(n % 1000), [','];
    assert Grouped(n) == (head + comma) + tail;
    assert comma[1..] == [];
    assert RemoveChar(comma, ',') == [];
    RemoveCharAppend(head + comma, tail, ',');
    RemoveCharAppend(head, comma, ',');
    assert RemoveChar(head + comma, ',') == RemoveChar(head, ',');
    assert RemoveChar(tail, ',') == tail;
  }

  /** Removing the separators from a grouped count gives the digits of that count. */
  lemma {:induction false} GroupedDigits(n: nat)
    ensures AllDigits(RemoveChar(Grouped(n), ','))
    ensures DigitsValue(RemoveChar(Grouped(n), ',')) == n
  {
    if n < 1000 {
      DigitsShowNat(n);
    } else {
      GroupedDigits(n / 1000);
      RemoveCommaGrouped(n);
      var digits, tail := RemoveChar(Grouped(n / 1000), ','), Pad3(n % 1000);
      DigitsAppend(digits, tail);
      assert Pow10(1) == 10 && Pow10(2) == 100 && Pow10(3) == 1000;
      assert DigitsValue(digits + tail) == n / 1000 * 1000 + n % 1000;
    }
  }

  /** A grouped count parses back to itself. */
  lemma ParseCountGrouped(n: nat)
    ensures ParseCount(Grouped(n)) == Success(n)
  {
    GroupedDigits(n);
    var digits := RemoveChar(Grouped(n), ',');
    assert ParseNat(digits) == Some(n);
  }

  /** Parsing a tally printed with thousands separators gives back both counts. */
  lemma ParseTallyRoundTrip(found: nat, dnf: nat)
    ensures ParseTally(Grouped(found) + " " + Grouped(dnf)) == Success((found, dnf))
  {
    var a, b := Grouped(found), Grouped(dnf);
    TwoTokens(a, b);
    ParseCountGrouped(found);
    ParseCountGrouped(dnf);
  }

  /** Two space-free tokens that start and end with a digit, joined by a space,
      survive the strip and split back into exactly those tokens. */
  lemma TwoTokens(a: string, b: string)
    requires |a| > 0 && |b| > 0 && IsDigit(a[0]) && IsDigit(b[|b| - 1])
    requires Free(a, ' ') && Free(b, ' ')
    ensures TallyTokens(a + " " + b) == [a, b]
  {
    var text := a + [' '] + b;
    assert text[0] == a[0] && text[|text| - 1] == b[|b| - 1];
    StripDigits(text);
    SplitPair(a, b, ' ');
  }

  /** Digits are not whitespace, so a text that starts and ends with one strips to itself. */
  lemma StripDigits(text: string)
    requires |text| > 0 && IsDigit(text[0]) && IsDigit(text[|text| - 1])
    ensures Strip(text) == text
  {
    assert !IsSpace(text[0]) && !IsSpace(text[|text| - 1]);
  }

  lemma SplitPair(a: string, b: string, sep: char)
    requires Free(a, sep) && Free(b, sep)
    ensures Split(a + [sep] + b, sep) == [a, b]
  {
    SplitToken(a, b, sep);
    SplitFree(b, sep);
  }

  /** The tally `"1,234 56"` is the grouped rendering of 1234 and 56, so by
      `ParseTallyRoundTrip` it parses to found = 1234 and did-not-find = 56,
      and by `FoundRateExamples` its rate is the ceiling of 123400 / 1290, 96. */
  lemma TallyExampleText()
    ensures Grouped(1234) + " " + Grouped(56) == "1,234 56"
  {
    GroupedThousands();
    GroupedTens();
  }

  lemma GroupedThousands()
    ensures Grouped(1234) == "1,234"
  {
    PaddedGroup();
    assert Grouped(1) == "1" by {
      assert Digit(1) == '1';
    }
  }

  lemma PaddedGroup()
    ensures Pad3(234) == "234"
  {
    assert Digit(2) == '2' && Digit(3) == '3' && Digit(4) == '4';
  }

  lemma GroupedTens()
    ensures Grouped(56) == "56"
  {
    assert Digit(5) == '5' && Digit(6) == '6';
  }

  lemma MulMono(a: int, b: int, t: nat)
    requires a <= b
    ensures a * t <= b * t
  {
  }

  /** The integer ceiling of `a / b`, and its bound when `a <= 100 * b`. */
  lemma CeilDiv(a: nat, b: nat)
    requires b > 0
    ensures ((a + b - 1) / b) * b >= a
    ensures ((a + b - 1) / b - 1) * b < a
    ensures a <= 100 * b ==> (a + b - 1) / b <= 100
  {
    var n := a + b - 1;
    var q, m := n / b, n % b;
    assert n == q * b + m && 0 <= m < b;
    assert (q - 1) * b == q * b - b;
    if a <= 100 * b && q > 100 {
      MulMono(101, q, b);
    }
  }

  /** The percentage of logs that are finds, rounded up; undefined without logs. */
  function FoundRate(found: nat, dnf: nat): (r: Result<nat, ScrapeError>)
    ensures r.Failure? <==> found + dnf == 0
    ensures r.Failure? ==> r.error == NoLogs
    ensures r.Success? ==> r.value <= 100
    ensures r.Success? ==> r.value * (found + dnf) >= 100 * found
    ensures r.Success? ==> (r.value - 1) * (found + dnf) < 100 * found
  {
    var total := found + dnf;
    if total == 0 then Failure(NoLogs)
    else
      CeilDiv(100 * found, total);
      Success((100 * found + total - 1) / total)
  }

  /** The ceiling is the only value between `100 * found / total` and one above it. */
  lemma FoundRateIsCeiling(found: nat, dnf: nat, x: int)
    requires found + dnf > 0
    requires x * (found + dnf) >= 100 * found && (x - 1) * (found + dnf) < 100 * found
    ensures FoundRate(found, dnf) == Success(x)
  {
    var r := FoundRate(found, dnf).value;
    var t := found + dnf;
    if r < x {
      MulMono(r, x - 1, t);
    } else if r > x {
      MulMono(x, r - 1, t);
    }
  }

  lemma FoundRateExamples()
    ensures FoundRate(1234, 56) == Success(96)
    ensures FoundRate(7, 18) == Success(28)
    ensures FoundRate(0, 0) == Failure(NoLogs)
  {
  }

  /** The hint as stored: cleaned, then decoded; empty when the page has no hint. */
  function DecodedHint(page: Page): (r: string)
    ensures page.hint.None? ==> r == []
    ensures page.hint.Some? ==> r == HintCipher.Decode(CleanHint(page.hint.value))
    ensures page.hint.Some? ==> |r| == |CleanHint(page.hint.value)| <= |page.hint.value|
    ensures forall i :: 0 <= i < |r| ==> !HintCipher.IsUpperLetter(r[i])
  {
    var hint := if page.hint.Some? then CleanHint(page.hint.value) else "";
    HintCipher.Decode(hint)
  }

  /** Everything the detail page contributes to one record. */
  function ScrapePage(page: Page): (r: Result<CacheDetails, ScrapeError>)
    ensures page.logTotals.None? ==> r == Failure(MissingLogTotals)
    ensures page.logTotals.Some? && ParseTally(page.logTotals.value).Failure? ==>
      r == Failure(ParseTally(page.logTotals.value).error)
    ensures page.logTotals.Some? && ParseTally(page.logTotals.value).Success? ==>
      var counts := ParseTally(page.logTotals.value).value;
      (r.Success? <==> counts.0 + counts.1 > 0) && (r.Failure? ==> r.error == NoLogs)
    ensures r.Success? ==>
      && page.logTotals.Some?
      && ParseTally(page.logTotals.value) == Success((r.value.totalFound, r.value.totalDidNotFind))
      && FoundRate(r.value.totalFound, r.value.totalDidNotFind) == Success(r.value.foundRate)
      && r.value.foundRate <= 100
    ensures r.Success? && page.description.None? ==> r.value.description == []
    ensures r.Success? && page.description.Some? ==> r.value.description == CleanDescription(page.description.value)
    ensures r.Success? ==> r.value.hint == DecodedHint(page)
    ensures r.Success? && page.hint.None? ==> r.value.hint == []
    ensures r.Success? && page.hint.Some? ==> |r.value.hint| <= |page.hint.value|
    ensures r.Success? ==> forall i :: 0 <= i < |r.value.hint| ==> !HintCipher.IsUpperLetter(r.value.hint[i])
  {
    var description := if page.description.Some? then CleanDescription(page.description.value) else "";
    var decoded := DecodedHint(page);
    if page.logTotals.None? then Failure(MissingLogTotals)
    else
      var counts :- ParseTally(page.logTotals.value);
      var rate :- FoundRate(counts.0, counts.1);
      Success(CacheDetails(description, decoded, counts.0, counts.1, rate))
  }

  /** The outcome of scraping the page a record's code points to. */
  function PageOf(row: Record, fetch: string -> Page): (r: Result<CacheDetails, ScrapeError>)
    ensures var page := fetch(CacheUrl + row.cacheCode);
      && (page.logTotals.None? ==> r == Failure(MissingLogTotals))
      && (r.Success? ==> page.logTotals.Some?)
  {
    ScrapePage(fetch(PageUrl(row.cacheCode)))
  }

  /** Everything a record receives comes from its own page: the tally, the
      rate of that tally, the cleaned description and the decoded hint. */
  lemma PageOfTally(row: Record, fetch: string -> Page)
    requires PageOf(row, fetch).Success?
    ensures var page := fetch(CacheUrl + row.cacheCode);
      var d := PageOf(row, fetch).value;
      && page.logTotals.Some?
      && ParseTally(page.logTotals.value) == Success((d.totalFound, d.totalDidNotFind))
      && FoundRate(d.totalFound, d.totalDidNotFind) == Success(d.foundRate)
      && d.description == (if page.description.Some? then CleanDescription(page.description.value) else [])
      && d.hint == DecodedHint(page)
  {
  }

  /** A record's page scrape succeeds or fails exactly as its own page does,
      with that page's error. */
  lemma PageOfFailure(row: Record, fetch: string -> Page)
    ensures var page := fetch(CacheUrl + row.cacheCode);
      && (PageOf(row, fetch).Success? <==> ScrapePage(page).Success?)
      && (PageOf(row, fetch).Failure? ==> PageOf(row, fetch).error == ScrapePage(page).error)
  {
  }

  /** Scraping a record's own page, as a function value. */
  function PageScraper(fetch: string -> Page): Record -> Result<CacheDetails, ScrapeError> {
    (row: Record) => PageOf(row, fetch)
  }

  /** The detail loop: each record in order gets its page's details; the first
      page that cannot be scraped aborts the whole stage with its error. */
  function EnrichAll(rows: seq<Record>, fetch: string -> Page): (r: Result<seq<Record>, ScrapeError>)
    ensures r.Success? <==> forall k :: 0 <= k < |rows| ==> PageOf(rows[k], fetch).Success?
    ensures r.Success? ==> |r.value| == |rows| && forall k :: 0 <= k < |rows| ==>
      r.value[k] == rows[k].(details := Some(PageOf(rows[k], fetch).value))
  {
    EnrichWith(rows, PageScraper(fetch))
  }

  /** The same loop for any way of scraping one record. */
  function EnrichWith(rows: seq<Record>, scrape: Record -> Result<CacheDetails, ScrapeError>): (r: Result<seq<Record>, ScrapeError>)
    ensures r.Success? <==> forall k :: 0 <= k < |rows| ==> scrape(rows[k]).Success?
    ensures r.Success? ==> |r.value| == |rows| && forall k :: 0 <= k < |rows| ==>
      r.value[k] == rows[k].(details := Some(scrape(rows[k]).value))
  {
    if |rows| == 0 then Success([])
    else
      AllScrapedCons(rows, scrape);
      var details :- scrape(rows[0]);
      var rest :- EnrichWith(rows[1..], scrape);
      Success([rows[0].(details := Some(details))] + rest)
  }

  lemma AllScrapedCons(rows: seq<Record>, scrape: Record -> Result<CacheDetails, ScrapeError>)
    requires |rows| > 0
    ensures (forall k :: 0 <= k < |rows| ==> scrape(rows[k]).Success?) <==>
      scrape(rows[0]).Success? && forall k :: 0 <= k < |rows[1..]| ==> scrape(rows[1..][k]).Success?
  {
    if scrape(rows[0]).Success? && forall k :: 0 <= k < |rows[1..]| ==> scrape(rows[1..][k]).Success? {
      forall k | 0 <= k < |rows| ensures scrape(rows[k]).Success? {
        if k > 0 {
          assert rows[k] == rows[1..][k - 1];
        }
      }
    }
  }

  /** Row `k` is the first whose scrape fails. */
  ghost predicate FirstFailure(rows: seq<Record>, scrape: Record -> Result<CacheDetails, ScrapeError>, k: int) {
    && 0 <= k < |rows|
    && scrape(rows[k]).Failure?
    && forall j :: 0 <= j < k ==> scrape(rows[j]).Success?
  }

  /** A failed detail stage reports the error of the first page that could not be scraped. */
  lemma EnrichAllFailsAtFirst(rows: seq<Record>, fetch: string -> Page)
    requires EnrichAll(rows, fetch).Failure?
    ensures exists k :: FirstFailure(rows, PageScraper(fetch), k) && PageOf(rows[k], fetch) == Failure(EnrichAll(rows, fetch).error)
  {
    EnrichWithFailsAtFirst(rows, PageScraper(fetch));
  }

  lemma {:induction false} EnrichWithFailsAtFirst(rows: seq<Record>, scrape: Record -> Result<CacheDetails, ScrapeError>)
    requires EnrichWith(rows, scrape).Failure?
    ensures exists k :: FirstFailure(rows, scrape, k) && scrape(rows[k]) == Failure(EnrichWith(rows, scrape).error)
  {
    if scrape(rows[0]).Success? {
      EnrichWithFailsAtFirst(rows[1..], scrape);
      var k :| FirstFailure(rows[1..], scrape, k) && scrape(rows[1..][k]) == Failure(EnrichWith(rows[1..], scrape).error);
      assert scrape(rows[k + 1]) == Failure(EnrichWith(rows, scrape).error);
      forall j | 0 <= j < k + 1 ensures scrape(rows[j]).Success? {
        if j > 0 {
          assert rows[j] == rows[1..][j - 1];
        }
      }
      assert FirstFailure(rows, scrape, k + 1);
    } else {
      assert FirstFailure(rows, scrape, 0);
    }
  }
}
