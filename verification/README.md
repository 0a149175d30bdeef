# sg-geocaches scraper core, in Dafny

This project models the record-transformation logic of `GeocacheScraper` in
`Scraper.py`. The scraper reads the geocaching search results and builds one
record per non-premium cache. Each record gets:

- readable type and container labels;
- a host-prefixed detail URL;
- date-only timestamps;
- a planning area, found by a first-match scan over the area polygons.

Records outside every polygon (area `"NIL"`) are dropped. The detail page of
each remaining record is then read: the description is cleaned, the
ROT13-encoded hint is decoded, and the log tally is parsed into found and
did-not-find counts with a ceiling-rounded found rate. A final filter keeps
the records whose URL is not blank.

The model is functional. The results table is a `seq<Entry>`, the data frame
a `seq<Record>`, and every stage a pure function returning a `Result`, whose
`Failure` case is the exception the Python code would raise:

| failure | Python exception | where |
|---|---|---|
| `NoListings` | `KeyError` | every result is premium-only, so the `planning_area` column is never created (line 131) |
| `MissingLogTotals` | `IndexError` | the page has no log-totals list |
| `TooFewTallyTokens` | `IndexError` | the tally has only one token |
| `NotANumber(token)` | `ValueError` | from `int()` |
| `NoLogs` | `ZeroDivisionError` | found + did-not-find is zero |

The outside world enters as parameters:

- Polygon containment is a function `contains(geometry, point)` over an
  ordered list of named regions.
- Fetching and parsing a detail page is a function `fetch(url)` that returns
  the text of the three anchors the scraper reads, each `None` when the page
  lacks it.

Modules: `Wrappers` (Option/Result), `Text` (the Python `str` operations used:
`strip`, `split`, `replace`, `int`), `Seqs` (order-preserving filter and its
kept indices), `HintCipher`, `CacheTypes`, `Records`, `Listing`, `Regions`,
`Details` and `Scraper` (the three stages chained).

Two behaviours of the code worth knowing:

- The unwrap pass after the type lookup takes element 0 of every cell. A
  known code's cell is a one-element list, so the full label survives. An
  unknown code's cell is the bare string `"other"`, so it becomes `"o"`.
  Container code 6 keeps its full label `"other"`, because that `"other"` comes
  from the table. The model keeps this behaviour (`CacheTypes.Label`).
- The tally `"1,234 56"` gives 1234 found and 56 not found, and a found rate
  of `ceil(100 * 1234 / 1290) = ceil(95.66…) = 96` (`Details.TallyExampleText`,
  `Details.FoundRateExamples`).

## Model

| member | source | states |
|---|---|---|
| HintCipher.DecryptionKeysAreRot13 | Scraper.py:33-39 | the key table has exactly the 26 lower-case letters as keys and maps each to its ROT13 partner |
| HintCipher.DecodeChar | Scraper.py:162-167 | a character is lower-cased; a lower-case letter is then rotated by 13, anything else passes unchanged; the output is never an upper-case letter |
| HintCipher.Lower | Scraper.py:163 | an upper-case ASCII letter becomes the lower-case letter at the same alphabet position; every other character is unchanged; the result is never upper-case |
| HintCipher.Decode | Scraper.py:161-167 | the decoded hint has the hint's length, and its i-th character is the ROT13 partner of the lower-cased i-th character when that is a letter, else the lower-cased character itself |
| HintCipher.DecodeHint | Scraper.py:161-167 | the accumulating loop produces a string of the hint's length whose i-th character is the rotation of the lower-cased i-th input letter, or the lower-cased character itself |
| HintCipher.DecodeTwiceIsLower | Scraper.py:33-39 | since the table is symmetric, decoding twice is the same as lower-casing |
| HintCipher.DecodeIsInvolutionOnDecoded | Scraper.py:161-167 | on an already decoded hint, decoding is its own inverse |
| HintCipher.DecodeKeepsNonLetters | Scraper.py:164-165 | a character that is not a letter stays at its position |
| HintCipher.DecodeExample | Scraper.py:161-167 | `"Pcf vf uneq"` decodes to `"cps is hard"` |
| CacheTypes.Lookup | Scraper.py:89-99 | a code in the table gives a one-element list of its label; any other code gives the bare fallback `"other"` |
| CacheTypes.Unwrap | Scraper.py:103-104 | taking element 0 gives a list's label, or only the first character of a bare string |
| CacheTypes.Label | Scraper.py:89-104 | after lookup and unwrap, a known code has its table label and an unknown code has `"o"` |
| CacheTypes.GeocacheLabelO | Scraper.py:89-103 | a geocache kind label is `"o"` if and only if the code is not in the kind table |
| CacheTypes.ContainerLabelO | Scraper.py:95-104 | a container label is `"o"` if and only if the code is unknown; listed code 6 yields the full `"other"`, unlisted code 7 yields `"o"` |
| Listing.HostUrl | Scraper.py:109 | the detail URL is the host followed by the raw path, so it is never blank after stripping |
| Listing.CutDate | Scraper.py:112-113 | the date is a prefix of the timestamp without any `T`; when the stamp contains a `T` the cut is exactly at the first one; a stamp without `T`, the empty one included, is kept whole |
| Listing.Normalise | Scraper.py:72-113 | a row copies id, code, name, latitude, longitude, difficulty, terrain, favourite points, trackable count, owner code and owner name; its URL is the host followed by the entry's path; its dates are `CutDate` of the entry's dates; its type labels are the table label or `"o"`; it has no area or details yet |
| Listing.ScrapeEntries | Scraper.py:70-109 | at most one row per result, each with a URL that starts with the host and is not blank, and no area yet |
| Listing.ScrapeEntriesKeepsNonPremium | Scraper.py:70-71 | an entry gives a row exactly when it is not premium-only; the source indices of the rows are strictly increasing; row k is the normalised k-th non-premium entry |
| Listing.ScrapeEntriesScenario | Scraper.py:70-71 | of three entries with the middle one premium-only, entries 0 and 2 are kept in that order and give two rows |
| Regions.Locate | Scraper.py:119 | a record's point has x the longitude and y the latitude |
| Regions.FirstContaining | Scraper.py:121-126 | the scan stops at the first polygon, from a start position on, that contains the point, and no polygon before it does |
| Regions.ResolveRegion | Scraper.py:118-128 | with no containing polygon the area is `"NIL"`; otherwise it is the name of the first containing polygon in load order |
| Regions.ResolveRegionLoop | Scraper.py:120-128 | the loop with its `found` flag and `break` gives the same first-match-or-`"NIL"` result |
| Regions.ResolveRegionIsFirstMatch | Scraper.py:121-126 | whenever polygon i is the first to contain the point, the area is polygon i's name |
| Regions.AssignRegions | Scraper.py:118-128 | each record, in place and in order, gets the area resolved from its own point and nothing else changes |
| Regions.AssignedAreaIsKnown | Scraper.py:118-128 | every assigned area is the name of a loaded polygon or `"NIL"` |
| Regions.DropNil | Scraper.py:131 | no survivor has area `"NIL"`, and every record with another area survives |
| Regions.DropNilKeepsOrder | Scraper.py:131 | the survivors are exactly the non-`"NIL"` records, in their original relative order |
| Details.PageUrl | Scraper.py:148 | the page requested for a code is the cache URL followed by the code |
| Details.CleanDescription | Scraper.py:152-154 | the description keeps its length, with every non-breaking space and newline turned into a space and every other character kept |
| Details.CleanHint | Scraper.py:157-159 | the cleaned hint is a piece of the text after one pass removing CR-LF pairs, with only whitespace around it and no whitespace at either end of its own, so it is no longer than the raw text |
| Details.DecodedHint | Scraper.py:157-167 | a missing hint gives `""`; otherwise the stored hint is the decoding of the cleaned hint, with the cleaned hint's length (so no longer than the raw hint), and contains no upper-case letter |
| Details.ParseCount | Scraper.py:173-174 | a token that does not parse is reported as that token's error |
| Details.ParseCountDigits | Scraper.py:173-174 | a token parses exactly when, with its commas removed, it is a non-empty digit string, and its value is that digit string's value |
| Details.ParseTally | Scraper.py:172-174 | the stripped text is split on spaces; a bad first token is reported before a missing second one; a bad second token is reported as that token's error; the parse succeeds exactly when both of the first two tokens parse, with those two values |
| Details.TallyTokens | Scraper.py:172 | the stripped and split tally has at least one token and no token contains a space |
| Details.TallyTokensJoin | Scraper.py:172 | the tokens joined with single spaces give the stripped text back, so with the split round trip they are exactly the stripped text cut at its spaces |
| Details.ParseTallyRoundTrip | Scraper.py:172-174 | any two counts printed with thousands separators and joined by a space parse back to the same two counts |
| Details.TallyExampleText | Scraper.py:172-174 | the tally text `"1,234 56"` is the grouped rendering of 1234 and 56, so it parses to those counts |
| Details.FoundRate | Scraper.py:179 | without logs the rate is the division-by-zero error; otherwise it is the least integer at or above 100·found/(found+dnf), between 0 and 100 |
| Details.FoundRateIsCeiling | Scraper.py:179 | the ceiling is unique: any integer x with x·total ≥ 100·found > (x−1)·total is the rate |
| Details.FoundRateExamples | Scraper.py:179 | 1234 found and 56 not found give 96; 7 and 18 give 28; 0 and 0 fail with the division error |
| Details.ScrapePage | Scraper.py:151-179 | a page without a log-totals list fails with that error; otherwise a tally that does not parse fails with the tally's error; a parsed tally succeeds exactly when its counts are not both zero, and fails with the division error when they are; on success the page carries the parsed tally and its found rate (at most 100), the cleaned description (empty when the anchor is missing) and the decoded hint |
| Details.PageOf | Scraper.py:147-149 | the page read for a record is the one at the cache URL followed by the record's code; a page without a log-totals list fails |
| Details.PageOfTally | Scraper.py:147-179 | everything a record receives comes from its own page, the one at the cache URL followed by its code: the counts are that page's parsed tally, the rate is their found rate, the description is the page's cleaned description (empty when missing) and the hint is the page's decoded hint |
| Details.PageOfFailure | Scraper.py:147-179 | a record's page scrape succeeds exactly when scraping its own page, the one at the cache URL followed by its code, succeeds, and a failure carries that page's error: a missing log-totals list, a too-short or unparsable tally, or no logs |
| Details.EnrichAll | Scraper.py:146-179 | the detail stage succeeds exactly when every record's page scrapes; then row k is record k with the details of its own page, and the length is unchanged |
| Details.EnrichAllFailsAtFirst | Scraper.py:146-179 | a failed detail stage reports the error of the first record whose page could not be scraped |
| Scraper.ScrapeTable | Scraper.py:65-131 | the listing stage fails with the column error exactly when every result is premium-only; otherwise every row has a non-`"NIL"` area naming a loaded polygon and a non-blank URL that starts with the host |
| Scraper.ScrapeTableSelects | Scraper.py:70-131 | a successful listing stage is exactly the normalised and located rows of the entries that are not premium-only and lie in some polygon, in source order |
| Scraper.NoRowsIffAllPremium | Scraper.py:70-71 | normalisation yields no row if and only if every result is premium-only |
| Scraper.KeptHaveArea | Scraper.py:118-131 | after area resolution and the `"NIL"` filter, each record's area is the name of a loaded polygon and not `"NIL"` |
| Scraper.Clean | Scraper.py:185 | the cleanup keeps only records with a non-blank URL, and keeps every such record |
| Scraper.CleanKeepsOrder | Scraper.py:185-187 | the cleanup's output is the records whose URL is not blank, each unchanged and in original order, and no other record |
| Scraper.CleanKeepsScraped | Scraper.py:185-187 | on the scraped and enriched table the cleanup removes nothing |
| Scraper.Run | Scraper.py:194-197 | a run fails with the listing stage's error or the detail stage's error, whichever stage fails first; otherwise it returns the enriched table unchanged, since the cleanup removes nothing |
| Scraper.RunDelivers | Scraper.py:194-197 | a successful run gives one record per row of the listing stage, in order, each with a named area, a URL that starts with the host, the details scraped from its own page with a positive log count and a found rate of at most 100, and otherwise unchanged |
| Scraper.RunFails | Scraper.py:194-197 | a run fails exactly when every result is premium-only or some page of the resolved table cannot be scraped |
| Text.Strip | Scraper.py:159 | the result is a piece of the text with only whitespace before and after it and no whitespace at its own ends; it is empty exactly when the text is blank, and text without whitespace at its ends is unchanged |
| Text.StripUnique | Scraper.py:159 | any piece of the text with only whitespace around it and no whitespace at its own ends is the stripped text, so the contract of `Strip` determines it |
| Text.Split | Scraper.py:172 | every token is free of the separator, and the first token is the text up to the first separator |
| Text.JoinSplit | Scraper.py:172 | joining the tokens of a split with the separator gives the text back |
| Text.SplitJoin | Scraper.py:172 | splitting a join of separator-free tokens gives the tokens back |
| Text.RemoveChar | Scraper.py:173 | the result is the text's other characters in their order, so it contains no occurrence of the removed character, and text without it is unchanged |
| Text.ReplaceChar | Scraper.py:154 | the result keeps the text's length; at each position the replaced character becomes the replacement and every other character is kept |
| Text.RemoveCrLf | Scraper.py:159 | removing CR-LF pairs shortens the text by an even count and leaves text without CR, or without LF, unchanged |
| Text.RemoveCrLfAppend | Scraper.py:159 | the removal works piecewise: cutting the text anywhere except inside a CR-LF pair and removing from each piece gives the same result |
| Text.RemoveCrLfDropsPair | Scraper.py:159 | a CR-LF pair between two pieces is removed and each piece is handled on its own |
| Text.RemoveCrLfSinglePass | Scraper.py:159 | the removal is one left-to-right pass: `"\r\r\n\n"` becomes `"\r\n"` |
| Text.ParseNat | Scraper.py:173 | `int()` on a plain digit string succeeds exactly when the string is non-empty and all digits |
| Text.ParseShowNat | Scraper.py:173 | parsing the decimal rendering of a number gives that number |

## Left out

- HTTP requests, cookies and headers (`requests.get`, and `data.py`, which is
  only configuration): the search results are an input sequence and detail
  pages come from the `fetch` parameter.
- HTML parsing with BeautifulSoup: a page is the text of its three anchors.
- Loading polygons with geopandas, and shapely's `contains`: these are the
  ordered `regions` list and the `contains` parameter.
- pandas mechanics (`reset_index`, `drop`, `reindex`, column order) and the
  `last_found_time` column, which is never filled: records are a datatype and
  the frame is a sequence in row order.
- JSON export, `print` logging and the module-level script beyond the order of
  its three calls.
- Details.FoundRate: uses exact integer ceiling. The source's floating-point
  `math.ceil((found/(found+dnf))*100)` can come out one higher (7 found and 18
  not found give 29, against the exact 28).
- Details.ParseCount: reads plain digit strings only. Python's `int()` also
  accepts a sign, underscores between digits, surrounding whitespace and
  non-ASCII digits.
- HintCipher.DecodeChar: lower-cases ASCII letters only. Python's `str.lower`
  also maps some non-ASCII characters to ASCII letters (the Kelvin sign U+212A
  becomes `k`, which the table then turns into `x`), and maps some to two
  characters (U+0130 becomes `i` plus a combining dot), so on such hints the
  Python output differs and can be longer than the input.
- HintCipher.Lower: the same restriction; only `A`–`Z` are lower-cased.
- HintCipher.Decode: inherits that restriction from `Lower`.
- Text.Strip: treats as whitespace only the characters up to U+00FF that Python
  strips, not the rest of Unicode.
- Listing.Normalise: favourite points, difficulty and terrain are stored as
  one-element tuples and unwrapped again at lines 102-106, which is the
  identity, so they are copied. Coordinates and ratings are reals.
- Listing.CutDate: the `str(x)` conversion of a missing date (`None` becomes
  `"None"`) is not modelled. Dates and URL paths are always strings here.
