/** The scraper run: `scrape_table_data`, then `scrape_cache_desc`, then
    `clean_files_before_export`, each stage fed the previous stage's table. */
module Scraper {
  import opened Wrappers
  import opened Text
  import opened Seqs
  import opened Records
  import opened Listing
  import opened Regions
  import opened Details

  /** The listing stage: normalise the non-premium entries, resolve their areas
      and drop the records outside every polygon. With no non-premium entry the
      area column is never created and the area filter fails. */
  function ScrapeTable<G>(results: seq<Entry>, regions: seq<Region<G>>, contains: (G, Point) -> bool): (r: Result<seq<Record>, ScrapeError>)
    ensures r.Failure? <==> forall i :: 0 <= i < |results| ==> results[i].premiumOnly
    ensures r.Failure? ==> r.error == NoListings
    ensures r.Success? ==> forall k :: 0 <= k < |r.value| ==> HasArea(r.value[k], regions)
  {
    var rows := ScrapeEntries(results);
    NoRowsIffAllPremium(results);
    if |rows| == 0 then
      Failure(NoListings)
    else
      var kept := DropNil(AssignRegions(rows, regions, contains));
      KeptHaveArea(rows, regions, contains);
      Success(kept)
  }

  /** The listing stage yields no row exactly when every entry is premium-only. */
  lemma NoRowsIffAllPremium(results: seq<Entry>)
    ensures |ScrapeEntries(results)| == 0 <==> forall i :: 0 <= i < |results| ==> results[i].premiumOnly
  {
    ScrapeEntriesKeepsNonPremium(results);
    var idx := Kept(IsListed, results);
    if |idx| > 0 {
      assert idx[0] in idx;
      assert !results[idx[0]].premiumOnly;
    } else {
      forall i | 0 <= i < |results| ensures results[i].premiumOnly {
        assert i !in idx;
      }
    }
  }

  /** Region resolution followed by the "NIL" filter leaves only records in a named polygon. */
  lemma KeptHaveArea<G>(rows: seq<Record>, regions: seq<Region<G>>, contains: (G, Point) -> bool)
    requires forall k :: 0 <= k < |rows| ==> HasHostUrl(rows[k])
    ensures var kept := DropNil(AssignRegions(rows, regions, contains));
      forall k :: 0 <= k < |kept| ==> HasArea(kept[k], regions)
  {
    var located := AssignRegions(rows, regions, contains);
    var kept := DropNil(located);
    forall k | 0 <= k < |kept| ensures HasArea(kept[k], regions) {
      assert kept[k] in located;
      var j :| 0 <= j < |located| && located[j] == kept[k];
      AssignedAreaIsKnown(rows, regions, contains, j);
      assert kept[k].detailsUrl == rows[j].detailsUrl;
    }
  }

  /** A record that survived region resolution: its area is the name of a
      loaded polygon, never "NIL", and its detail URL starts with the host. */
  ghost predicate HasArea<G>(r: Record, regions: seq<Region<G>>) {
    && r.planningArea.Some?
    && r.planningArea.value != Nil
    && (exists i :: 0 <= i < |regions| && r.planningArea.value == regions[i].name)
    && HasHostUrl(r)
  }

  /** A record survives the final cleanup when its URL is not blank. */
  predicate HasUrl(r: Record) {
    Strip(r.detailsUrl) != []
  }

  /** The final cleanup: keep the records whose URL is not blank, in order. */
  function Clean(rows: seq<Record>): (out: seq<Record>)
    ensures forall k :: 0 <= k < |out| ==> Strip(out[k].detailsUrl) != []
    ensures forall k :: 0 <= k < |rows| && Strip(rows[k].detailsUrl) != [] ==> rows[k] in out
  {
    Filter(HasUrl, rows)
  }

  /** The whole run. Pages are looked up by URL; the first stage that fails
      ends the run with its error. */
  function Run<G>(results: seq<Entry>, regions: seq<Region<G>>, contains: (G, Point) -> bool, fetch: string -> Page): (r: Result<seq<Record>, ScrapeError>)
    ensures ScrapeTable(results, regions, contains).Failure? ==> r == Failure(NoListings)
    ensures ScrapeTable(results, regions, contains).Success? ==>
      var enriched := EnrichAll(ScrapeTable(results, regions, contains).value, fetch);
      && (enriched.Failure? ==> r == Failure(enriched.error))
      && (enriched.Success? ==> r == Success(enriched.value))
  {
    var table :- ScrapeTable(results, regions, contains);
    var enriched :- EnrichAll(table, fetch);
    CleanKeepsScraped(results, regions, contains, fetch);
    Success(Clean(enriched))
  }

  /** The cleanup keeps exactly the records with a non-blank URL, in their original order. */
  lemma CleanKeepsOrder(rows: seq<Record>)
    ensures |Clean(rows)| == |Kept(HasUrl, rows)|
    ensures StrictlyIncreasing(Kept(HasUrl, rows))
    ensures forall i :: 0 <= i < |rows| ==> (i in Kept(HasUrl, rows) <==> Strip(rows[i].detailsUrl) != [])
    ensures forall k :: 0 <= k < |Clean(rows)| ==>
      Kept(HasUrl, rows)[k] < |rows| && Clean(rows)[k] == rows[Kept(HasUrl, rows)[k]]
  {
    KeptExactly(HasUrl, rows);
    FilterIsKept(HasUrl, rows);
  }

  /** The row an entry becomes once normalised and located. */
  function Located<G>(regions: seq<Region<G>>, contains: (G, Point) -> bool): Entry -> Record {
    (e: Entry) => Normalise(e).(planningArea := Some(ResolveRegion(regions, contains, Locate(Normalise(e)))))
  }

  /** An entry reaches the table when it is not premium-only and some polygon contains its point. */
  function Survives<G>(regions: seq<Region<G>>, contains: (G, Point) -> bool): Entry -> bool {
    (e: Entry) => !e.premiumOnly && ResolveRegion(regions, contains, Locate(Normalise(e))) != Nil
  }

  /** The listing stage, as one selection: the table is the located rows of
      exactly those entries that are not premium-only and lie inside some
      polygon, in source order. */
  lemma ScrapeTableSelects<G>(results: seq<Entry>, regions: seq<Region<G>>, contains: (G, Point) -> bool)
    requires ScrapeTable(results, regions, contains).Success?
    ensures ScrapeTable(results, regions, contains).value ==
      Map(Located(regions, contains), Filter(Survives(regions, contains), results))
  {
    var listed := Filter(IsListed, results);
    var rows := ScrapeEntries(results);
    assert rows == Map(Normalise, listed);
    var area := (r: Record) => r.(planningArea := Some(ResolveRegion(regions, contains, Locate(r))));
    var located := AssignRegions(rows, regions, contains);
    assert located == Map(area, rows);
    MapMap(Normalise, area, Located(regions, contains), listed);
    var inside := (e: Entry) => ResolveRegion(regions, contains, Locate(Normalise(e))) != Nil;
    FilterMap(InArea, Located(regions, contains), inside, listed);
    FilterFilter(IsListed, inside, Survives(regions, contains), results);
  }

  /** On scraped data the cleanup removes nothing: every URL starts with the host. */
  lemma {:induction false} CleanKeepsScraped<G>(results: seq<Entry>, regions: seq<Region<G>>, contains: (G, Point) -> bool, fetch: string -> Page)
    requires ScrapeTable(results, regions, contains).Success?
    requires EnrichAll(ScrapeTable(results, regions, contains).value, fetch).Success?
    ensures var enriched := EnrichAll(ScrapeTable(results, regions, contains).value, fetch).value;
      Clean(enriched) == enriched
  {
    var table := ScrapeTable(results, regions, contains).value;
    var enriched := EnrichAll(table, fetch).value;
    forall k | 0 <= k < |enriched| ensures HasUrl(enriched[k]) {
      assert enriched[k].detailsUrl == table[k].detailsUrl;
      assert HasArea(table[k], regions);
    }
    FilterAllPass(HasUrl, enriched);
  }

  /** What a successful run delivers: every record lies in a named polygon
      (never "NIL"), carries a host-prefixed URL and the details of its own
      page, with a found rate between 0 and 100, and the records are the
      listing table's rows in order, otherwise unchanged. */
  lemma RunDelivers<G>(results: seq<Entry>, regions: seq<Region<G>>, contains: (G, Point) -> bool, fetch: string -> Page)
    requires Run(results, regions, contains, fetch).Success?
    ensures var out := Run(results, regions, contains, fetch).value;
      && |out| == |ScrapeTable(results, regions, contains).value|
      && forall k :: 0 <= k < |out| ==>
        && HasArea(out[k], regions)
        && out[k].details == Some(PageOf(ScrapeTable(results, regions, contains).value[k], fetch).value)
        && out[k].details.value.foundRate <= 100
        && out[k].details.value.totalFound + out[k].details.value.totalDidNotFind > 0
        && out[k] == ScrapeTable(results, regions, contains).value[k].(details := out[k].details)
  {
    var table := ScrapeTable(results, regions, contains).value;
    var out := Run(results, regions, contains, fetch).value;
    assert out == EnrichAll(table, fetch).value;
    forall k | 0 <= k < |out|
      ensures HasArea(out[k], regions) && out[k].details == Some(PageOf(table[k], fetch).value)
      ensures out[k].details.value.foundRate <= 100
      ensures out[k].details.value.totalFound + out[k].details.value.totalDidNotFind > 0
      ensures out[k] == table[k].(details := out[k].details)
    {
      EnrichedRow(table, regions, fetch, k);
    }
  }

  /** One row of the detail stage: the listing row with its own page's details. */
  lemma EnrichedRow<G>(table: seq<Record>, regions: seq<Region<G>>, fetch: string -> Page, k: int)
    requires EnrichAll(table, fetch).Success? && 0 <= k < |table| && HasArea(table[k], regions)
    ensures var row := EnrichAll(table, fetch).value[k];
      && HasArea(row, regions)
      && row.details == Some(PageOf(table[k], fetch).value)
      && row.details.value.foundRate <= 100
      && row.details.value.totalFound + row.details.value.totalDidNotFind > 0
      && row == table[k].(details := row.details)
  {
    var d := PageOf(table[k], fetch).value;
    assert EnrichAll(table, fetch).value[k] == table[k].(details := Some(d));
    assert FoundRate(d.totalFound, d.totalDidNotFind).Success?;
  }

  /** A run fails exactly when every entry is premium-only or some page of the
      resolved table cannot be scraped. */
  lemma RunFails<G>(results: seq<Entry>, regions: seq<Region<G>>, contains: (G, Point) -> bool, fetch: string -> Page)
    ensures var table := ScrapeTable(results, regions, contains);
      Run(results, regions, contains, fetch).Failure? <==>
        || (forall i :: 0 <= i < |results| ==> results[i].premiumOnly)
        || (table.Success? && exists k :: 0 <= k < |table.value| && PageOf(table.value[k], fetch).Failure?)
  {
    var table := ScrapeTable(results, regions, contains);
    if table.Success? {
      var enriched := EnrichAll(table.value, fetch);
      assert Run(results, regions, contains, fetch).Failure? <==> enriched.Failure?;
    }
  }
}
