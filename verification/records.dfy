/** The data model: one search-result entry as the search endpoint returns it,
    the record the scraper builds from it, and the errors that abort a run. */
module Records {
  import opened Wrappers

  /** One element of the search response's `results` list. The nested
      `postedCoordinates` and `owner` objects are flattened into fields;
      decimal values (ratings, coordinates) are carried as opaque reals. */
  datatype Entry = Entry(
    id: int,
    code: string,
    name: string,
    premiumOnly: bool,
    favoritePoints: int,
    difficulty: real,
    terrain: real,
    latitude: real,
    longitude: real,
    detailsUrl: string,
    placedDate: string,
    lastFoundDate: string,
    ownerUsername: string,
    ownerCode: string,
    trackableCount: int,
    geocacheType: int,
    containerType: int
  )

  /** What the detail page adds to a record. */
  datatype CacheDetails = CacheDetails(
    description: string,
    hint: string,
    totalFound: nat,
    totalDidNotFind: nat,
    foundRate: nat
  )

  /** One row of the scraper's table. `planningArea` is absent until region
      resolution runs, and `details` until the detail page is scraped. */
  datatype Record = Record(
    cacheId: int,
    cacheCode: string,
    name: string,
    geocacheType: string,
    containerType: string,
    difficulty: real,
    terrain: real,
    favoritePoints: int,
    trackableCount: int,
    latitude: real,
    longitude: real,
    planningArea: Option<string>,
    ownerId: string,
    ownerName: string,
    placedDate: string,
    lastFoundDate: string,
    detailsUrl: string,
    details: Option<CacheDetails>
  )

  /** The exceptions that end a scraper run. */
  datatype ScrapeError =
    | NoListings                 // no non-premium entry: the region column is never created (KeyError)
    | MissingLogTotals           // the page has no log-totals list (IndexError)
    | TooFewTallyTokens          // the tally text splits into fewer than two tokens (IndexError)
    | NotANumber(token: string)  // a tally token is not a decimal number (ValueError)
    | NoLogs                     // found and not-found are both zero (ZeroDivisionError)
}
