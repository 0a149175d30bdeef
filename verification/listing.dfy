/** The per-entry normalisation of `scrape_table_data`: the premium filter,
    field copying, type labels, the host prefix and the date cut. */
module Listing {
  import opened Wrappers
  import opened Text
  import opened Seqs
  import opened Records
  import CacheTypes

  /** The host put in front of every relative detail-page path. */
  const Host: string := "www.geocaching.com"

  /** The detail URL of a record: the host followed by the raw path. */
  function HostUrl(path: string): (url: string)
    ensures |url| == |Host| + |path| && url[..|Host|] == Host && url[|Host|..] == path
    ensures Strip(url) != []
  {
    var url := Host + path;
    assert !IsSpace(url[0]);
    url
  }

  /** A timestamp cut at its first `T`: the date part of `2019-05-04T00:00:00`. */
  function CutDate(stamp: string): (date: string)
    ensures |date| <= |stamp| && date == stamp[..|date|]
    ensures Free(date, 'T')
    ensures !Free(stamp, 'T') ==> |date| < |stamp| && stamp[|date|] == 'T'
    ensures Free(stamp, 'T') ==> date == stamp
  {
    if |stamp| > 0 then Split(stamp, 'T')[0] else stamp
  }

  /** The record's detail URL starts with the host, so it is not blank. */
  predicate HasHostUrl(r: Record) {
    |r.detailsUrl| >= |Host| && r.detailsUrl[..|Host|] == Host && Strip(r.detailsUrl) != []
  }

  /** A result entry enters the table only when it is not premium-only. */
  predicate IsListed(e: Entry) {
    !e.premiumOnly
  }

  /** The table row built for one non-premium entry, after the unwrap pass,
      the URL prefixing and the date cut. */
  function Normalise(e: Entry): (r: Record)
    ensures r.cacheCode == e.code && r.cacheId == e.id && r.name == e.name
    ensures r.latitude == e.latitude && r.longitude == e.longitude
    ensures r.difficulty == e.difficulty && r.terrain == e.terrain
    ensures r.favoritePoints == e.favoritePoints && r.trackableCount == e.trackableCount
    ensures r.ownerId == e.ownerCode && r.ownerName == e.ownerUsername
    ensures |r.detailsUrl| >= |Host| && r.detailsUrl[..|Host|] == Host && r.detailsUrl[|Host|..] == e.detailsUrl
    ensures r.placedDate == CutDate(e.placedDate) && r.lastFoundDate == CutDate(e.lastFoundDate)
    ensures e.geocacheType in CacheTypes.GeocacheTypes ==> r.geocacheType == CacheTypes.GeocacheTypes[e.geocacheType]
    ensures e.geocacheType !in CacheTypes.GeocacheTypes ==> r.geocacheType == "o"
    ensures e.containerType in CacheTypes.ContainerTypes ==> r.containerType == CacheTypes.ContainerTypes[e.containerType]
    ensures e.containerType !in CacheTypes.ContainerTypes ==> r.containerType == "o"
    ensures r.planningArea == None && r.details == None
  {
    Record(
      cacheId := e.id,
      cacheCode := e.code,
      name := e.name,
      geocacheType := CacheTypes.Label(CacheTypes.GeocacheTypes, e.geocacheType),
      containerType := CacheTypes.Label(CacheTypes.ContainerTypes, e.containerType),
      difficulty := e.difficulty,
      terrain := e.terrain,
      favoritePoints := e.favoritePoints,
      trackableCount := e.trackableCount,
      latitude := e.latitude,
      longitude := e.longitude,
      planningArea := None,
      ownerId := e.ownerCode,
      ownerName := e.ownerUsername,
      placedDate := CutDate(e.placedDate),
      lastFoundDate := CutDate(e.lastFoundDate),
      detailsUrl := HostUrl(e.detailsUrl),
      details := None
    )
  }

  /** The table built from the search results: one row per non-premium entry. */
  function ScrapeEntries(results: seq<Entry>): (rows: seq<Record>)
    ensures |rows| <= |results|
    ensures forall k :: 0 <= k < |rows| ==> HasHostUrl(rows[k]) && rows[k].planningArea == None
  {
    var kept := Filter(IsListed, results);
    seq(|kept|, k requires 0 <= k < |kept| => Normalise(kept[k]))
  }

  /** The rows are the non-premium entries, normalised, in source order: row
      `k` comes from the `k`-th non-premium entry, and there is one row per
      non-premium entry. */
  lemma ScrapeEntriesKeepsNonPremium(results: seq<Entry>)
    ensures |ScrapeEntries(results)| == |Kept(IsListed, results)|
    ensures StrictlyIncreasing(Kept(IsListed, results))
    ensures forall i :: 0 <= i < |results| ==> (i in Kept(IsListed, results) <==> !results[i].premiumOnly)
    ensures forall k :: 0 <= k < |ScrapeEntries(results)| ==>
      Kept(IsListed, results)[k] < |results| &&
      ScrapeEntries(results)[k] == Normalise(results[Kept(IsListed, results)[k]])
  {
    KeptExactly(IsListed, results);
    FilterIsKept(IsListed, results);
  }

  /** Three results with the middle one premium-only: entries 0 and 2 are
      kept, in that order, so the table has two rows (row 0 from entry 0 and
      row 1 from entry 2, by `ScrapeEntriesKeepsNonPremium`). */
  lemma ScrapeEntriesScenario(a: Entry, b: Entry, c: Entry)
    requires !a.premiumOnly && b.premiumOnly && !c.premiumOnly
    ensures Filter(IsListed, [a, b, c]) == [a, c]
    ensures Kept(IsListed, [a, b, c]) == [0, 2]
    ensures |ScrapeEntries([a, b, c])| == 2
  {
    FilterScenario(a, b, c);
    KeptScenario(a, b, c);
  }

  lemma FilterScenario(a: Entry, b: Entry, c: Entry)
    requires !a.premiumOnly && b.premiumOnly && !c.premiumOnly
    ensures Filter(IsListed, [a, b, c]) == [a, c]
  {
    var s := [a, b, c];
    assert s[1..] == [b, c] && s[1..][1..] == [c] && s[1..][1..][1..] == [];
    assert Filter(IsListed, [c]) == [c];
    assert Filter(IsListed, [b, c]) == [c];
  }

  lemma KeptScenario(a: Entry, b: Entry, c: Entry)
    requires !a.premiumOnly && b.premiumOnly && !c.premiumOnly
    ensures Kept(IsListed, [a, b, c]) == [0, 2]
  {
    var s := [a, b, c];
    assert s[1..] == [b, c] && s[1..][1..] == [c] && s[1..][1..][1..] == [];
    assert Kept(IsListed, [c]) == [0];
    assert Kept(IsListed, [b, c]) == [1];
  }
}
