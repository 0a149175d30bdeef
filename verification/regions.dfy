/** Region resolution: each record's point is matched against the planning-area
    polygons in load order; the first polygon containing it names the record's
    area, and records no polygon contains get the sentinel "NIL" and are dropped.
    Polygon geometry is abstract: `contains(g, p)` stands for the geometry
    library's `polygon.contains(point)`. */
module Regions {
  import opened Wrappers
  import opened Seqs
  import opened Records

  /** A planar point with `x` the longitude and `y` the latitude. */
  datatype Point = Point(x: real, y: real)

  /** One planning-area polygon with its name. */
  datatype Region<G> = Region(name: string, geometry: G)

  /** The area written when no polygon contains the point. */
  const Nil: string := "NIL"

  /** The point a record is located at: longitude first, latitude second. */
  function Locate(r: Record): (p: Point)
    ensures p.x == r.longitude && p.y == r.latitude
  {
    Point(r.longitude, r.latitude)
  }

  /** Polygon `i` is the first, in load order, that contains `p`. */
  ghost predicate IsFirstMatch<G>(regions: seq<Region<G>>, contains: (G, Point) -> bool, p: Point, i: int) {
    && 0 <= i < |regions|
    && contains(regions[i].geometry, p)
    && forall j :: 0 <= j < i ==> !contains(regions[j].geometry, p)
  }

  /** The position of the first polygon at or after `from` that contains `p`,
      or `|regions|` when none does. */
  function FirstContaining<G>(regions: seq<Region<G>>, contains: (G, Point) -> bool, p: Point, from: nat): (k: nat)
    requires from <= |regions|
    ensures from <= k <= |regions|
    ensures k < |regions| ==> contains(regions[k].geometry, p)
    ensures forall j :: from <= j < k ==> !contains(regions[j].geometry, p)
    decreases |regions| - from
  {
    if from == |regions| then from
    else if contains(regions[from].geometry, p) then from
    else FirstContaining(regions, contains, p, from + 1)
  }

  /** The area of a point: the name of the first containing polygon, or "NIL". */
  function ResolveRegion<G>(regions: seq<Region<G>>, contains: (G, Point) -> bool, p: Point): (area: string)
    ensures (forall j :: 0 <= j < |regions| ==> !contains(regions[j].geometry, p)) ==> area == Nil
    ensures (exists j :: 0 <= j < |regions| && contains(regions[j].geometry, p)) ==>
      exists i :: IsFirstMatch(regions, contains, p, i) && area == regions[i].name
  {
    var k := FirstContaining(regions, contains, p, 0);
    if k < |regions| then
      assert IsFirstMatch(regions, contains, p, k);
      regions[k].name
    else
      Nil
  }

  /** The nested loop of the scraper, with its `found` flag and early exit. */
  method ResolveRegionLoop<G>(regions: seq<Region<G>>, contains: (G, Point) -> bool, p: Point) returns (area: string)
    ensures (forall j :: 0 <= j < |regions| ==> !contains(regions[j].geometry, p)) ==> area == Nil
    ensures (exists j :: 0 <= j < |regions| && contains(regions[j].geometry, p)) ==>
      exists i :: IsFirstMatch(regions, contains, p, i) && area == regions[i].name
  {
    var found := false;
    var j := 0;
    area := "";
    while j < |regions|
      invariant 0 <= j <= |regions|
      invariant !found
      invariant forall i :: 0 <= i < j ==> !contains(regions[i].geometry, p)
    {
      if contains(regions[j].geometry, p) {
        found := true;
        area := regions[j].name;
        assert IsFirstMatch(regions, contains, p, j);
        break;
      }
      j := j + 1;
    }
    if !found {
      area := Nil;
    }
  }

  /** Whenever polygon `i` is the first to contain the point, its name is the area. */
  lemma ResolveRegionIsFirstMatch<G>(regions: seq<Region<G>>, contains: (G, Point) -> bool, p: Point, i: int)
    requires IsFirstMatch(regions, contains, p, i)
    ensures ResolveRegion(regions, contains, p) == regions[i].name
  {
    var k := FirstContaining(regions, contains, p, 0);
    assert k == i;
  }

  /** Every record with its area filled in from its own point. */
  function AssignRegions<G>(rows: seq<Record>, regions: seq<Region<G>>, contains: (G, Point) -> bool): (out: seq<Record>)
    ensures |out| == |rows|
    ensures forall k :: 0 <= k < |out| ==>
      out[k] == rows[k].(planningArea := Some(ResolveRegion(regions, contains, Locate(rows[k]))))
  {
    seq(|rows|, k requires 0 <= k < |rows| => rows[k].(planningArea := Some(ResolveRegion(regions, contains, Locate(rows[k])))))
  }

  /** Every resolved area is the name of a loaded polygon or "NIL". */
  lemma AssignedAreaIsKnown<G>(rows: seq<Record>, regions: seq<Region<G>>, contains: (G, Point) -> bool, k: nat)
    requires k < |rows|
    ensures |AssignRegions(rows, regions, contains)| == |rows|
    ensures var a := AssignRegions(rows, regions, contains)[k].planningArea;
      a.Some? && (a.value == Nil || exists i :: 0 <= i < |regions| && a.value == regions[i].name)
  {
  }

  /** A record survives the area filter unless its area is "NIL". */
  predicate InArea(r: Record) {
    r.planningArea != Some(Nil)
  }

  /** The filter of records outside every polygon. */
  function DropNil(rows: seq<Record>): (out: seq<Record>)
    ensures forall k :: 0 <= k < |out| ==> out[k].planningArea != Some(Nil)
    ensures forall k :: 0 <= k < |rows| && rows[k].planningArea != Some(Nil) ==> rows[k] in out
  {
    Filter(InArea, rows)
  }

  /** The survivors are exactly the non-"NIL" records, in their original order. */
  lemma DropNilKeepsOrder(rows: seq<Record>)
    ensures |DropNil(rows)| == |Kept(InArea, rows)|
    ensures StrictlyIncreasing(Kept(InArea, rows))
    ensures forall i :: 0 <= i < |rows| ==> (i in Kept(InArea, rows) <==> rows[i].planningArea != Some(Nil))
    ensures forall k :: 0 <= k < |DropNil(rows)| ==>
      Kept(InArea, rows)[k] < |rows| && DropNil(rows)[k] == rows[Kept(InArea, rows)[k]]
  {
    KeptExactly(InArea, rows);
    FilterIsKept(InArea, rows);
  }
}
