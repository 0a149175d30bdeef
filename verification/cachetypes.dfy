/** The integer-code lookups for cache kind and container kind, and the
    first-element "unwrap" pass that follows them. */
module CacheTypes {
  import opened Wrappers

  /** Geocache kind labels, as the scraper declares them. */
  const GeocacheTypes: map<int, string> := map[
    2 := "traditional", 3 := "multi-cache", 4 := "virtual", 5 := "letterbox",
    6 := "event", 8 := "mystery", 137 := "earth", 1858 := "whereigo"
  ]

  /** Container kind labels, as the scraper declares them. */
  const ContainerTypes: map<int, string> := map[
    1 := "not specified", 2 := "micro", 3 := "regular", 4 := "large",
    5 := "virtual", 6 := "other", 8 := "small"
  ]

  /** The fallback written for a code missing from its table. */
  const Fallback: string := "other"

  /** What the lookup stores in a table cell: a known code stores a one-element
      list holding its label, an unknown code stores the bare fallback string. */
  datatype Cell = Singleton(item: string) | Bare(text: string)

  /** The lookup step: a known code yields its label (wrapped), any other code the fallback. */
  function Lookup(table: map<int, string>, code: int): (c: Cell)
    ensures c.Singleton? <==> code in table
    ensures c.Singleton? ==> c.item == table[code]
    ensures c.Bare? ==> c.text == Fallback
  {
    if code !in table then Bare(Fallback) else Singleton(table[code])
  }

  /** Python's `x[0]` on a cell: the list's element, or the string's first
      character; `None` is the `IndexError` an empty string would raise. */
  function Unwrap(c: Cell): (r: Option<string>)
    ensures c.Singleton? ==> r == Some(c.item)
    ensures c.Bare? ==> (r.Some? <==> |c.text| > 0)
    ensures c.Bare? && r.Some? ==> |r.value| == 1 && r.value[0] == c.text[0]
  {
    match c
    case Singleton(item) => Some(item)
    case Bare(text) => if |text| == 0 then None else Some(text[..1])
  }

  /** The label a record ends up with after lookup and unwrap: a known code
      keeps its full label, while the fallback is cut to its first letter `"o"`. */
  function Label(table: map<int, string>, code: int): (r: string)
    ensures code in table ==> r == table[code]
    ensures code !in table ==> r == "o"
  {
    match Unwrap(Lookup(table, code))
    case Some(name) => name
  }

  /** For the geocache kind table, the label is `"o"` exactly when the code is unknown. */
  lemma GeocacheLabelO(code: int)
    ensures Label(GeocacheTypes, code) == "o" <==> code !in GeocacheTypes
  {
    assert "o" !in GeocacheTypes.Values;
  }

  /** For the container table, the label is `"o"` exactly when the code is
      unknown, while the listed code 6 keeps the full label `"other"`. */
  lemma ContainerLabelO(code: int)
    ensures Label(ContainerTypes, code) == "o" <==> code !in ContainerTypes
    ensures Label(ContainerTypes, 6) == "other"
    ensures Label(ContainerTypes, 7) == "o"
  {
    assert "o" !in ContainerTypes.Values;
  }
}
