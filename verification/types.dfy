/** The record and dataset types: one weekly positioning observation, the
    observations of one currency pair, and the whole dataset. */
module Types {
  import opened Wrappers

  /** The three-valued positioning label; a record's bias is always exactly one of them. */
  datatype Bias = Bullish | Bearish | Neutral

  /** The label a bias is written as, in a document and in the edit form's select. */
  function BiasLabel(b: Bias): (s: string)
    ensures s == "Bullish" || s == "Bearish" || s == "Neutral"
  {
    match b
    case Bullish => "Bullish"
    case Bearish => "Bearish"
    case Neutral => "Neutral"
  }

  /** Reading a label back: only the three labels name a bias. */
  function ParseBias(s: string): (r: Option<Bias>)
    ensures r.Some? <==> (s == "Bullish" || s == "Bearish" || s == "Neutral")
    ensures r.Some? ==> BiasLabel(r.value) == s
  {
    if s == "Bullish" then Some(Bullish)
    else if s == "Bearish" then Some(Bearish)
    else if s == "Neutral" then Some(Neutral)
    else None
  }

  lemma ParseBiasLabel(b: Bias)
    ensures ParseBias(BiasLabel(b)) == Some(b)
  {
  }

  /** One weekly observation. `id` only targets edits and deletes; the empty
      string stands for a record read without an id. The numeric fields are
      JavaScript numbers with no sign or range constraint. */
  datatype CotRecord = CotRecord(
    id: string,
    date: string,
    longs: real,
    shorts: real,
    changeLong: real,
    changeShort: real,
    pctLong: real,
    pctShort: real,
    netPositions: real,
    netChange: real,
    bias: Bias,
    flip: string)

  /** A pair name and its records, in display order. */
  datatype PairData = PairData(pair: string, data: seq<CotRecord>)

  /** The dataset: an ordered sequence of pair entries, not a map, so nothing
      at this level keeps two entries from having the same name. */
  type AppData = seq<PairData>

  /** The pair names in dataset order (the `allPairs` list shown in the selector). */
  function PairNames(d: AppData): (names: seq<string>)
    ensures |names| == |d|
    ensures forall i :: 0 <= i < |d| ==> names[i] == d[i].pair
  {
    seq(|d|, i requires 0 <= i < |d| => d[i].pair)
  }

  /** No two entries share a name. */
  predicate DistinctNames(d: AppData) {
    forall i, j :: 0 <= i < j < |d| ==> d[i].pair != d[j].pair
  }

  /** Some record of `records` has the given id. */
  predicate HasId(records: seq<CotRecord>, id: string) {
    exists i :: 0 <= i < |records| && records[i].id == id
  }
}
