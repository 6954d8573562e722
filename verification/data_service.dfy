/** Loading and exporting the dataset: the built-in fallback dataset, the id fill
    applied to a fetched document, and the id strip applied before export. */
module DataService {
  import opened Types
  import opened Text
  import DateSort

  // ---------------------------------------------------------------------
  // The built-in dataset
  // ---------------------------------------------------------------------

  /** Net position equals longs minus shorts, and the bias is the bullish label a
      positive net calls for. */
  predicate BullishAndConsistent(r: CotRecord) {
    r.netPositions == r.longs - r.shorts && r.netPositions > 0.0 && r.bias == Bullish
  }

  /** The dataset used whenever loading fails: ten pairs, two of them with sample records. */
  function InitialData(): (d: AppData)
    ensures PairNames(d) == ["EURUSD", "GBPUSD", "USDJPY", "USDCHF", "AUDUSD",
                             "NZDUSD", "USDCAD", "GBPJPY", "EURJPY", "EURGBP"]
    ensures |d[0].data| == 2 && |d[1].data| == 1
    ensures forall i :: 2 <= i < |d| ==> d[i].data == []
    ensures d[0].data[0].id == "1" && d[0].data[1].id == "2" && d[1].data[0].id == "3"
    ensures forall i, j :: 0 <= i < |d| && 0 <= j < |d[i].data| ==> BullishAndConsistent(d[i].data[j])
  {
    [ PairData("EURUSD", [
        CotRecord("1", "2025-01-14", 210450.0, 115300.0, 5400.0, -2100.0,
                  64.6, 35.4, 95150.0, 7500.0, Bullish, "0%"),
        CotRecord("2", "2025-01-07", 205050.0, 117400.0, -1200.0, 4500.0,
                  63.6, 36.4, 87650.0, -5700.0, Bullish, "0%")]),
      PairData("GBPUSD", [
        CotRecord("3", "2025-01-14", 85400.0, 45200.0, 1200.0, 800.0,
                  65.4, 34.6, 40200.0, 400.0, Bullish, "0%")]),
      PairData("USDJPY", []),
      PairData("USDCHF", []),
      PairData("AUDUSD", []),
      PairData("NZDUSD", []),
      PairData("USDCAD", []),
      PairData("GBPJPY", []),
      PairData("EURJPY", []),
      PairData("EURGBP", []) ]
  }

  /** The ten built-in pair names are pairwise different. */
  lemma InitialNamesDistinct()
    ensures DistinctNames(InitialData())
  {
  }

  /** The two sample dates, 2025-01-07 and 2025-01-14, in text order. */
  lemma SampleDatesOrdered()
    ensures LexLess("2025-01-07", "2025-01-14") && !LexLess("2025-01-14", "2025-01-07")
  {
    assert LexLess("07", "14");
    LexLessCommonPrefix("2025-01-", "07", "14");
    assert "2025-01-" + "07" == "2025-01-07" && "2025-01-" + "14" == "2025-01-14";
    LexLessAsymmetric("2025-01-07", "2025-01-14");
  }

  /** EURUSD's two sample records are listed newest first. */
  lemma InitialEurUsdNewestFirst()
    ensures DateSort.NewestFirst(InitialData()[0].data)
  {
    var s := InitialData()[0].data;
    assert s[0].date == "2025-01-14" && s[1].date == "2025-01-07";
    SampleDatesOrdered();
  }

  // ---------------------------------------------------------------------
  // Loading
  // ---------------------------------------------------------------------

  /** What the fetch of the data document produced: the parsed document, or any
      failure (transport error, non-OK status, unparsable body). */
  datatype FetchResult = Fetched(json: AppData) | FetchFailed

  /** The id given to a record read without one: pair, date and position, joined by dashes. */
  function SynthesizedId(pair: string, date: string, index: nat): (id: string)
    ensures id != ""
    ensures StartsWith(id, pair + "-" + date + "-")
    ensures |id| > |pair| + |date| + 2
    ensures AllDigits(id[|pair| + |date| + 2..]) &&
            DigitsValue(id[|pair| + |date| + 2..]) == index
    ensures id[|pair| + |date| + 2..] == DecimalString(index)
  {
    var prefix := pair + "-" + date + "-";
    DecimalStringValue(index);
    assert (prefix + DecimalString(index))[|prefix|..] == DecimalString(index);
    prefix + DecimalString(index)
  }

  /** A record keeps a non-empty id and otherwise receives the synthesized one. */
  function FillRecordId(pair: string, r: CotRecord, index: nat): (f: CotRecord)
    ensures f.id != ""
    ensures f.(id := r.id) == r
    ensures r.id != "" ==> f == r
    ensures r.id == "" ==> f.id == SynthesizedId(pair, r.date, index)
  {
    if r.id != "" then r else r.(id := SynthesizedId(pair, r.date, index))
  }

  /** One pair's records, each with its id filled in by position. */
  function FillPairIds(p: PairData): (f: PairData)
    ensures f.pair == p.pair && |f.data| == |p.data|
    ensures forall j :: 0 <= j < |p.data| ==> f.data[j].id != "" && f.data[j].(id := p.data[j].id) == p.data[j]
  {
    PairData(p.pair, seq(|p.data|, j requires 0 <= j < |p.data| => FillRecordId(p.pair, p.data[j], j)))
  }

  /** The id fill applied to a fetched document. */
  function FillIds(d: AppData): (r: AppData)
    ensures |r| == |d|
    ensures forall i :: 0 <= i < |d| ==> r[i].pair == d[i].pair && |r[i].data| == |d[i].data|
    ensures forall i, j :: 0 <= i < |r| && 0 <= j < |r[i].data| ==> r[i].data[j].id != ""
  {
    seq(|d|, i requires 0 <= i < |d| => FillPairIds(d[i]))
  }

  /** Every record keeps its other fields; a non-empty id is kept and an empty one
      becomes `pair-date-index`. */
  lemma FillIdsRecords(d: AppData, i: nat, j: nat)
    requires i < |d| && j < |d[i].data|
    ensures FillIds(d)[i].data[j].(id := "") == d[i].data[j].(id := "")
    ensures d[i].data[j].id != "" ==> FillIds(d)[i].data[j].id == d[i].data[j].id
    ensures d[i].data[j].id == "" ==>
              FillIds(d)[i].data[j].id == SynthesizedId(d[i].pair, d[i].data[j].date, j)
  {
  }

  /** Filling twice is filling once: synthesized ids are never empty. */
  lemma FillIdsIdempotent(d: AppData)
    ensures FillIds(FillIds(d)) == FillIds(d)
  {
    var once := FillIds(d);
    forall i | 0 <= i < |d| ensures FillPairIds(once[i]) == once[i] {
      assert FillPairIds(once[i]).data == once[i].data;
    }
  }

  /** The startup load: the filled document when the fetch succeeded, the
      built-in dataset otherwise. */
  function LoadData(f: FetchResult): (d: AppData)
    ensures f.FetchFailed? ==> d == InitialData()
    ensures f.Fetched? ==> |d| == |f.json| && PairNames(d) == PairNames(f.json)
    ensures f.Fetched? ==> d == FillIds(f.json)
    ensures forall i, j :: 0 <= i < |d| && 0 <= j < |d[i].data| ==> d[i].data[j].id != ""
  {
    match f
    case Fetched(json) => FillIds(json)
    case FetchFailed => InitialData()
  }

  // ---------------------------------------------------------------------
  // Exporting
  // ---------------------------------------------------------------------

  /** A record as written to the exported document: every field but `id`. */
  datatype ExportRecord = ExportRecord(
    date: string,
    longs: real,
    shorts: real,
    changeLong: real,
    changeShort: real,
    pctLong: real,
    pctShort: real,
    netPositions: real,
    netChange: real,
    bias: Bias,
    flip: string)

  datatype ExportPair = ExportPair(pair: string, data: seq<ExportRecord>)

  function StripId(r: CotRecord): (e: ExportRecord)
    ensures e.date == r.date && e.bias == r.bias && e.flip == r.flip
    ensures e.longs == r.longs && e.shorts == r.shorts && e.changeLong == r.changeLong &&
            e.changeShort == r.changeShort && e.pctLong == r.pctLong && e.pctShort == r.pctShort &&
            e.netPositions == r.netPositions && e.netChange == r.netChange
  {
    ExportRecord(r.date, r.longs, r.shorts, r.changeLong, r.changeShort,
                 r.pctLong, r.pctShort, r.netPositions, r.netChange, r.bias, r.flip)
  }

  /** Two records export alike exactly when they differ at most in their ids. */
  lemma StripIdForgetsOnlyId(a: CotRecord, b: CotRecord)
    ensures StripId(a) == StripId(b) <==> a.(id := "") == b.(id := "")
  {
  }

  /** The document the export writes: same pairs in the same order, each record without its id. */
  function ExportDocument(d: AppData): (e: seq<ExportPair>)
    ensures |e| == |d|
    ensures forall i :: 0 <= i < |d| ==> e[i].pair == d[i].pair && |e[i].data| == |d[i].data|
    ensures forall i, j :: 0 <= i < |d| && 0 <= j < |d[i].data| ==>
              e[i].data[j] == StripId(d[i].data[j])
  {
    seq(|d|, i requires 0 <= i < |d| =>
      ExportPair(d[i].pair, seq(|d[i].data|, j requires 0 <= j < |d[i].data| => StripId(d[i].data[j]))))
  }

  /** An exported record read back as a record: it has no id. */
  function ReadRecord(e: ExportRecord): (r: CotRecord)
    ensures r.id == "" && StripId(r) == e
  {
    CotRecord("", e.date, e.longs, e.shorts, e.changeLong, e.changeShort,
              e.pctLong, e.pctShort, e.netPositions, e.netChange, e.bias, e.flip)
  }

  /** An exported document read back as a dataset whose records have no ids. */
  function ReadDocument(e: seq<ExportPair>): (d: AppData)
    ensures |d| == |e|
    ensures forall i :: 0 <= i < |e| ==> d[i].pair == e[i].pair && |d[i].data| == |e[i].data|
    ensures forall i, j :: 0 <= i < |e| && 0 <= j < |e[i].data| ==> d[i].data[j] == ReadRecord(e[i].data[j])
  {
    seq(|e|, i requires 0 <= i < |e| =>
      PairData(e[i].pair, seq(|e[i].data|, j requires 0 <= j < |e[i].data| => ReadRecord(e[i].data[j]))))
  }

  /** Exporting and loading the document back gives the same dataset up to ids:
      every record keeps its other fields and gets the id `pair-date-index`. */
  lemma ExportThenLoad(d: AppData)
    ensures |LoadData(Fetched(ReadDocument(ExportDocument(d))))| == |d|
    ensures forall i :: 0 <= i < |d| ==>
              LoadData(Fetched(ReadDocument(ExportDocument(d))))[i].pair == d[i].pair &&
              LoadData(Fetched(ReadDocument(ExportDocument(d))))[i].data ==
                seq(|d[i].data|, j requires 0 <= j < |d[i].data| =>
                  d[i].data[j].(id := SynthesizedId(d[i].pair, d[i].data[j].date, j)))
  {
    var back := LoadData(Fetched(ReadDocument(ExportDocument(d))));
    forall i | 0 <= i < |d|
      ensures back[i].data == seq(|d[i].data|, j requires 0 <= j < |d[i].data| =>
                d[i].data[j].(id := SynthesizedId(d[i].pair, d[i].data[j].date, j)))
    {
      forall j | 0 <= j < |d[i].data|
        ensures back[i].data[j] == d[i].data[j].(id := SynthesizedId(d[i].pair, d[i].data[j].date, j))
      {
        FillIdsRecords(ReadDocument(ExportDocument(d)), i, j);
      }
    }
  }
}
