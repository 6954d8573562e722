/** The record edit form: its default record, how opening it fills the form,
    how one input change updates the record, and the auto-calculate helper. */
module EditModal {
  import opened Wrappers
  import opened Types

  // ---------------------------------------------------------------------
  // Opening the form
  // ---------------------------------------------------------------------

  /** The blank record; `today` is the ISO date the page was loaded on. */
  function DefaultRecord(today: string): (r: CotRecord)
    ensures r.id == "" && r.date == today && r.bias == Neutral && r.flip == ""
    ensures r.longs == 0.0 && r.shorts == 0.0 && r.changeLong == 0.0 && r.changeShort == 0.0
    ensures r.pctLong == 0.0 && r.pctShort == 0.0 && r.netPositions == 0.0 && r.netChange == 0.0
  {
    CotRecord("", today, 0.0, 0.0, 0.0, 0.0, 0.0, 0.0, 0.0, 0.0, Neutral, "")
  }

  /** The form contents when the form opens: a copy of the record being edited,
      or the blank record under a fresh id. */
  function OpenForm(initial: Option<CotRecord>, today: string, freshId: string): (form: CotRecord)
    ensures initial.Some? ==> form == initial.value
    ensures initial.None? ==> form == DefaultRecord(today).(id := freshId)
  {
    match initial
    case Some(r) => r
    case None => DefaultRecord(today).(id := freshId)
  }

  // ---------------------------------------------------------------------
  // One input change
  // ---------------------------------------------------------------------

  /** The named inputs of the form. */
  datatype Field =
    | DateField | LongsField | ShortsField | ChangeLongField | ChangeShortField
    | PctLongField | PctShortField | NetPositionsField | NetChangeField
    | BiasField | FlipField

  /** The eight inputs whose value is read as a number. */
  predicate IsNumeric(f: Field) {
    !(f.DateField? || f.BiasField? || f.FlipField?)
  }

  /** What a field holds. */
  datatype FieldValue = Number(x: real) | Text(s: string) | BiasValue(b: Bias)

  function Get(r: CotRecord, f: Field): FieldValue {
    match f
    case DateField => Text(r.date)
    case LongsField => Number(r.longs)
    case ShortsField => Number(r.shorts)
    case ChangeLongField => Number(r.changeLong)
    case ChangeShortField => Number(r.changeShort)
    case PctLongField => Number(r.pctLong)
    case PctShortField => Number(r.pctShort)
    case NetPositionsField => Number(r.netPositions)
    case NetChangeField => Number(r.netChange)
    case BiasField => BiasValue(r.bias)
    case FlipField => Text(r.flip)
  }

  /** `parseFloat(value) || 0`: the parsed number, or 0 when parsing gave NaN. */
  function ParsedOrZero(parsed: Option<real>): (x: real)
    ensures parsed.Some? ==> x == parsed.value
    ensures parsed.None? ==> x == 0.0
  {
    match parsed
    case Some(v) => v
    case None => 0.0
  }

  /** The record after one input reports `value`; `parsed` is what `parseFloat`
      made of it (None for NaN). The bias select offers only the three labels. */
  function HandleChange(form: CotRecord, f: Field, value: string, parsed: Option<real>): (r: CotRecord)
    requires f.BiasField? ==> ParseBias(value).Some?
    ensures r.id == form.id
    ensures forall g :: g != f ==> Get(r, g) == Get(form, g)
    ensures IsNumeric(f) ==> Get(r, f) == Number(ParsedOrZero(parsed))
    ensures f.DateField? || f.FlipField? ==> Get(r, f) == Text(value)
    ensures f.BiasField? ==> Get(r, f) == BiasValue(ParseBias(value).value) && BiasLabel(r.bias) == value
  {
    var x := ParsedOrZero(parsed);
    match f
    case DateField => form.(date := value)
    case LongsField => form.(longs := x)
    case ShortsField => form.(shorts := x)
    case ChangeLongField => form.(changeLong := x)
    case ChangeShortField => form.(changeShort := x)
    case PctLongField => form.(pctLong := x)
    case PctShortField => form.(pctShort := x)
    case NetPositionsField => form.(netPositions := x)
    case NetChangeField => form.(netChange := x)
    case BiasField => form.(bias := ParseBias(value).value)
    case FlipField => form.(flip := value)
  }

  // ---------------------------------------------------------------------
  // Auto-calculate
  // ---------------------------------------------------------------------

  /** `parseFloat(x.toFixed(1))`: the nearest tenth, halves rounded away from zero. */
  function RoundTenths(x: real): (y: real)
    ensures x >= 0.0 ==> -0.05 < y - x <= 0.05
    ensures x < 0.0 ==> -0.05 <= y - x < 0.05
    ensures (y * 10.0).Floor as real == y * 10.0
  {
    var n := if x < 0.0 then -TenthsHalfUp(-x) else TenthsHalfUp(x);
    assert (n as real / 10.0) * 10.0 == n as real;
    n as real / 10.0
  }

  /** The whole number of tenths nearest to a non-negative `x`, halves rounded up. */
  function TenthsHalfUp(x: real): (n: int)
    requires x >= 0.0
    ensures x * 10.0 - 0.5 < n as real <= x * 10.0 + 0.5
  {
    (x * 10.0 + 0.5).Floor
  }

  /** `part` as a percentage of `total`, or 0 when the total is not positive. */
  function Share(part: real, total: real): real {
    if total > 0.0 then part / total * 100.0 else 0.0
  }

  /** With a positive total, the two shares add up to 100 before rounding. */
  lemma SharesSumTo100(longs: real, shorts: real)
    requires longs + shorts > 0.0
    ensures Share(longs, longs + shorts) + Share(shorts, longs + shorts) == 100.0
  {
    var t := longs + shorts;
    calc {
      Share(longs, t) + Share(shorts, t);
      longs / t * 100.0 + shorts / t * 100.0;
      (longs + shorts) / t * 100.0;
      100.0;
    }
  }

  /** The bias the sign of the net position calls for. */
  function BiasOf(net: real): (b: Bias)
    ensures b == Bullish <==> net > 0.0
    ensures b == Bearish <==> net < 0.0
    ensures b == Neutral <==> net == 0.0
  {
    if net > 0.0 then Bullish else if net < 0.0 then Bearish else Neutral
  }

  /** The auto-calculate button: net, bias and both rounded percentages from
      longs and shorts; nothing else changes. */
  function AutoCalculate(form: CotRecord): (r: CotRecord)
    ensures r.netPositions == form.longs - form.shorts
    ensures r.bias == BiasOf(r.netPositions)
    ensures form.longs + form.shorts <= 0.0 ==> r.pctLong == 0.0 && r.pctShort == 0.0
    ensures form.longs + form.shorts > 0.0 ==>
              r.pctLong == RoundTenths(form.longs / (form.longs + form.shorts) * 100.0) &&
              r.pctShort == RoundTenths(form.shorts / (form.longs + form.shorts) * 100.0)
    ensures r == form.(pctLong := r.pctLong, pctShort := r.pctShort,
                       netPositions := r.netPositions, bias := r.bias)
  {
    var total := form.longs + form.shorts;
    var net := form.longs - form.shorts;
    form.(pctLong := RoundTenths(Share(form.longs, total)),
          pctShort := RoundTenths(Share(form.shorts, total)),
          netPositions := net,
          bias := BiasOf(net))
  }

  /** Only `pctLong`, `pctShort`, `netPositions` and `bias` can change. */
  lemma AutoCalculateKeepsOtherFields(form: CotRecord, f: Field)
    requires !(f.PctLongField? || f.PctShortField? || f.NetPositionsField? || f.BiasField?)
    ensures Get(AutoCalculate(form), f) == Get(form, f)
    ensures AutoCalculate(form).id == form.id
  {
  }

  /** After rounding, the two percentages still add up to within 0.1 of 100. */
  lemma RoundedSharesNear100(form: CotRecord)
    requires form.longs + form.shorts > 0.0
    ensures -0.1 < AutoCalculate(form).pctLong + AutoCalculate(form).pctShort - 100.0 <= 0.1
  {
    SharesSumTo100(form.longs, form.shorts);
  }

  /** Pressing the button twice is pressing it once. */
  lemma AutoCalculateIdempotent(form: CotRecord)
    ensures AutoCalculate(AutoCalculate(form)) == AutoCalculate(form)
  {
  }

  /** The EURUSD sample week: 210450 longs and 115300 shorts. */
  lemma AutoCalculateSampleWeek(form: CotRecord)
    requires form.longs == 210450.0 && form.shorts == 115300.0
    ensures AutoCalculate(form).pctLong == 64.6 && AutoCalculate(form).pctShort == 35.4
    ensures AutoCalculate(form).netPositions == 95150.0 && AutoCalculate(form).bias == Bullish
  {
    var t := 325750.0;
    assert 646.0 <= form.longs / t * 100.0 * 10.0 + 0.5 < 647.0;
    assert 354.0 <= form.shorts / t * 100.0 * 10.0 + 0.5 < 355.0;
  }

  /** No division by zero: empty positions give zero percentages and a neutral bias. */
  lemma AutoCalculateEmptyWeek(form: CotRecord)
    requires form.longs == 0.0 && form.shorts == 0.0
    ensures AutoCalculate(form).pctLong == 0.0 && AutoCalculate(form).pctShort == 0.0
    ensures AutoCalculate(form).netPositions == 0.0 && AutoCalculate(form).bias == Neutral
  {
  }
}
