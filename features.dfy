/** The feature deriver and the metrics-block renderer: the eight-key
    `record` built from a metrics document, and its `key: value` lines. */
module Features {
  import opened Wrappers
  import opened Values
  import opened Store
  import opened Text

  /** A rate the job computes in floating point.  Its numeric value is not
      modelled; the term records which inputs it is computed from. */
  datatype Rate =
    | PricePercent(price: Value)                                     // round(price * 100, 2)
    | ChargebackPercent(amount: Option<Value>, volume: Option<Value>)  // round(amount / volume * 100, 2)

  /** The derived feature record, one field per key, in declaration order. */
  datatype Features = Features(
    yearMonth: Option<Value>,
    totalVolume: Option<Value>,
    effectiveRate: Option<Rate>,
    chargebackRate: Option<Rate>,
    transactions: Option<int>,
    monthOverThreeMonthVol: Option<Value>,
    supportCount: Option<Value>,
    tenure: int)

  /** The tenure adjustment: a positive tenure is counted one month more, a
      negative one passes through, a zero or absent one becomes 0. */
  function AdjustTenure(tenure: Option<int>): (r: int)
    ensures tenure.Some? && tenure.value > 0 ==> r == tenure.value + 1
    ensures tenure.Some? && tenure.value < 0 ==> r == tenure.value
    ensures tenure.None? || tenure.value == 0 ==> r == 0
    ensures r == 0 <==> !TruthyInt(tenure)
    ensures r != 1
  {
    if TruthyInt(tenure) && tenure.value > 0 then tenure.value + 1
    else if TruthyInt(tenure) then tenure.value
    else 0
  }

  /** Builds the `record` of a metrics document. */
  function Derive(d: Metrics): (f: Features)
    ensures f.yearMonth == d.yearMonth && f.totalVolume == d.totalVolume
    ensures f.transactions == d.totalTransactions
    ensures f.monthOverThreeMonthVol == d.monthOverThreeMonthVol && f.supportCount == d.supportCount
    ensures f.effectiveRate.None? <==> d.price.None?
    ensures d.price.Some? ==> f.effectiveRate == Some(PricePercent(d.price.value))
    ensures f.chargebackRate.Some? <==> TruthyInt(d.totalTransactions)
    ensures f.chargebackRate.Some? ==>
              f.chargebackRate.value == ChargebackPercent(d.activityChargebackAmount, d.totalVolume)
    ensures f.tenure == AdjustTenure(d.tenure)
  {
    Features(
      d.yearMonth,
      d.totalVolume,
      if d.price.Some? then Some(PricePercent(d.price.value)) else None,
      if TruthyInt(d.totalTransactions)
        then Some(ChargebackPercent(d.activityChargebackAmount, d.totalVolume))
        else None,
      d.totalTransactions,
      d.monthOverThreeMonthVol,
      d.supportCount,
      AdjustTenure(d.tenure))
  }

  /** The value a key of the record holds: Python's `None`, a stored value,
      or a computed rate. */
  datatype Cell = Missing | Plain(v: Value) | Computed(rate: Rate)

  function OptionCell(v: Option<Value>): Cell {
    if v.Some? then Plain(v.value) else Missing
  }

  function RateCell(r: Option<Rate>): Cell {
    if r.Some? then Computed(r.value) else Missing
  }

  function IntCell(n: Option<int>): Cell {
    if n.Some? then Plain(Int(n.value)) else Missing
  }

  /** The record's keys, in declaration order. */
  const FeatureKeys: seq<string> := [
    "year_month", "total_volume", "effective_rate", "chargeback_rate",
    "transactions", "month_over_threemonth_vol", "support_count", "tenure"]

  /** `record.items()`. */
  function Entries(f: Features): (e: seq<(string, Cell)>)
    ensures |e| == |FeatureKeys| == 8
    ensures forall i :: 0 <= i < 8 ==> e[i].0 == FeatureKeys[i]
  {
    [ ("year_month", OptionCell(f.yearMonth)),
      ("total_volume", OptionCell(f.totalVolume)),
      ("effective_rate", RateCell(f.effectiveRate)),
      ("chargeback_rate", RateCell(f.chargebackRate)),
      ("transactions", IntCell(f.transactions)),
      ("month_over_threemonth_vol", OptionCell(f.monthOverThreeMonthVol)),
      ("support_count", OptionCell(f.supportCount)),
      ("tenure", Plain(Int(f.tenure))) ]
  }

  /** Every key is present exactly once: the record has no other key and
      no key twice. */
  lemma FeatureKeysDistinct()
    ensures forall i, j :: 0 <= i < j < |FeatureKeys| ==> FeatureKeys[i] != FeatureKeys[j]
  {
  }

  /** No key holds the colon that separates it from its value, or a line
      break. */
  lemma FeatureKeysPlain()
    ensures forall i :: 0 <= i < |FeatureKeys| ==> ':' !in FeatureKeys[i] && '\n' !in FeatureKeys[i]
  {
    forall i | 0 <= i < |FeatureKeys| ensures ':' !in FeatureKeys[i] && '\n' !in FeatureKeys[i] {
      var key := FeatureKeys[i];
      assert forall k :: 0 <= k < |key| ==> key[k] == '_' || 'a' <= key[k] <= 'z';
    }
  }

  /** Python's `f"{v}"` of a cell; how a computed rate prints (a float) is
      given by `rateText`. */
  function CellText(c: Cell, rateText: Rate -> string): string {
    match c
    case Missing => "None"
    case Plain(v) => ValueText(v)
    case Computed(r) => rateText(r)
  }

  /** `f"{k}: {v}"`. */
  function EntryLine(key: string, text: string): string {
    key + ": " + text
  }

  function BlockLines(f: Features, rateText: Rate -> string): (ls: seq<string>)
    ensures |ls| == 8
    ensures forall i :: 0 <= i < 8 ==>
              ls[i] == EntryLine(FeatureKeys[i], CellText(Entries(f)[i].1, rateText))
  {
    var e := Entries(f);
    seq(8, i requires 0 <= i < 8 => EntryLine(e[i].0, CellText(e[i].1, rateText)))
  }

  /** `metrics_block = "\n".join(f"{k}: {v}" for k, v in record.items())`. */
  function Render(f: Features, rateText: Rate -> string): string {
    Join(BlockLines(f, rateText), '\n')
  }

  /** Reads a `key: value` line back into its key and its value text. */
  function ReadEntry(line: string): Option<(string, string)> {
    match IndexOf(line, ':')
    case None => None
    case Some(k) =>
      if k + 1 < |line| && line[k + 1] == ' ' then Some((line[..k], line[k + 2..])) else None
  }

  lemma EntryLineRoundTrip(key: string, text: string)
    requires ':' !in key
    ensures ReadEntry(EntryLine(key, text)) == Some((key, text))
  {
    var line := EntryLine(key, text);
    assert line[..|key|] == key;
    IndexOfUnique(line, ':', |key|);
    assert line[|key| + 2..] == text;
  }

  /** No value text of the record holds a line break. */
  predicate SingleLineValues(f: Features, rateText: Rate -> string) {
    forall i :: 0 <= i < 8 ==> '\n' !in CellText(Entries(f)[i].1, rateText)
  }

  /** The rendered block is exactly eight lines, the i-th holding the i-th
      key and its value, so reading each line back yields the keys in
      declaration order with their values. */
  lemma {:induction false} RenderedBlock(f: Features, rateText: Rate -> string)
    requires SingleLineValues(f, rateText)
    ensures var ls := Split(Render(f, rateText), '\n');
      |ls| == 8 &&
      forall i :: 0 <= i < 8 ==>
        ls[i] == EntryLine(FeatureKeys[i], CellText(Entries(f)[i].1, rateText)) &&
        ReadEntry(ls[i]) == Some((FeatureKeys[i], CellText(Entries(f)[i].1, rateText)))
  {
    var ls := BlockLines(f, rateText);
    FeatureKeysPlain();
    forall i | 0 <= i < 8 ensures '\n' !in ls[i] {
      assert ls[i] == FeatureKeys[i] + ": " + CellText(Entries(f)[i].1, rateText);
    }
    SplitJoin(ls, '\n');
    forall i | 0 <= i < 8
      ensures ReadEntry(ls[i]) == Some((FeatureKeys[i], CellText(Entries(f)[i].1, rateText)))
    {
      EntryLineRoundTrip(FeatureKeys[i], CellText(Entries(f)[i].1, rateText));
    }
  }

  /** Integers print without a line break, so a record whose stored text
      fields and rate texts are single-line renders as eight lines. */
  lemma SingleLineWhenFieldsAre(f: Features, rateText: Rate -> string)
    requires forall r :: '\n' !in rateText(r)
    requires forall v :: v in [f.yearMonth, f.totalVolume, f.monthOverThreeMonthVol, f.supportCount] && v.Some? ==>
               '\n' !in ValueText(v.value)
    ensures SingleLineValues(f, rateText)
  {
    forall i | 0 <= i < 8 ensures '\n' !in CellText(Entries(f)[i].1, rateText) {
      var c := Entries(f)[i].1;
      if c.Plain? && c.v.Int? {
        var t := IntToString(c.v.n);
        assert forall k :: 0 <= k < |t| ==> t[k] != '\n';
      }
    }
  }
}
