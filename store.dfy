/** The two collections the job reads: the merchant registry, a map from
    document id to the document's fields, and the monthly metrics table,
    searched with `find_one`. */
module Store {
  import opened Wrappers
  import opened Values

  type DocId = int

  /** A merchant document: field name to value; a missing key is an absent field. */
  type Doc = map<string, Value>

  /** The merchant registry, keyed by the documents' `_id`. */
  type Collection = map<DocId, Doc>

  /** `doc.get(key)`. */
  function Get(doc: Doc, key: string): (r: Option<Value>)
    ensures r.Some? <==> key in doc
    ensures r.Some? ==> r.value == doc[key]
  {
    if key in doc then Some(doc[key]) else None
  }

  /** A metrics document of the monthly metrics table.  Counts (transactions
      and tenure in months) are integers; every field may be absent. */
  datatype Metrics = Metrics(
    mid: Option<Value>,
    yearMonth: Option<Value>,
    totalVolume: Option<Value>,
    price: Option<Value>,
    activityChargebackAmount: Option<Value>,
    totalTransactions: Option<int>,
    monthOverThreeMonthVol: Option<Value>,
    supportCount: Option<Value>,
    tenure: Option<int>)

  /** The metrics collection in its natural order. */
  type MetricsTable = seq<Metrics>

  /** The query `{"mid": mid, "year_month": month}` selects `d`. */
  predicate Matches(d: Metrics, mid: Value, month: Value) {
    d.mid == Some(mid) && d.yearMonth == Some(month)
  }

  /** The position of the first document the query selects. */
  function FindFirst(table: MetricsTable, mid: Value, month: Value): (r: Option<nat>)
    ensures r.None? ==> forall j :: 0 <= j < |table| ==> !Matches(table[j], mid, month)
    ensures r.Some? ==> r.value < |table| && Matches(table[r.value], mid, month)
    ensures r.Some? ==> forall j :: 0 <= j < r.value ==> !Matches(table[j], mid, month)
  {
    if |table| == 0 then None
    else if Matches(table[0], mid, month) then Some(0)
    else match FindFirst(table[1..], mid, month)
      case None => None
      case Some(k) => Some(k + 1)
  }

  /** `metrics_col.find_one({"mid": mid, "year_month": month})`: the first
      matching document, or `None` when there is none. */
  function FindOne(table: MetricsTable, mid: Value, month: Value): (r: Option<Metrics>)
    ensures r.None? <==> forall j :: 0 <= j < |table| ==> !Matches(table[j], mid, month)
    ensures r.Some? ==> Matches(r.value, mid, month) && r.value in table
    ensures r.Some? ==> FindFirst(table, mid, month).Some? && r.value == table[FindFirst(table, mid, month).value]
  {
    match FindFirst(table, mid, month)
    case None => None
    case Some(k) => Some(table[k])
  }
}
