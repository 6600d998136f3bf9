/** The write step: `update_one` with a `$set` of the four parsed fields on
    the merchant document, and the advisory check of the reason category. */
module Writer {
  import opened Wrappers
  import opened Values
  import opened Store
  import opened ResponseParser

  const ReasonDetailedKey := "reason_detailed"
  const SuggestedDetailedKey := "suggested_detailed"
  const ReasonKey := "reason"
  const SuggestedKey := "suggested"

  /** The fields the job writes, and the only ones it ever changes. */
  const EnrichmentKeys: set<string> := {ReasonDetailedKey, SuggestedDetailedKey, ReasonKey, SuggestedKey}

  /** What a document holds apart from the enrichment fields. */
  function Unenriched(doc: Doc): Doc {
    doc - EnrichmentKeys
  }

  /** The `$set` of the update: the four values become string fields,
      overwriting earlier ones; every other field is kept. */
  function Enrich(doc: Doc, reply: Reply): (r: Doc)
    ensures r.Keys == doc.Keys + EnrichmentKeys
    ensures Unenriched(r) == Unenriched(doc)
    ensures ReadBack(r) == Some(reply)
  {
    doc[ReasonDetailedKey := Str(reply.reasonDetailed)]
       [SuggestedDetailedKey := Str(reply.suggestedDetailed)]
       [ReasonKey := Str(reply.reason)]
       [SuggestedKey := Str(reply.suggested)]
  }

  /** The four enrichment fields of a document, when all four are strings. */
  function ReadBack(doc: Doc): Option<Reply> {
    if ReasonDetailedKey in doc && doc[ReasonDetailedKey].Str?
       && SuggestedDetailedKey in doc && doc[SuggestedDetailedKey].Str?
       && ReasonKey in doc && doc[ReasonKey].Str?
       && SuggestedKey in doc && doc[SuggestedKey].Str?
    then Some(Reply(doc[ReasonDetailedKey].s, doc[SuggestedDetailedKey].s, doc[ReasonKey].s, doc[SuggestedKey].s))
    else None
  }

  /** A document is determined by its other fields together with its four
      enrichment fields. */
  lemma SameWhenPartsAgree(a: Doc, b: Doc)
    requires a.Keys == b.Keys && EnrichmentKeys <= a.Keys
    requires Unenriched(a) == Unenriched(b)
    requires forall k :: k in EnrichmentKeys ==> a[k] == b[k]
    ensures a == b
  {
    forall k | k in a ensures a[k] == b[k] {
      if k !in EnrichmentKeys {
        assert a[k] == Unenriched(a)[k];
      }
    }
  }

  /** A later write replaces an earlier one completely: the document ends
      up as if only the later write had happened. */
  lemma EnrichOverwrites(doc: Doc, first: Reply, second: Reply)
    ensures Enrich(Enrich(doc, first), second) == Enrich(doc, second)
  {
    var a, b := Enrich(Enrich(doc, first), second), Enrich(doc, second);
    assert ReadBack(a) == ReadBack(b);
    SameWhenPartsAgree(a, b);
  }

  /** Writing a document's own enrichment fields back changes nothing. */
  lemma EnrichWithOwnFields(doc: Doc)
    requires ReadBack(doc).Some?
    ensures Enrich(doc, ReadBack(doc).value) == doc
  {
    var a := Enrich(doc, ReadBack(doc).value);
    SameWhenPartsAgree(a, doc);
  }

  /** `merchants_col.update_one({"_id": id}, {"$set": …})`: the matching
      document is enriched, no other document changes, and no document is
      created when none matches. */
  function UpdateOne(c: Collection, id: DocId, reply: Reply): (r: Collection)
    ensures r.Keys == c.Keys
    ensures id in c ==> r[id] == Enrich(c[id], reply)
    ensures forall other :: other in c && other != id ==> r[other] == c[other]
  {
    if id in c then c[id := Enrich(c[id], reply)] else c
  }

  /** The eight reason categories the prompt asks the model to choose from. */
  const AllowedReasons: seq<string> := [
    "agent", "pricing", "product", "service",
    "seasonality", "microeconomic", "macroeconomic", "cashflow"]

  /** `rc in allowed_reasons`: an exact, case-sensitive match. */
  predicate Allowed(reason: string) {
    reason in AllowedReasons
  }

  /** A suggested action, or a category spelled differently, is flagged. */
  lemma AllowedIsExact()
    ensures Allowed("pricing") && Allowed("cashflow")
    ensures !Allowed("Pricing") && !Allowed("pricing ") && !Allowed("chargeback mitigation") && !Allowed("")
  {
    assert AllowedReasons[1] == "pricing" && AllowedReasons[7] == "cashflow";
  }
}
