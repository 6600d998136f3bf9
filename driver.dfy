/** The per-merchant loop of the job: for every document of the merchant
    registry whose `name` is "ACN", qualify it, look up its metrics, derive
    and send the feature record, parse the reply, write the four fields and
    flag an unknown reason category. */
module Driver {
  import opened Wrappers
  import opened Values
  import opened Store
  import opened Features
  import opened ResponseParser
  import opened Writer

  const NameKey := "name"
  const MerchantIdKey := "merchant_id"
  const TermDateKey := "term_date"

  /** The client whose merchants the job processes. */
  const ClientName := "ACN"

  /** What the job asks the model about one merchant: the merchant id, the
      month, and the derived record whose rendered block the prompt embeds. */
  datatype Request = Request(mid: Value, month: Value, features: Features)

  /** The request sent for the candidate at cursor position `index`. */
  datatype Sent = Sent(index: nat, id: DocId, request: Request)

  /** The write made for the candidate at cursor position `index`. */
  datatype Update = Update(index: nat, id: DocId, reply: Reply)

  /** The warning printed when the reason category is not an allowed one. */
  datatype Warning = Warning(index: nat, id: DocId, reason: string)

  /** Whether the loop ran to the end, or stopped at cursor position
      `index` because the reply could not be parsed (an uncaught `IndexError`). */
  datatype Status = Completed | Aborted(index: nat, error: ParseError)

  /** The state of a run: the registry as it now is, and what the run has
      sent, written and flagged so far. */
  datatype Run = Run(merchants: Collection, sent: seq<Sent>, updates: seq<Update>,
                     warnings: seq<Warning>, status: Status)

  /** The cursor's filter `{"name": "ACN"}`. */
  predicate Selected(doc: Doc) {
    Get(doc, NameKey) == Some(Str(ClientName))
  }

  /** The qualification and skip rules: a selected document with a truthy
      `merchant_id` and `term_date` for which the metrics table has a record
      of that merchant and month yields the request built from that record. */
  function Resolve(doc: Doc, metrics: MetricsTable): (r: Option<Request>)
    ensures r.Some? <==>
              Selected(doc) && Truthy(Get(doc, MerchantIdKey)) && Truthy(Get(doc, TermDateKey)) &&
              FindOne(metrics, doc[MerchantIdKey], doc[TermDateKey]).Some?
    ensures r.Some? ==>
              r.value.mid == doc[MerchantIdKey] && r.value.month == doc[TermDateKey] &&
              r.value.features == Derive(FindOne(metrics, r.value.mid, r.value.month).value)
  {
    var mid, termDate := Get(doc, MerchantIdKey), Get(doc, TermDateKey);
    if !Selected(doc) || !(Truthy(mid) && Truthy(termDate)) then None
    else
      var d := FindOne(metrics, mid.value, termDate.value);
      if d.None? then None else Some(Request(mid.value, termDate.value, Derive(d.value)))
  }

  predicate Qualifies(doc: Doc, metrics: MetricsTable) {
    Resolve(doc, metrics).Some?
  }

  /** Qualification reads no enrichment field, so a write never changes
      whether, or how, a document qualifies. */
  lemma ResolveIgnoresEnrichment(a: Doc, b: Doc, metrics: MetricsTable)
    requires Unenriched(a) == Unenriched(b)
    ensures Resolve(a, metrics) == Resolve(b, metrics)
  {
    forall k | k in {NameKey, MerchantIdKey, TermDateKey} ensures Get(a, k) == Get(b, k) {
      assert k !in EnrichmentKeys;
      assert k in a <==> k in Unenriched(a);
      assert k in b <==> k in Unenriched(b);
      if k in a {
        assert a[k] == Unenriched(a)[k];
        assert b[k] == Unenriched(b)[k];
      }
    }
  }

  /** The warning a write raises: one exactly when its reason category is
      not an allowed one. */
  function FlagOf(u: Update): seq<Warning> {
    if Allowed(u.reply.reason) then [] else [Warning(u.index, u.id, u.reply.reason)]
  }

  /** One iteration of the loop, for the candidate `id` at cursor position
      `i`; `parsed` is what parsing the model's reply for it gives. */
  function Step(run: Run, metrics: MetricsTable, i: nat, id: DocId, parsed: Result<Reply, ParseError>): Run {
    if run.status.Aborted? || id !in run.merchants then run
    else
      var req := Resolve(run.merchants[id], metrics);
      if req.None? then run
      else
        var sent := run.sent + [Sent(i, id, req.value)];
        if parsed.Failure? then run.(sent := sent, status := Aborted(i, parsed.error))
        else
          var rep := parsed.value;
          run.(merchants := UpdateOne(run.merchants, id, rep),
               sent := sent,
               updates := run.updates + [Update(i, id, rep)],
               warnings := run.warnings + FlagOf(Update(i, id, rep)))
  }

  function Start(merchants: Collection): Run {
    Run(merchants, [], [], [], Completed)
  }

  /** What parsing each of the model's replies gives. */
  function Outcomes(replies: seq<string>): (r: seq<Result<Reply, ParseError>>)
    ensures |r| == |replies| && forall i :: 0 <= i < |replies| ==> r[i] == Parse(replies[i])
  {
    seq(|replies|, i requires 0 <= i < |replies| => Parse(replies[i]))
  }

  /** The state after the first `k` cursor positions; `order` lists the
      registry documents in the order the cursor visits them (`Selected`
      applies the cursor's filter, so a document it would not yield is
      passed over without effect) and `outcomes[i]` is what parsing the
      model's reply for position `i` gives. */
  function RunUpTo(merchants: Collection, metrics: MetricsTable, order: seq<DocId>,
                   outcomes: seq<Result<Reply, ParseError>>, k: nat): Run
    requires k <= |order| == |outcomes|
  {
    if k == 0 then Start(merchants)
    else Step(RunUpTo(merchants, metrics, order, outcomes, k - 1), metrics, k - 1, order[k - 1], outcomes[k - 1])
  }

  // ---------------------------------------------------------------------
  // What a run has done, stated independently of how it was done.

  /** The cursor positions below `k` holding a qualifying document. */
  function QualifyingBelow(merchants: Collection, metrics: MetricsTable, order: seq<DocId>, k: nat): (r: seq<nat>)
    requires k <= |order|
    ensures forall j: nat :: j in r <==> j < k && order[j] in merchants && Qualifies(merchants[order[j]], metrics)
  {
    if k == 0 then []
    else
      var prev := QualifyingBelow(merchants, metrics, order, k - 1);
      var id := order[k - 1];
      if id in merchants && Qualifies(merchants[id], metrics) then prev + [k - 1] else prev
  }

  function UpdateIndices(us: seq<Update>): (r: seq<nat>)
    ensures |r| == |us| && forall u :: 0 <= u < |us| ==> r[u] == us[u].index
  {
    if us == [] then [] else UpdateIndices(us[..|us| - 1]) + [us[|us| - 1].index]
  }

  function SentIndices(ss: seq<Sent>): (r: seq<nat>)
    ensures |r| == |ss| && forall s :: 0 <= s < |ss| ==> r[s] == ss[s].index
  {
    if ss == [] then [] else SentIndices(ss[..|ss| - 1]) + [ss[|ss| - 1].index]
  }

  /** The warnings a sequence of writes raises, in order. */
  function Flagged(us: seq<Update>): seq<Warning> {
    if us == [] then [] else Flagged(us[..|us| - 1]) + FlagOf(us[|us| - 1])
  }

  /** The reply of the last write to `id`. */
  function LastReply(us: seq<Update>, id: DocId): Option<Reply> {
    if us == [] then None
    else if us[|us| - 1].id == id then Some(us[|us| - 1].reply)
    else LastReply(us[..|us| - 1], id)
  }

  function Applied(doc: Doc, r: Option<Reply>): Doc {
    if r.Some? then Enrich(doc, r.value) else doc
  }

  /** A write comes from a qualifying candidate whose reply parsed to it. */
  predicate UpdateOk(merchants: Collection, metrics: MetricsTable, order: seq<DocId>, outcomes: seq<Result<Reply, ParseError>>, u: Update)
    requires |order| == |outcomes|
  {
    u.index < |order| && order[u.index] == u.id && u.id in merchants &&
    Qualifies(merchants[u.id], metrics) && outcomes[u.index] == Success(u.reply)
  }

  /** A request is the one its candidate's document resolves to. */
  predicate SentOk(merchants: Collection, metrics: MetricsTable, order: seq<DocId>, s: Sent) {
    s.index < |order| && order[s.index] == s.id && s.id in merchants &&
    Resolve(merchants[s.id], metrics) == Some(s.request)
  }

  predicate UpdatesOk(merchants: Collection, metrics: MetricsTable, order: seq<DocId>, outcomes: seq<Result<Reply, ParseError>>, us: seq<Update>)
    requires |order| == |outcomes|
  {
    forall u :: 0 <= u < |us| ==> UpdateOk(merchants, metrics, order, outcomes, us[u])
  }

  predicate SentsOk(merchants: Collection, metrics: MetricsTable, order: seq<DocId>, ss: seq<Sent>) {
    forall s :: 0 <= s < |ss| ==> SentOk(merchants, metrics, order, ss[s])
  }

  /** Every document is its original enriched with the last reply written
      for it, and no document was added or removed. */
  predicate StoreOk(merchants: Collection, run: Run) {
    run.merchants.Keys == merchants.Keys &&
    forall id :: id in merchants ==> run.merchants[id] == Applied(merchants[id], LastReply(run.updates, id))
  }

  /** The candidates handled so far: all qualifying positions below `k`,
      or, after a parse failure at `j`, those below `j` and `j` itself. */
  predicate ProgressOk(merchants: Collection, metrics: MetricsTable, order: seq<DocId>, outcomes: seq<Result<Reply, ParseError>>, run: Run, k: nat)
    requires k <= |order| == |outcomes|
  {
    match run.status
    case Completed =>
      UpdateIndices(run.updates) == QualifyingBelow(merchants, metrics, order, k) &&
      SentIndices(run.sent) == QualifyingBelow(merchants, metrics, order, k)
    case Aborted(j, e) =>
      j < k && order[j] in merchants && Qualifies(merchants[order[j]], metrics) &&
      outcomes[j] == Failure(e) &&
      UpdateIndices(run.updates) == QualifyingBelow(merchants, metrics, order, j) &&
      SentIndices(run.sent) == QualifyingBelow(merchants, metrics, order, j) + [j]
  }

  /** The part of the invariant that does not mention the position. */
  predicate Facts(merchants: Collection, metrics: MetricsTable, order: seq<DocId>, outcomes: seq<Result<Reply, ParseError>>, run: Run)
    requires |order| == |outcomes|
  {
    StoreOk(merchants, run) &&
    UpdatesOk(merchants, metrics, order, outcomes, run.updates) &&
    SentsOk(merchants, metrics, order, run.sent) &&
    run.warnings == Flagged(run.updates)
  }

  /** The loop invariant after `k` cursor positions. */
  predicate Inv(merchants: Collection, metrics: MetricsTable, order: seq<DocId>, outcomes: seq<Result<Reply, ParseError>>, run: Run, k: nat)
    requires k <= |order| == |outcomes|
  {
    Facts(merchants, metrics, order, outcomes, run) && ProgressOk(merchants, metrics, order, outcomes, run, k)
  }

  // ---------------------------------------------------------------------
  // One step at a time.

  lemma LastReplySnoc(us: seq<Update>, u: Update, id: DocId)
    ensures LastReply(us + [u], id) == if u.id == id then Some(u.reply) else LastReply(us, id)
  {
    assert (us + [u])[..|us|] == us;
  }

  lemma FlaggedSnoc(us: seq<Update>, u: Update)
    ensures Flagged(us + [u]) == Flagged(us) + FlagOf(u)
  {
    assert (us + [u])[..|us|] == us;
  }

  lemma UpdateIndicesSnoc(us: seq<Update>, u: Update)
    ensures UpdateIndices(us + [u]) == UpdateIndices(us) + [u.index]
  {
    assert (us + [u])[..|us|] == us;
  }

  lemma SentIndicesSnoc(ss: seq<Sent>, s: Sent)
    ensures SentIndices(ss + [s]) == SentIndices(ss) + [s.index]
  {
    assert (ss + [s])[..|ss|] == ss;
  }

  lemma UpdatesOkSnoc(merchants: Collection, metrics: MetricsTable, order: seq<DocId>, outcomes: seq<Result<Reply, ParseError>>,
                      us: seq<Update>, u: Update)
    requires |order| == |outcomes|
    requires UpdatesOk(merchants, metrics, order, outcomes, us) && UpdateOk(merchants, metrics, order, outcomes, u)
    ensures UpdatesOk(merchants, metrics, order, outcomes, us + [u])
  {
    var a := us + [u];
    forall x | 0 <= x < |a| ensures UpdateOk(merchants, metrics, order, outcomes, a[x]) {
      if x < |us| {
        assert a[x] == us[x];
      }
    }
  }

  lemma SentsOkSnoc(merchants: Collection, metrics: MetricsTable, order: seq<DocId>, ss: seq<Sent>, s: Sent)
    requires SentsOk(merchants, metrics, order, ss) && SentOk(merchants, metrics, order, s)
    ensures SentsOk(merchants, metrics, order, ss + [s])
  {
    var a := ss + [s];
    forall x | 0 <= x < |a| ensures SentOk(merchants, metrics, order, a[x]) {
      if x < |ss| {
        assert a[x] == ss[x];
      }
    }
  }

  /** A document currently in the registry resolves as its original did. */
  lemma CurrentResolvesAsOriginal(merchants: Collection, metrics: MetricsTable, run: Run, id: DocId)
    requires StoreOk(merchants, run) && id in merchants
    ensures Resolve(run.merchants[id], metrics) == Resolve(merchants[id], metrics)
  {
    var r := LastReply(run.updates, id);
    if r.Some? {
      ResolveIgnoresEnrichment(run.merchants[id], merchants[id], metrics);
    }
  }

  /** The registry after a successful step is still the originals with
      their last replies applied. */
  lemma StepStore(merchants: Collection, run: Run, id: DocId, rep: Reply, i: nat)
    requires StoreOk(merchants, run) && id in merchants
    ensures StoreOk(merchants, run.(merchants := UpdateOne(run.merchants, id, rep),
                                   updates := run.updates + [Update(i, id, rep)]))
  {
    var us := run.updates + [Update(i, id, rep)];
    var c := UpdateOne(run.merchants, id, rep);
    forall other | other in merchants ensures c[other] == Applied(merchants[other], LastReply(us, other)) {
      LastReplySnoc(run.updates, Update(i, id, rep), other);
      if other == id {
        var before := LastReply(run.updates, id);
        if before.Some? {
          EnrichOverwrites(merchants[id], before.value, rep);
        }
      }
    }
  }

  /** A position whose document does not qualify adds no position to the
      qualifying ones. */
  lemma QualifyingBelowSkip(merchants: Collection, metrics: MetricsTable, order: seq<DocId>, k: nat)
    requires k < |order|
    requires order[k] !in merchants || !Qualifies(merchants[order[k]], metrics)
    ensures QualifyingBelow(merchants, metrics, order, k + 1) == QualifyingBelow(merchants, metrics, order, k)
  {
  }

  lemma QualifyingBelowTake(merchants: Collection, metrics: MetricsTable, order: seq<DocId>, k: nat)
    requires k < |order|
    requires order[k] in merchants && Qualifies(merchants[order[k]], metrics)
    ensures QualifyingBelow(merchants, metrics, order, k + 1) == QualifyingBelow(merchants, metrics, order, k) + [k]
  {
  }

  /** A step whose reply parses keeps every position-free fact. */
  lemma StepFactsWrite(merchants: Collection, metrics: MetricsTable, order: seq<DocId>, outcomes: seq<Result<Reply, ParseError>>,
                       run: Run, k: nat, req: Request, rep: Reply)
    requires k < |order| == |outcomes|
    requires Facts(merchants, metrics, order, outcomes, run)
    requires order[k] in merchants && Resolve(merchants[order[k]], metrics) == Some(req)
    requires outcomes[k] == Success(rep)
    ensures Facts(merchants, metrics, order, outcomes,
                  run.(merchants := UpdateOne(run.merchants, order[k], rep),
                       sent := run.sent + [Sent(k, order[k], req)],
                       updates := run.updates + [Update(k, order[k], rep)],
                       warnings := run.warnings + FlagOf(Update(k, order[k], rep))))
  {
    var u := Update(k, order[k], rep);
    StepStore(merchants, run, order[k], rep, k);
    FlaggedSnoc(run.updates, u);
    UpdatesOkSnoc(merchants, metrics, order, outcomes, run.updates, u);
    SentsOkSnoc(merchants, metrics, order, run.sent, Sent(k, order[k], req));
  }

  /** A step whose reply does not parse keeps every position-free fact. */
  lemma StepFactsAbort(merchants: Collection, metrics: MetricsTable, order: seq<DocId>, outcomes: seq<Result<Reply, ParseError>>,
                       run: Run, k: nat, req: Request, e: ParseError)
    requires k < |order| == |outcomes|
    requires Facts(merchants, metrics, order, outcomes, run)
    requires order[k] in merchants && Resolve(merchants[order[k]], metrics) == Some(req)
    ensures Facts(merchants, metrics, order, outcomes,
                  run.(sent := run.sent + [Sent(k, order[k], req)], status := Aborted(k, e)))
  {
    SentsOkSnoc(merchants, metrics, order, run.sent, Sent(k, order[k], req));
  }

  /** A position whose reply parses: the candidate is written and the
      invariant moves one position on. */
  lemma StepInvWrite(merchants: Collection, metrics: MetricsTable, order: seq<DocId>, outcomes: seq<Result<Reply, ParseError>>,
                     run: Run, k: nat, req: Request, rep: Reply)
    requires k < |order| == |outcomes|
    requires Inv(merchants, metrics, order, outcomes, run, k) && run.status.Completed?
    requires order[k] in merchants && Resolve(merchants[order[k]], metrics) == Some(req)
    requires outcomes[k] == Success(rep)
    ensures Inv(merchants, metrics, order, outcomes,
                run.(merchants := UpdateOne(run.merchants, order[k], rep),
                     sent := run.sent + [Sent(k, order[k], req)],
                     updates := run.updates + [Update(k, order[k], rep)],
                     warnings := run.warnings + FlagOf(Update(k, order[k], rep))), k + 1)
  {
    StepFactsWrite(merchants, metrics, order, outcomes, run, k, req, rep);
    QualifyingBelowTake(merchants, metrics, order, k);
    SentIndicesSnoc(run.sent, Sent(k, order[k], req));
    UpdateIndicesSnoc(run.updates, Update(k, order[k], rep));
  }

  /** A position whose reply does not parse: the run stops there. */
  lemma StepInvAbort(merchants: Collection, metrics: MetricsTable, order: seq<DocId>, outcomes: seq<Result<Reply, ParseError>>,
                     run: Run, k: nat, req: Request, e: ParseError)
    requires k < |order| == |outcomes|
    requires Inv(merchants, metrics, order, outcomes, run, k) && run.status.Completed?
    requires order[k] in merchants && Resolve(merchants[order[k]], metrics) == Some(req)
    requires outcomes[k] == Failure(e)
    ensures Inv(merchants, metrics, order, outcomes,
                run.(sent := run.sent + [Sent(k, order[k], req)], status := Aborted(k, e)), k + 1)
  {
    StepFactsAbort(merchants, metrics, order, outcomes, run, k, req, e);
    QualifyingBelowTake(merchants, metrics, order, k);
    SentIndicesSnoc(run.sent, Sent(k, order[k], req));
  }

  /** A position that is skipped, or that comes after the run stopped,
      leaves the run as it is. */
  lemma StepInvSame(merchants: Collection, metrics: MetricsTable, order: seq<DocId>, outcomes: seq<Result<Reply, ParseError>>,
                    run: Run, k: nat)
    requires k < |order| == |outcomes|
    requires Inv(merchants, metrics, order, outcomes, run, k)
    requires run.status.Aborted? || order[k] !in merchants || !Qualifies(merchants[order[k]], metrics)
    ensures Inv(merchants, metrics, order, outcomes, run, k + 1)
  {
    if run.status.Completed? {
      QualifyingBelowSkip(merchants, metrics, order, k);
    }
  }

  /** The loop invariant holds after one more position. */
  lemma StepInv(merchants: Collection, metrics: MetricsTable, order: seq<DocId>, outcomes: seq<Result<Reply, ParseError>>, run: Run, k: nat)
    requires k < |order| == |outcomes|
    requires Inv(merchants, metrics, order, outcomes, run, k)
    ensures Inv(merchants, metrics, order, outcomes, Step(run, metrics, k, order[k], outcomes[k]), k + 1)
  {
    var id := order[k];
    if run.status.Aborted? || id !in run.merchants {
      StepInvSame(merchants, metrics, order, outcomes, run, k);
    } else {
      CurrentResolvesAsOriginal(merchants, metrics, run, id);
      var req := Resolve(merchants[id], metrics);
      if req.None? {
        StepInvSame(merchants, metrics, order, outcomes, run, k);
      } else if outcomes[k].Failure? {
        StepInvAbort(merchants, metrics, order, outcomes, run, k, req.value, outcomes[k].error);
      } else {
        StepInvWrite(merchants, metrics, order, outcomes, run, k, req.value, outcomes[k].value);
      }
    }
  }

  /** The invariant holds before the first position. */
  lemma StartInv(merchants: Collection, metrics: MetricsTable, order: seq<DocId>, outcomes: seq<Result<Reply, ParseError>>)
    requires |order| == |outcomes|
    ensures Inv(merchants, metrics, order, outcomes, Start(merchants), 0)
  {
    assert StoreOk(merchants, Start(merchants));
  }

  /** The invariant holds after every number of positions. */
  lemma {:induction false} RunInv(merchants: Collection, metrics: MetricsTable, order: seq<DocId>, outcomes: seq<Result<Reply, ParseError>>, k: nat)
    requires k <= |order| == |outcomes|
    ensures Inv(merchants, metrics, order, outcomes, RunUpTo(merchants, metrics, order, outcomes, k), k)
  {
    if k == 0 {
      StartInv(merchants, metrics, order, outcomes);
    } else {
      var prev := RunUpTo(merchants, metrics, order, outcomes, k - 1);
      RunInv(merchants, metrics, order, outcomes, k - 1);
      StepInv(merchants, metrics, order, outcomes, prev, k - 1);
      assert RunUpTo(merchants, metrics, order, outcomes, k) == Step(prev, metrics, k - 1, order[k - 1], outcomes[k - 1]);
    }
  }

  /** Once the run has stopped, later positions change nothing. */
  lemma {:induction false} AbortedStays(merchants: Collection, metrics: MetricsTable, order: seq<DocId>,
                                        outcomes: seq<Result<Reply, ParseError>>, j: nat, k: nat)
    requires j <= k <= |order| == |outcomes|
    requires RunUpTo(merchants, metrics, order, outcomes, j).status.Aborted?
    ensures RunUpTo(merchants, metrics, order, outcomes, k) == RunUpTo(merchants, metrics, order, outcomes, j)
    decreases k
  {
    if k > j {
      AbortedStays(merchants, metrics, order, outcomes, j, k - 1);
    }
  }

  // ---------------------------------------------------------------------
  // The whole run.

  /** The run over every document the cursor yields, `replies[i]` being the
      model's output for position `i`. */
  function RunAll(merchants: Collection, metrics: MetricsTable, order: seq<DocId>, replies: seq<string>): Run
    requires |order| == |replies|
  {
    RunUpTo(merchants, metrics, order, Outcomes(replies), |order|)
  }

  lemma LastReplyFound(us: seq<Update>, id: DocId) returns (u: nat)
    requires LastReply(us, id).Some?
    ensures u < |us| && us[u].id == id && us[u].reply == LastReply(us, id).value
  {
    if us[|us| - 1].id == id {
      u := |us| - 1;
    } else {
      u := LastReplyFound(us[..|us| - 1], id);
    }
  }

  lemma LastReplyNone(us: seq<Update>, id: DocId)
    requires forall u :: 0 <= u < |us| ==> us[u].id != id
    ensures LastReply(us, id).None?
  {
    if us != [] {
      LastReplyNone(us[..|us| - 1], id);
    }
  }

  /** The run adds and removes no document, and changes a document in the
      four enrichment fields only, and only through a write to it. */
  lemma RunChangesOnlyEnrichment(merchants: Collection, metrics: MetricsTable, order: seq<DocId>, replies: seq<string>,
                                 run: Run, id: DocId)
    requires |order| == |replies| && run == RunAll(merchants, metrics, order, replies)
    requires id in merchants
    ensures run.merchants.Keys == merchants.Keys
    ensures Unenriched(run.merchants[id]) == Unenriched(merchants[id])
    ensures run.merchants[id] != merchants[id] ==> exists u :: 0 <= u < |run.updates| && run.updates[u].id == id
  {
    var outcomes := Outcomes(replies);
    RunInv(merchants, metrics, order, outcomes, |order|);
    assert StoreOk(merchants, run);
    var last := LastReply(run.updates, id);
    if last.Some? {
      var u := LastReplyFound(run.updates, id);
    }
  }

  /** A document that does not qualify, or that the cursor never reaches,
      is left exactly as it was: no request is sent and nothing is written
      for it. */
  lemma SkippedUntouched(merchants: Collection, metrics: MetricsTable, order: seq<DocId>, replies: seq<string>,
                         run: Run, id: DocId)
    requires |order| == |replies| && run == RunAll(merchants, metrics, order, replies)
    requires id in merchants
    requires !Qualifies(merchants[id], metrics) || id !in order
    ensures id in run.merchants && run.merchants[id] == merchants[id]
    ensures forall u :: 0 <= u < |run.updates| ==> run.updates[u].id != id
    ensures forall s :: 0 <= s < |run.sent| ==> run.sent[s].id != id
  {
    var outcomes := Outcomes(replies);
    RunInv(merchants, metrics, order, outcomes, |order|);
    assert UpdatesOk(merchants, metrics, order, outcomes, run.updates);
    assert SentsOk(merchants, metrics, order, run.sent);
    forall u | 0 <= u < |run.updates| ensures run.updates[u].id != id {
      assert UpdateOk(merchants, metrics, order, outcomes, run.updates[u]);
    }
    forall s | 0 <= s < |run.sent| ensures run.sent[s].id != id {
      assert SentOk(merchants, metrics, order, run.sent[s]);
    }
    LastReplyNone(run.updates, id);
    assert StoreOk(merchants, run);
  }

  /** Every write is the parse of the model's reply for a qualifying
      candidate at its own cursor position. */
  lemma RunWritesParsedReply(merchants: Collection, metrics: MetricsTable, order: seq<DocId>, replies: seq<string>, run: Run, u: nat)
    requires |order| == |replies| && run == RunAll(merchants, metrics, order, replies)
    requires u < |run.updates|
    ensures var x := run.updates[u];
      x.index < |order| && order[x.index] == x.id && x.id in merchants &&
      Qualifies(merchants[x.id], metrics) && Parse(replies[x.index]) == Success(x.reply)
  {
    var outcomes := Outcomes(replies);
    RunInv(merchants, metrics, order, outcomes, |order|);
    var x := run.updates[u];
    assert UpdateOk(merchants, metrics, order, outcomes, x);
    assert outcomes[x.index] == Parse(replies[x.index]);
  }

  /** Every document ends up holding, verbatim, the last reply written for
      it, and the documents written to nothing else. */
  lemma RunHoldsLastReplies(merchants: Collection, metrics: MetricsTable, order: seq<DocId>, replies: seq<string>, run: Run)
    requires |order| == |replies| && run == RunAll(merchants, metrics, order, replies)
    ensures run.merchants.Keys == merchants.Keys
    ensures forall id :: id in merchants ==> run.merchants[id] == Applied(merchants[id], LastReply(run.updates, id))
  {
    var outcomes := Outcomes(replies);
    RunInv(merchants, metrics, order, outcomes, |order|);
    assert StoreOk(merchants, run);
  }

  /** Each request carries the merchant id, the month and the record derived
      from the document's metrics record. */
  lemma RunRequests(merchants: Collection, metrics: MetricsTable, order: seq<DocId>, replies: seq<string>, run: Run)
    requires |order| == |replies| && run == RunAll(merchants, metrics, order, replies)
    ensures forall s :: 0 <= s < |run.sent| ==>
              var x := run.sent[s];
              x.index < |order| && order[x.index] == x.id && x.id in merchants &&
              Resolve(merchants[x.id], metrics) == Some(x.request)
  {
    var outcomes := Outcomes(replies);
    RunInv(merchants, metrics, order, outcomes, |order|);
    assert SentsOk(merchants, metrics, order, run.sent);
  }

  /** Every warning names a reason that is not allowed. */
  lemma {:induction false} FlaggedOnlyDisallowed(us: seq<Update>)
    ensures forall w :: w in Flagged(us) ==> !Allowed(w.reason)
  {
    if us != [] {
      FlaggedOnlyDisallowed(us[..|us| - 1]);
    }
  }

  /** A write's warning is among the warnings of a sequence of writes that
      holds it exactly when its reason is not allowed. */
  lemma {:induction false} FlaggedExactly(us: seq<Update>, u: Update)
    requires u in us
    ensures Warning(u.index, u.id, u.reply.reason) in Flagged(us) <==> !Allowed(u.reply.reason)
  {
    var init, last := us[..|us| - 1], us[|us| - 1];
    assert us == init + [last];
    FlaggedOnlyDisallowed(us);
    if u != last {
      assert u in init;
      FlaggedExactly(init, u);
    }
  }

  /** The run warns about a written reason exactly when it is not one of
      the eight allowed categories, and the write happens either way. */
  lemma RunWarnings(merchants: Collection, metrics: MetricsTable, order: seq<DocId>, replies: seq<string>, run: Run, u: Update)
    requires |order| == |replies| && run == RunAll(merchants, metrics, order, replies)
    requires u in run.updates
    ensures run.warnings == Flagged(run.updates)
    ensures Warning(u.index, u.id, u.reply.reason) in run.warnings <==> !Allowed(u.reply.reason)
    ensures forall w :: w in run.warnings ==> !Allowed(w.reason)
  {
    var outcomes := Outcomes(replies);
    RunInv(merchants, metrics, order, outcomes, |order|);
    assert run.warnings == Flagged(run.updates);
    FlaggedExactly(run.updates, u);
    FlaggedOnlyDisallowed(run.updates);
  }

  /** A completed run has written every qualifying candidate, in cursor
      order; a run that stopped did so at a qualifying candidate whose reply
      does not parse, having written exactly the qualifying ones before it. */
  lemma RunProgress(merchants: Collection, metrics: MetricsTable, order: seq<DocId>, replies: seq<string>, run: Run)
    requires |order| == |replies| && run == RunAll(merchants, metrics, order, replies)
    ensures run.status.Completed? ==>
              UpdateIndices(run.updates) == QualifyingBelow(merchants, metrics, order, |order|) &&
              SentIndices(run.sent) == QualifyingBelow(merchants, metrics, order, |order|)
    ensures run.status.Aborted? ==>
              var j := run.status.index;
              j < |order| && order[j] in merchants && Qualifies(merchants[order[j]], metrics) &&
              Parse(replies[j]) == Failure(run.status.error) &&
              UpdateIndices(run.updates) == QualifyingBelow(merchants, metrics, order, j) &&
              SentIndices(run.sent) == QualifyingBelow(merchants, metrics, order, j) + [j]
  {
    var outcomes := Outcomes(replies);
    RunInv(merchants, metrics, order, outcomes, |order|);
    assert ProgressOk(merchants, metrics, order, outcomes, run, |order|);
  }

  /** The run completes exactly when the reply of every qualifying
      candidate parses. */
  lemma RunCompletes(merchants: Collection, metrics: MetricsTable, order: seq<DocId>, replies: seq<string>, run: Run)
    requires |order| == |replies| && run == RunAll(merchants, metrics, order, replies)
    ensures run.status.Completed? <==>
              forall j :: 0 <= j < |order| && order[j] in merchants && Qualifies(merchants[order[j]], metrics) ==>
                Parse(replies[j]).Success?
  {
    var outcomes := Outcomes(replies);
    RunInv(merchants, metrics, order, outcomes, |order|);
    assert ProgressOk(merchants, metrics, order, outcomes, run, |order|);
    if run.status.Completed? {
      var qs := QualifyingBelow(merchants, metrics, order, |order|);
      assert UpdatesOk(merchants, metrics, order, outcomes, run.updates);
      forall j | 0 <= j < |order| && order[j] in merchants && Qualifies(merchants[order[j]], metrics)
        ensures Parse(replies[j]).Success?
      {
        assert j in qs;
        var p :| 0 <= p < |qs| && qs[p] == j;
        assert UpdateIndices(run.updates)[p] == j;
        assert UpdateOk(merchants, metrics, order, outcomes, run.updates[p]);
      }
    }
  }

  // ---------------------------------------------------------------------
  // The loop.

  /** What a run may change in the registry: no document is added or
      removed, only enrichment fields change, and only for qualifying
      documents among those `reached`. */
  predicate ChangesOnly(merchants: Collection, metrics: MetricsTable, reached: seq<DocId>, store: Collection) {
    store.Keys == merchants.Keys &&
    (forall id :: id in merchants ==> Unenriched(store[id]) == Unenriched(merchants[id])) &&
    (forall id :: id in merchants && store[id] != merchants[id] ==>
       id in reached && Qualifies(merchants[id], metrics))
  }

  /** Reaching one more document keeps the bound. */
  lemma ChangesOnlyReach(merchants: Collection, metrics: MetricsTable, order: seq<DocId>, store: Collection, k: nat)
    requires k < |order| && ChangesOnly(merchants, metrics, order[..k], store)
    ensures ChangesOnly(merchants, metrics, order[..k + 1], store)
  {
    assert order[..k + 1] == order[..k] + [order[k]];
  }

  /** Writing a qualifying document just reached keeps the bound. */
  lemma ChangesOnlyWrite(merchants: Collection, metrics: MetricsTable, order: seq<DocId>, store: Collection, k: nat, reply: Reply)
    requires k < |order| && ChangesOnly(merchants, metrics, order[..k], store)
    requires order[k] in merchants && Qualifies(merchants[order[k]], metrics)
    ensures ChangesOnly(merchants, metrics, order[..k + 1], UpdateOne(store, order[k], reply))
  {
    assert order[..k + 1] == order[..k] + [order[k]];
  }

  /** Each step keeps the bound: a write only ever goes to a qualifying
      document at the current position. */
  lemma ChangesOnlyStep(merchants: Collection, metrics: MetricsTable, order: seq<DocId>, run: Run, k: nat,
                        parsed: Result<Reply, ParseError>)
    requires k < |order| && ChangesOnly(merchants, metrics, order[..k], run.merchants)
    ensures ChangesOnly(merchants, metrics, order[..k + 1], Step(run, metrics, k, order[k], parsed).merchants)
  {
    var id := order[k];
    var next := Step(run, metrics, k, id, parsed);
    if next.merchants == run.merchants {
      ChangesOnlyReach(merchants, metrics, order, run.merchants, k);
    } else {
      ResolveIgnoresEnrichment(run.merchants[id], merchants[id], metrics);
      ChangesOnlyWrite(merchants, metrics, order, run.merchants, k, parsed.value);
    }
  }

  /** A bound over the documents reached so far holds for all of them. */
  lemma ChangesOnlyWithin(merchants: Collection, metrics: MetricsTable, order: seq<DocId>, store: Collection, k: nat)
    requires k <= |order| && ChangesOnly(merchants, metrics, order[..k], store)
    ensures ChangesOnly(merchants, metrics, order, store)
  {
    forall id | id in merchants && store[id] != merchants[id] ensures id in order {
      assert id in order[..k];
    }
  }

  /** The body of the loop for the document `id` at cursor position `i`:
      the skip rules, the request, and, depending on what parsing the
      model's reply gave (`parsed`), the stop or the write and the reason
      check. */
  method Visit(run: Run, metrics: MetricsTable, i: nat, id: DocId, parsed: Result<Reply, ParseError>) returns (next: Run)
    requires run.status.Completed? && id in run.merchants
    ensures next == Step(run, metrics, i, id, parsed)
  {
    var doc := run.merchants[id];
    var mid, termDate := Get(doc, MerchantIdKey), Get(doc, TermDateKey);
    if !Selected(doc) || !(Truthy(mid) && Truthy(termDate)) {
      assert Resolve(doc, metrics).None?;
      return run;
    }
    var d := FindOne(metrics, mid.value, termDate.value);
    if d.None? {
      assert Resolve(doc, metrics).None?;
      return run;
    }
    var request := Request(mid.value, termDate.value, Derive(d.value));
    assert Resolve(doc, metrics) == Some(request);
    var sent := run.sent + [Sent(i, id, request)];
    if parsed.Failure? {
      return run.(sent := sent, status := Aborted(i, parsed.error));
    }
    var fields := parsed.value;
    var warnings := run.warnings;
    if !Allowed(fields.reason) {
      warnings := warnings + [Warning(i, id, fields.reason)];
    }
    assert warnings == run.warnings + FlagOf(Update(i, id, fields));
    next := run.(merchants := UpdateOne(run.merchants, id, fields),
                 sent := sent,
                 updates := run.updates + [Update(i, id, fields)],
                 warnings := warnings);
  }

  /** One pass of the loop moves the state, and its bound, one position on. */
  lemma NextPosition(merchants: Collection, metrics: MetricsTable, order: seq<DocId>, replies: seq<string>,
                     outcomes: seq<Result<Reply, ParseError>>, i: nat, before: Run, next: Run)
    requires i < |order| == |replies| && outcomes == Outcomes(replies)
    requires before == RunUpTo(merchants, metrics, order, outcomes, i)
    requires ChangesOnly(merchants, metrics, order[..i], before.merchants)
    requires next == Step(before, metrics, i, order[i], Parse(replies[i]))
    ensures next == RunUpTo(merchants, metrics, order, outcomes, i + 1)
    ensures ChangesOnly(merchants, metrics, order[..i + 1], next.merchants)
  {
    assert outcomes[i] == Parse(replies[i]);
    ChangesOnlyStep(merchants, metrics, order, before, i, outcomes[i]);
  }

  /** A run that has stopped is the whole run. */
  lemma StoppedIsFinal(merchants: Collection, metrics: MetricsTable, order: seq<DocId>, replies: seq<string>,
                       k: nat, run: Run)
    requires k <= |order| == |replies|
    requires run == RunUpTo(merchants, metrics, order, Outcomes(replies), k) && run.status.Aborted?
    ensures run == RunAll(merchants, metrics, order, replies)
  {
    AbortedStays(merchants, metrics, order, Outcomes(replies), k, |order|);
  }

  /** The job's loop over the cursor: `order` lists registry documents in
      the cursor's order, the cursor's filter being applied by `Selected`,
      and `replies[i]` is the model's output
      for position `i`.  The loop ends early when a reply does not parse.
      The run changes only enrichment fields, and only of qualifying
      documents the cursor yields. */
  method ProcessMerchants(merchants: Collection, metrics: MetricsTable, order: seq<DocId>, replies: seq<string>)
    returns (run: Run)
    requires |order| == |replies|
    requires forall i :: 0 <= i < |order| ==> order[i] in merchants
    ensures run == RunAll(merchants, metrics, order, replies)
    ensures ChangesOnly(merchants, metrics, order, run.merchants)
  {
    ghost var outcomes := Outcomes(replies);
    run := Start(merchants);
    for i := 0 to |order|
      invariant run.status.Completed?
      invariant ChangesOnly(merchants, metrics, order[..i], run.merchants)
      invariant run == RunUpTo(merchants, metrics, order, outcomes, i)
    {
      ghost var before := run;
      var parsed := Parse(replies[i]);
      run := Visit(run, metrics, i, order[i], parsed);
      NextPosition(merchants, metrics, order, replies, outcomes, i, before, run);
      if run.status.Aborted? {
        StoppedIsFinal(merchants, metrics, order, replies, i + 1, run);
        ChangesOnlyWithin(merchants, metrics, order, run.merchants, i + 1);
        return;
      }
    }
    ChangesOnlyWithin(merchants, metrics, order, run.merchants, |order|);
  }
}
