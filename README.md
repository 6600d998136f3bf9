# Churn-reason enrichment job: a verified model

`analyze_churn_reason.py` is a batch job. It walks the merchant registry and:

- qualifies each document;
- looks up its monthly metrics record;
- derives an eight-key feature record and renders it as a text block;
- asks a language model for a churn reason and a suggested action;
- parses the four `label: value` lines of the reply;
- writes the four values back onto the merchant document;
- warns when the reason is not one of the eight allowed categories.

This project models that per-merchant logic in Dafny and proves properties of it.

Modules:

- `Wrappers`: `Option` and `Result`.
- `Values`: stored scalars, Python truthiness of `dict.get`, and `str()` of an integer.
- `Store`: merchant documents as field maps, the registry as a map from `_id` to document, and the metrics table with `find_one`.
- `Text`: `strip`, `split`/`join` on a separator, and `find` of a character (`IndexOf`, with `None` for -1). All are defined over `seq<char>`, with their algebra proved.
- `Features`: the `record` derivation and the `metrics_block` rendering.
- `ResponseParser`: the reply parser (non-blank stripped lines, then `split(":", 1)[1].strip()` on lines 0-3).
- `Writer`: the `update_one` `$set` of the four enrichment fields, and the `allowed_reasons` check.
- `Driver`: the loop.
  - `Step` is one iteration, as a function.
  - `RunUpTo` and `RunAll` are reference runs built from `Step`.
  - `Visit` and `ProcessMerchants` are the imperative loop.
  - The `Run*` lemmas state what a whole run does.

## How the outside world is modelled

- The database is a value.
  - The registry is a `Collection`, a map from document id to a field map.
  - The metrics collection is a sequence searched in its natural order.
  - The cursor of `find({"name": "ACN"})` is modelled by a sequence `order` of registry document ids, in the order the cursor visits them. Its filter `{"name": "ACN"}` is applied by `Driver.Selected` inside `Resolve`, so `order` may list any registry documents: one the filter would not yield is passed over without effect, as `SkippedUntouched` states.
- The language model is a parameter. `replies[i]` is its output for cursor position `i`, and it is used only when that candidate reaches the call.
- A reply that cannot be parsed raises an uncaught `IndexError` in the job. The model represents this as the run stopping with status `Aborted(i, error)`. Writes made before that point stay.
- Float arithmetic is not modelled.
  - The rates are symbolic terms (`PricePercent`, `ChargebackPercent`) that record which inputs they come from.
  - How such a rate prints is a parameter `rateText`.
  - A stored float is carried by its `repr` text.

## Model

| member | source | states |
|---|---|---|
| Driver.Step | analyze_churn_reason.py:88-164 | The definition of one pass of the loop for the document at a cursor position. Nothing happens after a stop, or when the document does not qualify. Otherwise the request is recorded. A parse failure then stops the run; a parsed reply is written with `UpdateOne`, and `FlagOf` adds its warning. `Visit` is proved to compute it. `NextPosition` and the `Run*` lemmas give its effect on a run. |
| Driver.RunAll | analyze_churn_reason.py:88-165 | The definition of the whole loop: `Step` applied at every cursor position in order, starting from the unchanged registry, with each reply parsed. `ProcessMerchants` is proved to compute it. `RunChangesOnlyEnrichment`, `SkippedUntouched`, `RunWritesParsedReply`, `RunHoldsLastReplies`, `RunRequests`, `RunWarnings`, `RunProgress` and `RunCompletes` state what it does. |
| Driver.FlagOf | analyze_churn_reason.py:163-164 | The definition of the warning a write raises: one warning naming the position, the document and the reason when the reason is not `Allowed`, none otherwise. `FlaggedExactly` and `RunWarnings` state its meaning over a run. |
| Driver.Selected | analyze_churn_reason.py:88 | The definition of the cursor's filter `{"name": "ACN"}`: the document's `name` is the string "ACN". `Resolve`'s contract makes it part of qualification. |
| Driver.RunUpTo | analyze_churn_reason.py:88-165 | The definition of the state after the first k cursor positions: `Step` applied at each of them in order. `RunInv` proves the invariant that the `Run*` lemmas read off, and `ProcessMerchants` keeps it as its loop invariant. |
| Driver.Resolve | analyze_churn_reason.py:88-98 | A document yields a request exactly when its `name` is "ACN", its `merchant_id` and `term_date` are both truthy, and the metrics table has a record for that (mid, month). The request then carries the mid, the month and the record derived from the first matching metrics document. |
| Driver.ResolveIgnoresEnrichment | analyze_churn_reason.py:89-98 | Two documents that agree outside the four enrichment fields qualify alike and yield the same request, so the job's own writes never change qualification. |
| Driver.SkippedUntouched | analyze_churn_reason.py:89-98 | A document that does not qualify, or is never yielded by the cursor, ends the run unchanged; no request is sent and no write is made for it. |
| Driver.RunChangesOnlyEnrichment | analyze_churn_reason.py:149-157 | A run adds and removes no document. Every document keeps all of its non-enrichment fields. A document that changed was the target of a write. |
| Driver.RunWritesParsedReply | analyze_churn_reason.py:143-157 | Every write goes to the qualifying document at its own cursor position. It writes the parse of the model's reply for that position. |
| Driver.RunHoldsLastReplies | analyze_churn_reason.py:149-157 | At the end, every document equals its original, enriched with the last reply written for it (unchanged if none was). |
| Driver.RunRequests | analyze_churn_reason.py:95-122 | Every request sent is for the document at its cursor position. It carries exactly what `Resolve` yields for that document: mid, month and derived record. |
| Driver.RunWarnings | analyze_churn_reason.py:158-164 | The warnings are exactly those of the writes, one per write whose reason is disallowed, in write order, so no warning belongs to no write. A written reason is warned about exactly when it is not an allowed category. Every warning names a disallowed reason. The write happens either way. |
| Driver.FlaggedExactly | analyze_churn_reason.py:163-164 | Within a sequence of writes, a write's warning is present if and only if its reason is disallowed. |
| Driver.RunProgress | analyze_churn_reason.py:88-165 | A completed run has written every qualifying cursor position, in cursor order. A stopped run stopped at a qualifying position whose reply does not parse, with the parse error as its status. It has then written exactly the qualifying positions before that one. Requests go out for the same positions as writes, plus, in a stopped run, the position it stopped at. |
| Driver.RunCompletes | analyze_churn_reason.py:88-165 | In the model, where a reply that does not parse is the only way a run stops early, the run completes if and only if the reply of every qualifying cursor position parses. The other ways the job itself can stop are listed under "Left out". |
| Driver.Visit | analyze_churn_reason.py:89-164 | The imperative loop body (skip checks with `continue`, request, write, warning) computes exactly one `Step` of the reference run. |
| Driver.ProcessMerchants | analyze_churn_reason.py:88-165 | The loop over the cursor produces the reference run `RunAll`. Its invariant shows the registry keeps its keys and that only enrichment fields change, and only for qualifying documents the cursor has reached. |
| Features.AdjustTenure | analyze_churn_reason.py:108-112 | A positive tenure becomes tenure + 1. A negative tenure passes through unchanged. An absent or zero tenure becomes 0. The result is 0 exactly when the tenure is falsy, and is never 1. |
| Features.Derive | analyze_churn_reason.py:100-113 | The record copies year_month, total_volume, transactions, month_over_threemonth_vol and support_count. `effective_rate` is absent exactly when `price` is absent. `chargeback_rate` is present exactly when `total_transactions` is truthy, and is then computed from the chargeback amount and the volume. Tenure is adjusted as above. |
| Features.CellText | analyze_churn_reason.py:114 | The definition of `f"{v}"` for a record value: "None" for an absent one, `str` of a stored one, and the given text of a computed rate. `SingleLineWhenFieldsAre` states when it holds no line break. |
| Features.BlockLines | analyze_churn_reason.py:114 | The eight `key: value` lines of the block, one per record item in declaration order: the i-th is `EntryLine` of the i-th key and its value text. |
| Features.Render | analyze_churn_reason.py:114 | The definition of `metrics_block`: the eight lines of `BlockLines` joined with newlines. `RenderedBlock` proves that the block splits back into those eight lines and that each line reads back to its key and value. |
| Features.Entries | analyze_churn_reason.py:100-113 | The record has exactly eight items, keyed in declaration order. |
| Features.FeatureKeysDistinct | analyze_churn_reason.py:100-113 | No key appears twice. |
| Features.FeatureKeysPlain | analyze_churn_reason.py:100-114 | No key holds a colon or a line break. |
| Features.RenderedBlock | analyze_churn_reason.py:114 | When no value text holds a line break, the rendered block splits into exactly eight lines. The i-th line is `key: value` for the i-th key, and reads back to that key and value. |
| Features.EntryLineRoundTrip | analyze_churn_reason.py:114 | A `key: value` line of a colon-free key reads back to the key and the value text. |
| Features.SingleLineWhenFieldsAre | analyze_churn_reason.py:100-114 | Integers print on one line, so the block is single-line per entry whenever the stored text fields and the rate texts are. |
| ResponseParser.NonBlank | analyze_churn_reason.py:143 | The definition of `[ln.strip() for ln in lines if ln.strip()]`; its result is no longer than its input. `NonBlankConcat`, `NonBlankOfSpaces` and `NonBlankKeepsAll` state its meaning. |
| ResponseParser.Lines | analyze_churn_reason.py:139-143 | The definition of the parser's `lines`: `out.strip()`, split at `'\n'`, with blank lines dropped and the rest stripped. `LinesIgnoreOuterWhitespace` and `LinesOfJoin` state its meaning. |
| ResponseParser.Field | analyze_churn_reason.py:144-147 | The definition of `lines[i].split(":", 1)[1].strip()`: `MissingLine(i)` when line i does not exist, `MissingColon(i)` when it has no colon, otherwise `AfterColon` of the line. `FieldMeaning` states its meaning. |
| ResponseParser.Collect | analyze_churn_reason.py:144-147 | The four fields evaluated in order: the first that fails stops the parse with its error, otherwise the four values form the reply. `FieldStops` states this for the parser's four fields. |
| ResponseParser.ParseLines | analyze_churn_reason.py:144-147 | The definition of reading the reply off the non-blank lines: `Collect` of fields 0-3. `ParseLinesSucceeds`, `ParseLinesFails` and `ParseLinesByPosition` state its meaning. |
| ResponseParser.Parse | analyze_churn_reason.py:139-147 | The definition of the whole parser: `ParseLines` of `Lines(out)`. `ParseLinesSucceeds`, `ParseLinesFails`, `ParsePositional` and `ParseTooFewLines` state its meaning. |
| ResponseParser.FieldStops | analyze_churn_reason.py:144-147 | The first of the four fields to fail gives the parse its error, and the parse succeeds when all four are read. |
| ResponseParser.FailureAfterGoodLines | analyze_churn_reason.py:144-147 | A failure names one of lines 0-3, and every line before it exists and holds a colon. |
| ResponseParser.FieldMeaning | analyze_churn_reason.py:144-147 | Reading field i succeeds exactly when line i exists and holds a colon. Its value is the trimmed text after the first colon. A failure names line i and says whether the line was missing or had no colon. |
| ResponseParser.ParseLinesSucceeds | analyze_churn_reason.py:143-147 | Parsing succeeds if and only if there are at least four non-blank lines and each of the first four holds a colon. The four values are then, by position, the trimmed text after the first colon of lines 0-3. |
| ResponseParser.ParseLinesFails | analyze_churn_reason.py:144-147 | On failure, the error names the first of lines 0-3 that is missing or has no colon. Every line before it exists and holds a colon. The error says which of the two cases occurred. |
| ResponseParser.AfterColon | analyze_churn_reason.py:144-147 | A value is extracted exactly when the line holds a colon. |
| ResponseParser.AfterFirstColon | analyze_churn_reason.py:144-147 | The value is the text after the first colon, trimmed. |
| ResponseParser.LinesIgnoreOuterWhitespace | analyze_churn_reason.py:139-143 | Stripping the whole output before splitting it changes none of its non-blank stripped lines. |
| ResponseParser.LinesOfJoin | analyze_churn_reason.py:139-143 | Splitting a newline-joined list of lines yields those lines, stripped, blank ones dropped. |
| ResponseParser.LabelledLine | analyze_churn_reason.py:143-147 | A `label:value` line with a colon-free label is never blank, and its value reads back trimmed. |
| ResponseParser.AfterColonOfLabelledLine | analyze_churn_reason.py:144-147 | The label is ignored, and colons after the first stay in the value. |
| ResponseParser.ParseLinesByPosition | analyze_churn_reason.py:144-147 | Lines are read by position only: the first four determine the reply, whatever follows. |
| ResponseParser.ParsePositional | analyze_churn_reason.py:143-147 | An output of four `label:value` lines followed by any further lines parses to the four values, trimmed, in order. Labels and the lines after the fourth are ignored. |
| ResponseParser.ParseTooFewLines | analyze_churn_reason.py:143-147 | An output of fewer than four lines fails to parse. |
| ResponseParser.NonBlankConcat | analyze_churn_reason.py:143 | Dropping blank lines distributes over concatenation. |
| ResponseParser.NonBlankOfSpaces | analyze_churn_reason.py:143 | Lines made only of whitespace are all dropped. |
| ResponseParser.NonBlankKeepsAll | analyze_churn_reason.py:143 | When no line strips to empty, every line is kept, stripped, in order. |
| Writer.Enrich | analyze_churn_reason.py:149-157 | The `$set` adds exactly the four enrichment keys, leaves every other field as it was, and reads back to the parsed reply verbatim. |
| Writer.EnrichOverwrites | analyze_churn_reason.py:149-157 | A second write to a document replaces the first completely. |
| Writer.EnrichWithOwnFields | analyze_churn_reason.py:149-157 | Rewriting a document's own four enrichment values leaves it unchanged. |
| Writer.UpdateOne | analyze_churn_reason.py:149-157 | `update_one` by `_id` enriches the matching document, changes no other, and creates none. |
| Writer.Allowed | analyze_churn_reason.py:158-163 | The definition of `rc in allowed_reasons`: membership in the eight-category list. `AllowedIsExact` shows the match is exact and case-sensitive. |
| Writer.AllowedIsExact | analyze_churn_reason.py:158-163 | The category check is an exact, case-sensitive match against the eight categories. A suggested action such as "chargeback mitigation", a different capitalisation, or a trailing space is rejected. |
| Store.FindOne | analyze_churn_reason.py:95-96 | `find_one` returns None exactly when no record matches (mid, month). Otherwise it returns a matching record from the table, namely the one at the position `FindFirst` gives, the first match in table order. |
| Store.FindFirst | analyze_churn_reason.py:95 | The returned position holds the first matching record. |
| Values.NatToStringRoundTrip | analyze_churn_reason.py:114 | The decimal digits `str(n)` prints for a natural number read back to `n`. |
| Values.IntToString | analyze_churn_reason.py:114 | `str(n)` of an integer is non-empty, made of digits with a leading minus exactly when `n` is negative. |
| Values.IntToStringRoundTrip | analyze_churn_reason.py:114 | Reading `str(n)` back as a numeral gives `n`, for negative numbers too, so the tenure line of the block names the tenure. |
| Text.Trim | analyze_churn_reason.py:143-147 | `strip()` yields a text that neither begins nor ends with whitespace. |
| Text.TrimInfix | analyze_churn_reason.py:143-147 | A text is its whitespace prefix, its stripped text and its whitespace suffix. |
| Text.TrimUnique | analyze_churn_reason.py:143-147 | Stripping a stripped text surrounded by whitespace gives that text. |
| Text.TrimSpacePrefix | analyze_churn_reason.py:143 | Leading whitespace does not change the stripped text. |
| Text.TrimSpaceSuffix | analyze_churn_reason.py:143 | Trailing whitespace does not change the stripped text. |
| Text.IndexOf | analyze_churn_reason.py:144-147 | The result is the position of the first occurrence of the character, or None when there is none. |
| Text.IndexOfFinds | analyze_churn_reason.py:144-147 | A position is found exactly when the character occurs. |
| Text.SplitPieces | analyze_churn_reason.py:143 | No piece of a split holds the separator. |
| Text.JoinSplit | analyze_churn_reason.py:114 | Joining the pieces of a split gives back the text. |
| Text.SplitJoin | analyze_churn_reason.py:114 | Splitting a join of separator-free pieces gives back the pieces. |
| Text.SplitAppend | analyze_churn_reason.py:143 | Splitting a concatenation glues the last piece of the first text to the first piece of the second. |
| Text.SplitAllSpace | analyze_churn_reason.py:143 | Every piece of a whitespace-only text is whitespace-only. |

## Left out

- MongoDB transport is not modelled: the connection, the `find`/`find_one`/`update_one` calls and `matched_count`/`modified_count` (lines 13-22, 95, 149-157, 165). The store is a value, and the cursor order is the parameter `order`.
- Changes other clients make to the registry while the loop runs are not modelled. The cursor's snapshot behaviour is not modelled either.
- The `merchant_ids` list (lines 21-23) is built and only counted in a log line, so it is not modelled.
- The OpenAI request is a parameter. Not modelled: the model name, temperature, the response object and token usage (lines 131-139, 168-169). `replies` gives one reply per cursor position.
- `Visit` is handed the parsed reply rather than calling the model. The order between sending the request and parsing the reply is not modelled; the run records the request before the outcome of the parse.
- Environment loading (lines 8-10) and every `print` are not modelled, except the reason warning, which is kept as a `Warning` entry.
- The static prompt text is not modelled (lines 30-86, 116-129): `field_definitions`, `input_example`, `system_instruction` and the `user_prompt` template. Only the rendered metrics block is modelled.
- The values of `effective_rate` and `chargeback_rate` are left out (lines 103-104). That covers float multiplication and division, `round(…, 2)`, and the default denominator 1 when `total_volume` is absent. Only their presence, and which inputs they come from, is modelled.
- Stored nulls are not modelled: a field is either absent or holds an integer, a string or a float. `dict.get(key, default)` returns `None` for a stored null, not the default.
- The model's only early stop is a reply that does not parse. The job also stops with an uncaught exception in these cases, none of which the model has:
  - a `ZeroDivisionError` when `total_volume` is 0 and `total_transactions` is truthy (line 104);
  - a `TypeError` when `activitychargebackamount` or `total_volume` is a stored null or a string and `total_transactions` is truthy (line 104);
  - a `TypeError` when `price` is not a number (line 103);
  - a `TypeError` when `tenure` is truthy but not a number, at the `> 0` comparison (line 110); a falsy non-number such as `""` becomes 0 at line 111 without an error;
  - an exception from the OpenAI call (line 131), or `message.content` being `None` (line 139);
  - a failed `update_one` (line 149);
  - an `AttributeError` when `resp.usage` is `None` (line 168), raised after that document's write and warning.
  `RunCompletes` and `RunProgress` hold for the model, not for the job, once any of these can happen.
- Derived tenure and `total_transactions` are modelled as integers. A stored float or string tenure is not modelled. In particular, `tenure + 1` on a non-integer is not.
- Query matching is structural equality of stored values (`Store.Matches`, `Driver.Selected`). Mongo's query semantics are not modelled:
  - `term_date` as a `datetime`;
  - numbers matching across types (a `merchant_id` of 5 finds a `mid` of 5.0);
  - a `name` array holding "ACN" matching the filter `{"name": "ACN"}` at line 88.
- `splitlines()` is modelled as splitting on `'\n'` only. Python also splits on `\r`, `\v`, `\f`, `\x1c`-`\x1e`, `\x85`, `\u2028` and `\u2029`. A `\r\n` ending still reads alike, because `'\r'` is stripped.
- `strip()` removes ASCII whitespace only: space, tab, `\n`, `\v`, `\f`, `\r` and `\x1c`-`\x1f`, the ASCII characters `str.isspace()` accepts. Non-ASCII whitespace such as `\x85` or `\u00a0` is not stripped.
