# A verified model of the decision platform's algorithms and protocols

The platform turns metric alerts into decisions, decisions into action proposals, proposals into
reviewed and executed actions, and executions into outbox events. This project models the parts of
it that carry hard properties and proves them for every input, every interleaving and every failure
the code can meet. Code that updates state is modelled as classes and loops and proved against a
specification; the specification's own properties are lemmas.

| file | what it models |
|---|---|
| `LogTail.dfy` | the chunked backward JSONL reader and the error-log endpoint |
| `ProposalTables.dfy`, `ProposalRuns.dfy`, `ProposalServices.dfy` | the propose / review / execute / outbox protocol: one committed transaction, all interleavings, and the services statement by statement |
| `Registry.dfy` | the action whitelist rebuilt from configuration |
| `Alerts.dfy` | the dimensional alert engine |
| `SqlText.dfy`, `SortExpr.dfy`, `LinkPlan.dfy` | link queries as text, their sort grammar, and a parser that reads them back |
| `Search.dfy` | the search compiler |
| `Evidence.dfy` | evidence templates |
| `Decisions.dfy`, `Evaluation.dfy` | decision generation with validator and fallback; the nine-dimension evaluator |
| `Traversal.dfy` | the depth-bounded link traversal |
| `Pipeline.dfy`, `Outbox.dfy`, `Overlap.dfy` | the pipeline runner, the outbox dispatcher, the two overlap figures |
| `Redaction.dfy` | which fields of an object a role may see |
| `Wrappers.dfy` | options, results and a few sequence functions |

How the environment is modelled. A failing file operation, SQL statement, commit, executor, provider
or audit write is a parameter, so a contract covers every combination of failures. As in PostgreSQL,
a failed statement aborts its transaction and committing an aborted transaction rolls back. Go's map
iteration order is an arbitrary choice; `sort.Slice` is any sorted rearrangement. `float64` is
`real`. JSON decoding, white-space trimming, number formatting and upper-casing are arbitrary
functions.

A definition that both a method and its contract use is also pinned down on its own, in a lemma that
gives its values in literals or its meaning in other terms: which channel an action goes to, when an
alert condition holds, which text a query prints where, which marking hides a field from whom.

Where the code and its comments or intent disagree, the model follows the code, and the difference is a
result:

- `ReadLogErrors` says it filters by request id and returns the last N entries; it filters the last N
  entries. `LogTail.ReadLogErrorsAgreesIff` says exactly when that is the same, and
  `LogTail.ReadLogErrorsLosesMatch` gives logs, for any decoder, where it is not.
- An execution overwrites the proposal's status without looking at it again.
  `ProposalRuns.LedgerThroughoutIff` gives the exact condition under which the outbox stays in step, and
  `ProposalRuns.OverlapPublishesTwice` with `ProposalRuns.OverlapIsReachable` a run that breaks it.
- A severity the alert engine does not know sorts with `high` but weighs as `low`
  (`Alerts.UnknownSeverity`).
- Which alerts survive the cut depends on sort.Slice when different alerts tie across it;
  `Alerts.KeptAlertsDeterminedIff` says exactly when it does not, and `Alerts.TiedAlertsKeptByChance`
  gives two alerts where it does. Their keys never depend on it.
- The rule-based fallback uses an action type as the decision type of high and critical alerts, so
  its output fails validation; `Decisions.FallbackValidIff` says exactly when it passes.
- Two filter keys can share a parameter name; `Search.MeaningKeptIff` says exactly when the query still
  finds the rows meant, and `Search.ClashLosesRow` and `Search.ClashFindsRow` give a row lost and a row
  wrongly found.
- A query template is documented to get the configured limit unless it has a LIMIT clause, and does not
  get it when the letters occur only inside longer words; `LinkPlan.PagedAsDocumentedIff` says exactly when
  the query is as documented, and `LinkPlan.LimitInsideWordDropsPaging` gives a template where it is not.
- A value containing an opening brace can swallow text up to a later closing brace;
  `Evidence.RenderingMeansSegmentsIff` gives the exact condition and `Evidence.OpenValueSwallowsText` an
  input.
- The replay overlap can exceed 1; `Overlap.OverlapAtMostOneIff` says exactly when it does not, in terms
  of repeated action types, and `Overlap.RepeatsExceedOne` gives an input.
- Marking a dispatch looks at no status, so a cancelled event can come back;
  `Outbox.CancellationIsFinalIff` says exactly when it cannot, `Outbox.CancelledThenDispatched` gives a
  run in which it does. `Outbox.NeverAttemptedAgainIff` says when a dispatched event can be attempted
  again, and `Outbox.DispatchedThenAttempted` gives a run in which it is.
- A lineage recorder's error is ignored; if it fails before its statement, the review commits without a
  lineage entry, and otherwise not at all (`ProposalServices.TransitionProposal`).
- The `decision_generated` event is recorded before the row is saved, so it stays when saving fails
  (`Decisions.DecisionEngine.GenerateDecision`).

Three differences are followed without a result of their own. The bridge-table strategy is documented
as a join and prints the same query as the direct one. The search compiler resolves a limit and does
not use it. The evaluator's comments speak of eight dimensions, and there are nine.

## Model

| member | source | states |
|---|---|---|
| LogTail.SplitJoin | internal/service/log_service.go:140-163 | the lines a file is split into contain no newline and joining them gives the file back, so the specification's lines are the file's lines |
| LogTail.JoinSplit | internal/service/log_service.go:140-163 | newline-free lines survive joining and splitting: no other reading of the file as lines is possible |
| LogTail.AtStep | internal/service/log_service.go:140-163 | what consuming one byte backwards does to the emitted entries and the reversed carry-over buffer |
| LogTail.CompletedIsPrefix | internal/service/log_service.go:153-155 | stopping early at any offset has emitted a prefix of the full answer |
| LogTail.FlushLine | internal/service/log_service.go:142-158 | reversing the buffer, trimming and decoding yields the line's entry or nothing |
| LogTail.ScanChunk | internal/service/log_service.go:140-163 | the inner loop over one chunk, with its early return once the limit is reached |
| LogTail.ScanBackwards | internal/service/log_service.go:120-181 | for every content, chunk size and limit the scan returns the newest `limit` decodable lines, newest first; it fails exactly when a read it comes to fails |
| LogTail.ReadChunk | internal/service/log_service.go:121-163 | one turn of the outer loop: reads the chunk before the current offset and scans it, or fails |
| LogTail.ScanFailsIff | internal/service/log_service.go:121-139 | a scan fails exactly when some chunk cannot be read that is still needed, neither the start of the file nor the limit having been reached before it |
| LogTail.ScanFailures | internal/service/log_service.go:121-139 | a scan without failing reads succeeds; the newest chunk is always needed, and the next one only if the limit has not been reached |
| LogTail.OffsetsAre | internal/service/log_service.go:121-126 | chunk k starts k + 1 chunk sizes before the end, the last one at the start of the file |
| LogTail.TailJSONL | internal/service/log_service.go:92-182 | the same with the missing, unreadable, unopenable and empty file and the non-positive limit |
| LogTail.TailOfLines | internal/service/log_service.go:140-181 | for any newline-free lines, the entries returned belong one to one, last line first, to the lines that are not empty, not blank after trimming and decode; each is what the decoder makes of the trimmed line, up to the limit |
| LogTail.TailOfOneRecord | internal/service/log_service.go:140-163 | the newest entry of a log of one good record is that record's |
| LogTail.SmallerLimitIsPrefix | internal/service/log_service.go:90-92 | a smaller limit returns a prefix of what a larger one returns |
| LogTail.AppendedRecordComesFirst | internal/service/log_service.go:90-91 | appending a record to a log of complete lines puts exactly its entry in front of all older ones |
| LogTail.ReadLogErrors | internal/service/log_service.go:185-209 | the clamped tail, then the request-id filter, and every error case |
| LogTail.ReturnedIs | internal/service/log_service.go:185-208 | of the newest entries, at most 500, those whose request id is the one asked for, or all of them for none or an empty one |
| LogTail.ReadLogErrorsAgreesIff | internal/service/log_service.go:184-208 | the endpoint returns the newest entries of the request up to the limit, as documented, exactly when the log has no more entries than the clamped limit, or the newest up to it all belong to the request, or no older one does |
| LogTail.ReadLogErrorsLosesMatch | internal/service/log_service.go:184-208 | for any decoder, a log whose newest record belongs to another request than the one before: asked for one entry, the endpoint returns none |
| ProposalRuns.NextKeepsInv | internal/review/service.go:89-161 | each protocol step keeps the invariant over committed tables and executions in flight |
| ProposalRuns.ExecutedKeepsInv | internal/action/apply_service.go:134-207 | so does a commit made from a stale snapshot |
| ProposalRuns.RunKeepsInv | internal/action/apply_service.go:86-207 | and so does every run |
| ProposalRuns.ApprovalPrecedesApplication | internal/review/service.go:88-161 | in every interleaving a proposed proposal has no review, an executed one exactly one approval, a rejected one exactly one refusal; `applying` is never committed; every event an execution published, among whatever other services publish, belongs to an approved proposal, names its action, and goes to github for a follow-up task and to feishu for any other |
| ProposalRuns.AppliedHasACause | internal/action/apply_service.go:97-207 | every applied proposal was turned from proposed to approved by a step, then loaded by an execution while approved, then applied by that same execution, which had not ended in between |
| ProposalRuns.StatusMoves | internal/action/apply_service.go:226-248 | the only status changes any step can make |
| ProposalRuns.DecisionIsFinal | internal/review/service.go:105-108 | the first review of a proposal is its only one for ever, and a rejection is final |
| ProposalRuns.RunGrows | internal/review/service.go:110-220 | over every run no review, event, audit or lineage entry is altered or removed, no proposal changes its case or action or forgets who applied it, and a case moves only to `proposal_generated` by an announcement of proposals, or to `review_required` from there with a new review of one of its own proposals |
| ProposalRuns.AwaitsReviewIff | internal/action/proposal_service.go:149-152 | a case stands at `proposal_generated` after a run exactly when the last announcement for it or review of its proposals was an announcement, or there was neither and it stood there before |
| ProposalRuns.CanonicalHasChannel | internal/action/apply_service.go:211-220 | an action type has a dispatch channel exactly when it is canonical |
| ProposalRuns.LedgerKeptIff | internal/action/apply_service.go:226-248 | a committing execution keeps "event iff applied, at most one" exactly when the status it overwrites is not `applied` (and, on success, the event id is new) |
| ProposalRuns.LedgerThroughoutIff | internal/action/apply_service.go:226-248 | with fresh event ids, in every interleaving, that ledger holds all through a run exactly when no execution of the run commits over an `applied` proposal |
| ProposalRuns.OrderlyRunKeepsLedger | internal/action/apply_service.go:134-207 | without overlapping executions of one proposal and with fresh event ids, every run keeps that ledger |
| ProposalRuns.OrderlyFromStart | internal/action/outbox_integration.go:13-54 | so from empty tables an event exists iff its proposal is applied, and there is at most one |
| ProposalRuns.OverlapPublishesTwice | internal/action/apply_service.go:97-131 | two executions holding the same proposal publish two events |
| ProposalRuns.OverlapIsReachable | internal/action/apply_service.go:97-107 | a run in which two executions hold the same proposal |
| ProposalRuns.RunKeepsBalance | internal/action/apply_service.go:187-198 | with fresh ids, successful executions in the audit log and outbox events balance for every proposal, in every interleaving |
| ProposalRuns.BalancedFromStart | internal/action/apply_service.go:187-198 | so from empty tables every proposal has as many events as recorded successes |
| ProposalServices.Transaction.Exec | internal/review/service.go:90-94 | a statement takes effect in the transaction unless it fails or the transaction is already aborted |
| ProposalServices.Transaction.UpdateProposal | internal/action/apply_service.go:226-248 | an update distinguishes a failed statement from a missing row |
| ProposalServices.Transaction.Commit | internal/review/service.go:156-158 | an aborted or failing commit leaves the committed tables as they were |
| ProposalServices.TransitionProposal | internal/review/service.go:89-161 | all or nothing: it succeeds exactly for a proposed proposal when no statement fails, a lineage recorder's own included, and is then the protocol's review step, without a lineage entry if the recorder failed otherwise |
| ProposalServices.UpdateCaseStatusIfNeeded | internal/review/service.go:201-220 | moves the case only from `proposal_generated`; a missing case is not an error |
| ProposalServices.LoadForExecution | internal/action/apply_service.go:86-120 | the checks before the transaction, in order, and exactly when they pass |
| ProposalServices.SucceedsMeans | internal/action/apply_service.go:144-176 | which channel's executor decides about which kind of action; without one the execution fails |
| ProposalServices.RecordOutcome | internal/action/apply_service.go:182-196 | the final status and the event are written in the execution's own transaction |
| ProposalServices.ExecuteForReal | internal/action/apply_service.go:134-207 | row, event and audit entry commit together or not at all; success is what github's executor reports of a follow-up task and feishu's of the other three kinds of action; a failed audit insert rolls everything back |
| ProposalServices.ExecuteProposal | internal/action/apply_service.go:86-132 | a dry run or an error changes nothing; an uninterrupted live run applies only approved, whitelisted proposals, never reaches the unknown channel, and is the protocol's load and apply steps in a row |
| ProposalServices.GenerateProposals | internal/action/proposal_service.go:63-159 | one row per acceptable action in order, all `proposed` and, with a registry, canonical, then the case update from any status; an unknown case is an error; rows before a failure stay; all this is a run of the protocol's propose and announce steps |
| ProposalServices.WriteProposals | internal/action/proposal_service.go:66-147 | the loop: the rows written are those of the acceptable actions up to the first failure |
| ProposalServices.ProposingKeepsInv | internal/action/proposal_service.go:124-147 | writing proposals keeps the protocol invariant |
| Registry.ActionRegistry.WhitelistActions | internal/action/registry.go:100-144 | the whitelist becomes the key set of the configuration, which keeps exactly the canonical enabled entries |
| Registry.ActionRegistry.DeleteUnknown | internal/action/registry.go:124-128 | deleting while iterating leaves exactly the canonical entries |
| Registry.ActionRegistry.RebuildWhitelist | internal/action/registry.go:130-143 | an entry switched off leaves both whitelist and configuration |
| Registry.ActionRegistry.LoadFile | internal/action/registry.go:83-98 | a failed load changes nothing |
| Registry.ActionRegistry.FromFile | internal/action/registry.go:61-81 | a missing file allows every canonical action |
| Registry.ActionRegistry.Empty | internal/action/registry.go:353-359 | allows nothing and is consistent |
| Registry.ActionRegistry.Reload | internal/action/registry.go:362-366 | keeps the registry consistent whether or not the file loads |
| Alerts.DimensionEmitsNewest | internal/alert/engine.go:526-583 | a dimension emits its triggering entries newest first, at most five, and omits an older one only when five newer are in |
| Alerts.TriggersExactly | internal/alert/engine.go:448-556 | an entry with enough sample triggers exactly if its value is above or below the threshold, or its change against the mean of the next window of older entries is, that mean existing and not being zero; an unrecognised condition never triggers |
| Alerts.ComputeBaseline | internal/alert/engine.go:535-556 | the loop computes the mean of the next window of older entries, absent when there are none |
| Alerts.ScanDimension | internal/alert/engine.go:527-582 | the capped scan returns exactly the dimension's alerts, and each of them meets the rule's sample minimum and condition |
| Alerts.GroupedEntries | internal/alert/engine.go:494-504 | grouping gives each dimension value its own rows in row order |
| Alerts.AlertsOverAnyFirst | internal/alert/engine.go:526 | any dimension may be visited first |
| Alerts.ExecuteRule | internal/alert/engine.go:474-585 | the multiset of alerts of a rule does not depend on the map's iteration order |
| Alerts.RuleAlertsAre | internal/alert/engine.go:494-585 | an alert belongs to a rule exactly if it is one of some dimension value's, scanned over that value's own rows |
| Alerts.SortedAlertsAgreeOnKeys | internal/alert/engine.go:631-641 | all sorted orders of the same alerts have the same sequence of keys |
| Alerts.RanksBefore | internal/alert/engine.go:631-641 | severity first, high and unknown before medium before low, then larger impact, then larger sample |
| Alerts.SuppressAlerts | internal/alert/engine.go:624-649 | sorts in place, keeps the front, and kept plus suppressed is everything |
| Alerts.KeptOutrankDropped | internal/alert/engine.go:645-648 | kept and dropped partition the alerts and no dropped alert ranks before a kept one |
| Alerts.KeptAlertsDeterminedIff | internal/alert/engine.go:631-648 | the kept alerts are the same for every sort result exactly when no two different alerts with equal keys straddle the cut |
| Alerts.TiedAlertsKeptByChance | internal/alert/engine.go:631-648 | any alert and its twin for another object: which one is kept depends on the sort |
| Alerts.UnknownSeverity | internal/alert/engine.go:606-641 | an alert of unknown severity is listed before all medium and low ones, weighs as low, and comes after a high one of the same sample |
| Alerts.EnrichAlerts | internal/alert/engine.go:588-614 | succeeds exactly when no lookup fails, and then every alert is enriched in place |
| Alerts.CollectAlerts | internal/alert/engine.go:733-740 | all rules' alerts exactly when every query succeeds, otherwise the first rule whose query fails |
| Alerts.EvaluateDimensionRules | internal/alert/engine.go:726-746 | the result is a possible outcome of the engine, and which error there is exactly when |
| Alerts.EvaluationIsOrderIndependent | internal/alert/engine.go:726-746 | any two outcomes on the same data have the same sequence of keys and the same suppressed count |
| SqlText.QuoteReadsBack | internal/ontology/link_plan.go:337-340 | a quoted identifier reads back as itself, whatever it contains, before any following text |
| SqlText.IntReadsBack | internal/ontology/link_plan.go:199-207 | a printed limit or offset reads back, negative ones included |
| SortExpr.ScanReadsText | internal/ontology/link_plan.go:10-13 | every text of the sort grammar scans to its terms and the scan stops exactly at its end |
| SortExpr.ScannedText | internal/ontology/link_plan.go:10-13 | whatever the scanner reads was written by the grammar |
| SortExpr.ValidSortIsGrammar | internal/ontology/link_plan.go:15-20 | a sort expression is valid exactly when it is empty or a text of the grammar |
| LinkPlan.QueryReadsBack | internal/ontology/link_plan.go:195-274 | parsing a printed link query recovers fields, schema, table, key, sort terms, limit and offset; sort terms appear exactly for a non-empty valid sort |
| LinkPlan.QueryTextDeterminesMeaning | internal/ontology/link_plan.go:337-340 | links with the same query text mean the same query, so no identifier can imitate another query |
| LinkPlan.FieldsReadBack | internal/ontology/link_plan.go:312-321 | the field list reads back |
| LinkPlan.OrderReadsBack | internal/ontology/link_plan.go:324-335 | an ORDER BY clause reads back, and an invalid sort leaves none |
| LinkPlan.ResolveFields | internal/ontology/link_plan.go:312-321 | the quoting loop prints the field list, or a star for none |
| LinkPlan.CompileKeyLink | internal/ontology/link_plan.go:195-274 | the direct, reverse and bridge strategies print the same query, with the source id as only argument |
| LinkPlan.CompileLink | internal/ontology/link_plan.go:178-191 | direct_key, lookup, reverse_lookup and bridge_table links always compile, to a query that reads back as configured; query_ref links exactly with an acceptable template; any other strategy is unknown; the source id is the only argument |
| LinkPlan.CompileQueryRef | internal/ontology/link_plan.go:277-306 | an empty or rejected template is an error; sort, limit and offset read back behind an accepted one without LIMIT, and one with a LIMIT clause is taken as it is |
| LinkPlan.PagedAsDocumentedIff | internal/ontology/queryref_validator.go:37-38 | a template is paged if and only if it has no LIMIT clause, as documented, exactly when LIMIT occurs nowhere in it or somewhere as a word by itself |
| LinkPlan.LimitInsideWordDropsPaging | internal/ontology/link_plan.go:293-297 | a template with a column rate_limit and no LIMIT clause loses its limit |
| Search.SanitizeParamName | internal/ontology/compiler.go:328-348 | the builder loop computes the parameter name |
| Search.ParamNameIsWord | internal/ontology/compiler.go:326-348 | every parameter name is an identifier and sanitising it again changes nothing |
| Search.ParamNamesAre | internal/ontology/compiler.go:328-348 | a key that is an identifier is its own parameter name |
| Search.ParamNamesCollide | internal/ontology/compiler.go:328-348 | two keys with one parameter name |
| Search.WhereReadsBack | internal/ontology/compiler.go:142-160 | the printed conditions read back as the compiled ones |
| Search.CompileColumns | internal/ontology/compiler.go:118-140 | each property lands, once, in the list its kind calls for, in any iteration order |
| Search.CompileFilters | internal/ontology/compiler.go:142-154 | conditions and arguments of exactly the accepted filters, for some visiting order |
| Search.CompileOrder | internal/ontology/compiler.go:162-174 | only a searchable property sorts, and any direction but DESC is ASC |
| Search.CompileSearch | internal/ontology/compiler.go:105-206 | data query, count query and arguments for some visiting order; behind the select list and behind COUNT(*) the object's schema and table and the conditions read back, and the ordering in the data query only |
| Search.CompiledQueryReadsBack | internal/ontology/compiler.go:182-192 | both queries read back from their texts |
| Search.SelectListReadsBack | internal/ontology/compiler.go:128-138 | without double quotes in the expressions the select list reads back too: each column's expression, or its source field, and its name |
| Search.QuotedExpressionsAreAmbiguous | internal/ontology/compiler.go:128-138 | two different select lists with the same text, one of them with double quotes in an expression |
| Search.KindsAre | internal/ontology/compiler.go:118-138 | metric references come first, planned properties are left out, virtual ones need an expression |
| Search.ArgsAreBound | internal/ontology/compiler.go:150-152 | every parameter is bound to the value of some filter that uses it |
| Search.CompiledFiltersMean | internal/ontology/compiler.go:142-160 | when no parameters clash, a row meets the conditions exactly when it meets every accepted filter |
| Search.SelectReturnsMeantRows | internal/ontology/compiler.go:186-192 | over any table the data query selects the rows meant, in order, so the count query counts them |
| Search.MeaningKeptIff | internal/ontology/compiler.go:144-152 | for all filters and visiting orders the query holds of exactly the rows meant if and only if no two filters share a parameter with different values, or some column is asked two values by the filters and some column two values by the bound parameters |
| Search.SomeRowMeets | internal/ontology/compiler.go:150-152 | unless some column is asked two values, a row meets everything asked |
| Search.ClashSeparates | internal/ontology/compiler.go:144-152 | with a clash no row is both meant and found |
| Search.ClashLosesRow | internal/ontology/compiler.go:144-152 | filters on two columns whose only row is not found |
| Search.ClashFindsRow | internal/ontology/compiler.go:144-152 | filters no row can meet that still find rows |
| Search.CompiledParametersAreBound | internal/ontology/compiler.go:150-159 | every parameter printed is an identifier and is bound |
| Evidence.RenderEvidence | internal/ontology/evidence_renderer.go:45-78 | the two passes, for some order of the pairs; with plain keys the order does not matter |
| Evidence.ReplaceIsSubstitute | internal/ontology/evidence_renderer.go:54-71 | with keys free of closing braces the replacer's result is independent of the pairs' order, for all templates and values |
| Evidence.OrderMattersForOddKeys | internal/ontology/evidence_renderer.go:56-71 | a key with a closing brace makes the order matter |
| Evidence.NoPlaceholderLeft | internal/ontology/evidence_renderer.go:73-77 | for all inputs no opening brace of the result is followed by a closing one |
| Evidence.RenderingMeansSegmentsIff | internal/ontology/evidence_renderer.go:41-78 | two passes equal the one-pass meaning, with N/A for unknown names, exactly when no opening brace of an inserted value is closed later |
| Evidence.OpenValueSwallowsText | internal/ontology/evidence_renderer.go:41-78 | a template and a value whose rendering is not their meaning |
| Evidence.OpenFreeValuesAreClean | internal/ontology/evidence_renderer.go:41-44 | values without opening braces always meet that condition |
| Evidence.RecipeKeysArePlain | internal/ontology/evidence_renderer.go:110-128 | the recipe renderer's own keys are plain |
| Evidence.RenderRecipeEvidence | internal/ontology/evidence_renderer.go:102-137 | every rule in order, rendered with its source's parameters |
| Evidence.RecipeParams | internal/ontology/evidence_renderer.go:110-128 | a metric rule shows the metric's value, its baseline and the first less the second, or zeroes without a result; any other rule has only the object and the severity |
| Decisions.NoErrorsIffValid | internal/llm/schema_validator.go:25-121 | no errors are listed exactly for outputs that meet the schema |
| Decisions.ErrorsAre | internal/llm/schema_validator.go:25-121 | each error is listed exactly when its rule is broken |
| Decisions.ErrorsInOrder | internal/llm/schema_validator.go:25-121 | errors are listed in the order of the rules, none twice |
| Decisions.ValidateDecision | internal/llm/schema_validator.go:25-121 | the errors in order, and validity |
| Decisions.FallbackValidIff | internal/llm/rule_provider.go:23-104 | the fallback's output meets the schema exactly for medium and low severity with its actions allowed |
| Decisions.Delivered | internal/decision/engine.go:100-206 | whatever the provider delivers is schema-valid |
| Decisions.DecisionEngine.GenerateDecision | internal/decision/engine.go:83-134 | exactly one row unless saving fails, holding the output returned; `valid` exactly when the provider delivers; a second provider call exactly when the first answer is an invalid output and repair is on; the `decision_generated` event exactly when the provider delivers, whether or not saving then fails; the case status |
| Decisions.DecisionEngine.HandleProviderError | internal/decision/engine.go:136-168 | the fallback's answer is stored, or the failure of both |
| Decisions.DecisionEngine.TryRepair | internal/decision/engine.go:179-212 | one repair attempt, accepted only if valid |
| Decisions.DecisionEngine.HandleInvalidOutput | internal/decision/engine.go:170-239 | a repaired output is stored as valid, otherwise the fallback's |
| Decisions.DecisionEngine.Store | internal/decision/engine.go:122-128 | save, then update the case, stopping at the first failure |
| Decisions.GenerateWithRules | internal/decision/engine.go:32-42 | with the rule-based fallback and working storage no provider makes a decision fail, and a valid row is schema-valid |
| Evaluation.EvaluateDimensions | internal/eval/decision_eval.go:113-246 | the nine pass flags |
| Evaluation.Evaluate | internal/eval/decision_eval.go:76-110 | passes exactly with at least seven of the nine dimensions |
| Evaluation.ValidOutputPassesIff | internal/eval/decision_eval.go:135-243 | a schema-valid output with an action passes exactly with a substantive summary, a rationale, or an owner for every action |
| Traversal.PathsAreResolvable | internal/decision/context_builder_v3.go:83-153 | the paths listed are exactly the resolvable link paths of length 1 to the depth bound, cycles included |
| Traversal.PathsAreOrdered | internal/decision/context_builder_v3.go:108-150 | they come in strict preorder, parents before children and links in their order |
| Traversal.NoPathTwice | internal/decision/context_builder_v3.go:108-150 | so no path is listed twice |
| Traversal.ResolvesIsEntry | internal/decision/context_builder_v3.go:124-135 | an entry's depth is the number of its links |
| Traversal.EntryIsNamedByItsPath | internal/decision/context_builder_v3.go:130-150 | an entry is labelled with the names of the links that lead to it, in path order, joined by dots |
| Traversal.TraversalSize | internal/decision/context_builder_v3.go:80-90 | with at most L links per type the size is at most L + L^2 + ... + L^d |
| Traversal.TraverseAtDepth | internal/decision/context_builder_v3.go:83-153 | the recursion terminates and returns the entries of those paths one by one |
| Traversal.Enrich | internal/decision/context_builder_v3.go:61-75 | nothing without an object, otherwise depth two |
| Pipeline.Database.RunStep | internal/pipeline/runner.go:68-116 | a step's effects are committed or not at all, and what its audit row then says |
| Pipeline.Database.RunSteps | internal/pipeline/runner.go:55-60 | the run stops at the first step that does not succeed |
| Pipeline.Database.Run | internal/pipeline/runner.go:41-66 | committed effects are those of a prefix of the steps in order; no error exactly when every step succeeded and the run row says completed |
| Pipeline.AuditTrailIsAccurate | internal/pipeline/runner.go:86-107 | every row before the last is completed, and committed steps exceed completed rows by one exactly when only the last audit write failed |
| Outbox.AccountingStep | internal/outbox/repository.go:125-160 | every create, begin, mark or cancel step keeps the account of attempts |
| Outbox.AttemptsAreAccountedFor | internal/outbox/repository.go:125-160 | in every interleaving with any failures each attempt is counted in `dispatch_attempts` once, unless its dispatch is in flight or its mark failed |
| Outbox.AttemptsFromStart | internal/outbox/repository.go:125-160 | so from the empty outbox the account always balances |
| Outbox.SettledStaysSettled | internal/api/handler_factories.go:457-459 | a dispatched or cancelled event that no dispatch holds is never attempted again, in any interleaving; cancelled is then terminal |
| Outbox.CancellationIsFinalIff | internal/outbox/repository.go:224-237 | whatever follows, a cancelled event stays cancelled exactly when no dispatch of it is in flight |
| Outbox.CancelledThenDispatched | internal/api/handler_factories.go:449-563 | a run from the empty outbox in which a cancelled event ends dispatched |
| Outbox.NeverAttemptedAgainIff | internal/api/handler_factories.go:449-510 | a dispatched or cancelled event is never attempted again, whatever follows, exactly when no dispatch in flight holds a failed outcome for it |
| Outbox.DispatchedThenAttempted | internal/api/handler_factories.go:449-510 | a run from the empty outbox in which a dispatched event is attempted again |
| Outbox.GetPendingEvents | internal/outbox/repository.go:88-121 | the oldest pending or failed events whose retry time does not lie ahead, at most the limit, ties in any order |
| Outbox.OutboxService.DispatchEvent | internal/api/handler_factories.go:449-510 | undisturbed, it is the begin and mark steps in a row: one attempt on a pending or failed event; and which error when |
| Outbox.OutboxService.CancelEvent | internal/api/handler_factories.go:553-563 | cancels whatever the status |
| Outbox.OutboxService.FilterChannel | internal/api/handler_factories.go:518-526 | the channel filter keeps the order and runs after the limit |
| Outbox.OutboxService.DispatchAll | internal/api/handler_factories.go:541-548 | each event of the batch is attempted once in order; the ids returned are exactly those dispatched; the counters add up; all other events are untouched |
| Outbox.OutboxService.BatchDispatch | internal/api/handler_factories.go:512-551 | the picked events of the channel are dispatched, oldest first; a dry run lists them and changes nothing |
| Overlap.JaccardIndex | internal/eval/comparison.go:57-80 | the loops compute intersection over union of the type sets |
| Overlap.JaccardProperties | internal/eval/comparison.go:57-80 | symmetric, within [0, 1], and 1 exactly for equal sets |
| Overlap.ActionOverlap | internal/eval/replay.go:161-177 | the loop's figure, without division by zero |
| Overlap.MatchesSplit | internal/eval/replay.go:166-171 | the matches counted are the common types, once each, and the replayed repetitions of types the original has |
| Overlap.OverlapAtMostOneIff | internal/eval/replay.go:166-177 | the figure is at most 1 exactly when those repetitions are no more than the original's actions beyond the common types plus the replayed actions of other types |
| Overlap.NoSurplusIff | internal/eval/replay.go:166-171 | there are no such repetitions exactly when no shared type is replayed twice |
| Overlap.DistinctReplayWithinOne | internal/eval/replay.go:166-177 | a replay that repeats no shared type stays within 1 |
| Overlap.RepeatsExceedOne | internal/eval/replay.go:166-177 | one repeated action makes it 2 |
| Overlap.OverlapsAgree | internal/eval/replay.go:161-177 | without repeats both figures agree |
| Redaction.LessIsTotal | internal/governance/redaction.go:47-49 | of two different names exactly one comes first |
| Redaction.LessIs | internal/governance/redaction.go:47-49 | names are ordered by the first character that differs, and a proper beginning comes first |
| Redaction.ReportIsUnique | internal/governance/redaction.go:47-49 | two name-sorted lists of the same entries are equal, so the result does not depend on map order or sorting algorithm |
| Redaction.SortByName | internal/governance/redaction.go:47-49 | entries with different names are put in strict name order, none lost or added |
| Redaction.SplitField | internal/governance/redaction.go:35-45 | one field is either kept with its value or listed with its reason |
| Redaction.RedactObjectContext | internal/governance/redaction.go:26-55 | kept and redacted fields partition the properties, kept values are unchanged, and the redacted ones are listed in strict name order |
| Redaction.RedactingTwice | internal/governance/redaction.go:26-55 | redacting what is left keeps it all and lists nothing |
| Redaction.VisibilityFollowsRank | internal/governance/redaction.go:57-109 | under all classifications and markings one role sees all another sees exactly when it ranks no lower: viewer, agent_readonly, any other role, admin |

## Left out

- LogTail.TailJSONL: does not model a file that shrinks between the size query and a read, or white space and JSON themselves, which are arbitrary functions here.
- ProposalServices.ExecuteForReal: does not model what an executor does outside the database, which is not undone when the transaction rolls back.
- ProposalServices.GenerateProposals: titles, descriptions, risk levels and payload schemas are text or one acceptance function, because they decide nothing the protocol depends on.
- ProposalRuns.RunGrows: does not model the other writers of a case's status, such as the decision engine, which are no part of the protocol.
- Alerts.ComputeBaseline: uses exact reals, so rounding and NaN are not modelled.
- Search.CompileSearch: does not model NULL, whose equality is never true in SQL, or the text of column expressions.
- Evidence.RenderRecipeEvidence: the unified format built from its result only copies fields.
- Evaluation.EvaluateDimensions: persistence of the result and its detail records.
- LinkPlan.CompileQueryRef: takes template validation, a list of forbidden patterns, and upper-casing as arbitrary functions.
- The loop that compiles all links of an object.
- The single-object and metric query compilers, which print one fixed condition.
- Proposal payload schema checks, the CSV audit reader and the alert threshold parser: short functions with no property beyond their own definitions.
- HTTP handlers, external service clients, the MCP tools, the command line, the frontend, the dispatch worker and its back-off, and the pipeline steps.
- Identifier generation, hashing, clocks and time-outs: fresh or arbitrary values.
