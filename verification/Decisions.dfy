/**
  Decision generation (internal/decision/engine.go) with its validator (internal/llm/schema_validator.go)
  and its rule-based fallback (internal/llm/rule_provider.go).

  The language-model provider is an arbitrary oracle: each call may fail, answer nothing, or answer
  any output whatever.
 */
module Decisions {
  import opened Wrappers

  datatype Action = Action(actionType: string, priority: string, ownerRole: string)

  datatype Output = Output(schemaVersion: string, decisionType: string, severity: string, summary: string,
                           rationale: seq<string>, actions: seq<Action>, confidence: real, requiresReview: bool)

  const DECISION_TYPES: set<string> := {"monitor_only", "investigate", "optimize", "intervention", "experiment"}
  const SEVERITIES: set<string> := {"low", "medium", "high", "critical"}
  const ACTION_TYPES: set<string> :=
    {"create_followup_task", "notify_owner", "export_report", "create_outbox_message", "escalate_to_human"}

  // ---------------------------------------------------------------- validation

  datatype ValidationError =
    | NilOutput | UnknownSchema | BadDecisionType | BadSeverity | BadConfidence | ReviewNotRequired
    | NotAllowed(i: nat) | UnknownAction(i: nat)

  /** The schema rules, as the validator's comments state them. */
  ghost predicate ValidOutput(output: Option<Output>, allowed: seq<string>) {
    output.Some? &&
    var o := output.value;
    && (o.schemaVersion == "" || o.schemaVersion == "decision_output.v1")
    && o.decisionType in DECISION_TYPES
    && o.severity in SEVERITIES
    && 0.0 <= o.confidence <= 1.0
    && o.requiresReview
    && forall a :: a in o.actions ==> a.actionType in allowed && a.actionType in ACTION_TYPES
  }

  function ActionErrors(actions: seq<Action>, allowed: seq<string>, n: nat): seq<ValidationError>
    requires n <= |actions|
  {
    if n == 0 then []
    else
      ActionErrors(actions, allowed, n - 1)
      + (if actions[n - 1].actionType !in allowed then [NotAllowed(n - 1)] else [])
      + (if actions[n - 1].actionType !in ACTION_TYPES then [UnknownAction(n - 1)] else [])
  }

  lemma {:induction false} NoActionErrors(actions: seq<Action>, allowed: seq<string>, n: nat)
    requires n <= |actions|
    ensures ActionErrors(actions, allowed, n) == []
            <==> forall i :: 0 <= i < n ==> actions[i].actionType in allowed && actions[i].actionType in ACTION_TYPES
  {
    if n > 0 {
      NoActionErrors(actions, allowed, n - 1);
    }
  }

  /** The errors about the output itself. */
  function HeaderErrors(o: Output): seq<ValidationError> {
    Unless(o.schemaVersion == "" || o.schemaVersion == "decision_output.v1", UnknownSchema)
    + Unless(o.decisionType in DECISION_TYPES, BadDecisionType)
    + Unless(o.severity in SEVERITIES, BadSeverity)
    + Unless(0.0 <= o.confidence <= 1.0, BadConfidence)
    + Unless(o.requiresReview, ReviewNotRequired)
  }

  function Unless(ok: bool, e: ValidationError): seq<ValidationError> {
    if ok then [] else [e]
  }

  /** The errors the validator lists, in its order. */
  function ErrorsOf(output: Option<Output>, allowed: seq<string>): seq<ValidationError> {
    if output.None? then [NilOutput]
    else HeaderErrors(output.value) + ActionErrors(output.value.actions, allowed, |output.value.actions|)
  }

  /** No errors are listed exactly for the outputs that meet the schema. */
  lemma NoErrorsIffValid(output: Option<Output>, allowed: seq<string>)
    ensures ErrorsOf(output, allowed) == [] <==> ValidOutput(output, allowed)
  {
    if output.Some? {
      var actions := output.value.actions;
      NoActionErrors(actions, allowed, |actions|);
      assert (forall i :: 0 <= i < |actions| ==>
          actions[i].actionType in allowed && actions[i].actionType in ACTION_TYPES)
        <==> (forall a :: a in actions ==> a.actionType in allowed && a.actionType in ACTION_TYPES);
    }
  }

  /** The schema rules, spelled out. */
  lemma SchemaIs(o: Output, allowed: seq<string>)
    ensures ValidOutput(Some(o), allowed) <==>
              && (o.schemaVersion == "" || o.schemaVersion == "decision_output.v1")
              && o.decisionType in {"monitor_only", "investigate", "optimize", "intervention", "experiment"}
              && o.severity in {"low", "medium", "high", "critical"}
              && 0.0 <= o.confidence && o.confidence <= 1.0
              && o.requiresReview
              && forall i :: 0 <= i < |o.actions| ==>
                   && o.actions[i].actionType in allowed
                   && o.actions[i].actionType in {"create_followup_task", "notify_owner", "export_report",
                                                  "create_outbox_message", "escalate_to_human"}
  {
    assert forall i :: 0 <= i < |o.actions| ==> o.actions[i] in o.actions;
  }

  lemma {:induction false} ListedActionErrors(actions: seq<Action>, allowed: seq<string>, n: nat, i: nat)
    requires n <= |actions|
    ensures NotAllowed(i) in ActionErrors(actions, allowed, n) <==> i < n && actions[i].actionType !in allowed
    ensures UnknownAction(i) in ActionErrors(actions, allowed, n) <==> i < n && actions[i].actionType !in ACTION_TYPES
    ensures forall e :: e in ActionErrors(actions, allowed, n) ==> e.NotAllowed? || e.UnknownAction?
  {
    if n > 0 {
      ListedActionErrors(actions, allowed, n - 1, i);
    }
  }

  lemma ListedHeaderErrors(o: Output, e: ValidationError)
    ensures e in HeaderErrors(o) <==>
              || (e == UnknownSchema && o.schemaVersion != "" && o.schemaVersion != "decision_output.v1")
              || (e == BadDecisionType && o.decisionType !in DECISION_TYPES)
              || (e == BadSeverity && o.severity !in SEVERITIES)
              || (e == BadConfidence && (o.confidence < 0.0 || o.confidence > 1.0))
              || (e == ReviewNotRequired && !o.requiresReview)
  {
    InConcat(Unless(o.schemaVersion == "" || o.schemaVersion == "decision_output.v1", UnknownSchema),
             Unless(o.decisionType in DECISION_TYPES, BadDecisionType), Unless(o.severity in SEVERITIES, BadSeverity),
             Unless(0.0 <= o.confidence <= 1.0, BadConfidence), Unless(o.requiresReview, ReviewNotRequired), e);
  }

  lemma InConcat<A>(a: seq<A>, b: seq<A>, c: seq<A>, d: seq<A>, e: seq<A>, x: A)
    ensures x in a + b + c + d + e <==> x in a || x in b || x in c || x in d || x in e
  {
  }

  /** Each error is listed exactly when its rule is broken. */
  lemma ErrorsAre(o: Output, allowed: seq<string>, e: ValidationError)
    ensures e in ErrorsOf(Some(o), allowed) <==>
              match e
              case NilOutput => false
              case UnknownSchema => o.schemaVersion != "" && o.schemaVersion != "decision_output.v1"
              case BadDecisionType => o.decisionType !in DECISION_TYPES
              case BadSeverity => o.severity !in SEVERITIES
              case BadConfidence => o.confidence < 0.0 || o.confidence > 1.0
              case ReviewNotRequired => !o.requiresReview
              case NotAllowed(i) => i < |o.actions| && o.actions[i].actionType !in allowed
              case UnknownAction(i) => i < |o.actions| && o.actions[i].actionType !in ACTION_TYPES
    ensures ErrorsOf(None, allowed) == [NilOutput]
  {
    ListedHeaderErrors(o, e);
    ListedActionErrors(o.actions, allowed, |o.actions|, if e.NotAllowed? || e.UnknownAction? then e.i else 0);
  }

  /** The order in which the rules are checked. */
  function Place(e: ValidationError): int {
    match e
    case NilOutput => 0
    case UnknownSchema => 1
    case BadDecisionType => 2
    case BadSeverity => 3
    case BadConfidence => 4
    case ReviewNotRequired => 5
    case NotAllowed(i) => 6 + 2 * i
    case UnknownAction(i) => 7 + 2 * i
  }

  ghost predicate InOrder(errors: seq<ValidationError>) {
    forall i, j :: 0 <= i < j < |errors| ==> Place(errors[i]) < Place(errors[j])
  }

  lemma {:induction false} ActionErrorsInOrder(actions: seq<Action>, allowed: seq<string>, n: nat)
    requires n <= |actions|
    ensures InOrder(ActionErrors(actions, allowed, n))
    ensures forall e :: e in ActionErrors(actions, allowed, n) ==> 6 <= Place(e) < 6 + 2 * n
  {
    if n > 0 {
      ActionErrorsInOrder(actions, allowed, n - 1);
    }
  }

  lemma HeaderErrorsInOrder(o: Output)
    ensures InOrder(HeaderErrors(o))
    ensures forall e :: e in HeaderErrors(o) ==> Place(e) < 6
  {
  }

  /** Errors are listed in the order of the rules, none twice. */
  lemma ErrorsInOrder(output: Option<Output>, allowed: seq<string>)
    ensures InOrder(ErrorsOf(output, allowed))
  {
    if output.Some? {
      var header := HeaderErrors(output.value);
      var actions := ActionErrors(output.value.actions, allowed, |output.value.actions|);
      HeaderErrorsInOrder(output.value);
      ActionErrorsInOrder(output.value.actions, allowed, |output.value.actions|);
      forall i, j | 0 <= i < j < |header + actions|
        ensures Place((header + actions)[i]) < Place((header + actions)[j])
      {
        if i < |header| <= j {
          assert header[i] in header && actions[j - |header|] in actions;
        }
      }
    }
  }

  method ValidateActions(actions: seq<Action>, allowed: seq<string>) returns (errors: seq<ValidationError>)
    ensures errors == ActionErrors(actions, allowed, |actions|)
  {
    errors := [];
    for i := 0 to |actions|
      invariant errors == ActionErrors(actions, allowed, i)
    {
      if actions[i].actionType !in allowed {
        errors := errors + [NotAllowed(i)];
      }
      if actions[i].actionType !in ACTION_TYPES {
        errors := errors + [UnknownAction(i)];
      }
    }
  }

  /** One rule: its error is appended when it is broken. */
  method Check(before: seq<ValidationError>, ok: bool, e: ValidationError) returns (errors: seq<ValidationError>)
    ensures errors == before + Unless(ok, e)
  {
    errors := before;
    if !ok {
      errors := errors + [e];
    }
  }

  method ValidateHeader(o: Output) returns (errors: seq<ValidationError>)
    ensures errors == HeaderErrors(o)
  {
    errors := Check([], o.schemaVersion == "" || o.schemaVersion == "decision_output.v1", UnknownSchema);
    errors := Check(errors, o.decisionType in DECISION_TYPES, BadDecisionType);
    errors := Check(errors, o.severity in SEVERITIES, BadSeverity);
    errors := Check(errors, 0.0 <= o.confidence <= 1.0, BadConfidence);
    errors := Check(errors, o.requiresReview, ReviewNotRequired);
  }

  /** ValidateDecision. */
  method ValidateDecision(output: Option<Output>, allowed: seq<string>) returns (errors: seq<ValidationError>)
    ensures errors == ErrorsOf(output, allowed)
    ensures errors == [] <==> ValidOutput(output, allowed)
  {
    NoErrorsIffValid(output, allowed);
    if output.None? {
      return [NilOutput];
    }
    var header := ValidateHeader(output.value);
    var actionErrors := ValidateActions(output.value.actions, allowed);
    errors := header + actionErrors;
  }

  // ---------------------------------------------------------------- contexts and providers

  datatype Trigger = Trigger(severity: string, metricName: string, current: real, baseline: real, delta: real)

  datatype Governance = Governance(classification: string, redactedFields: seq<string>, role: string,
                                   repairErrors: seq<ValidationError>)

  datatype SafeContext = SafeContext(caseId: string, trigger: Trigger, governance: Governance,
                                     allowed: seq<string>, forbidden: seq<string>)

  datatype Answer = Failed | Answered(output: Option<Output>)

  /** The answer may depend on the call and on everything the provider is shown. */
  type Provider = (nat, SafeContext) -> Answer

  /** buildRepairContext: adds the errors and a default role, and changes nothing else. */
  function RepairContext(original: SafeContext, errors: seq<ValidationError>): SafeContext {
    var g := original.governance;
    original.(governance := g.(role := if g.role == "" then "agent_readonly" else g.role, repairErrors := errors))
  }

  // ---------------------------------------------------------------- the rule-based fallback

  /** Summaries and rationales are formatted text; any text will do. */
  datatype Narrative = Narrative(summary: string, rationale: seq<string>)

  function Decide(t: Trigger, text: Narrative): Output {
    var make := (decisionType: string, confidence: real, actions: seq<Action>) =>
      Output("", decisionType, t.severity, text.summary, text.rationale, actions, confidence, true);
    if t.severity == "critical" then
      make("escalate_to_human", 0.95,
           [Action("escalate_to_human", "high", "ops"), Action("notify_owner", "high", "ops")])
    else if t.severity == "high" then
      make("escalate_to_human", 0.85,
           [Action("escalate_to_human", "high", "ops"), Action("notify_owner", "high", "ops")])
    else if t.severity == "medium" then
      make("investigate", 0.72,
           [Action("notify_owner", "medium", "analyst"), Action("create_followup_task", "medium", "analyst")])
    else if t.severity == "low" then
      make("monitor_only", 0.60, [Action("create_followup_task", "low", "analyst")])
    else
      make("investigate", 0.50, [Action("notify_owner", "medium", "analyst")])
  }

  /** The fallback's answers, severity by severity. */
  lemma FallbackIs(t: Trigger, text: Narrative)
    ensures var o := Decide(t, text);
      && o.schemaVersion == "" && o.severity == t.severity && o.requiresReview
      && o.summary == text.summary && o.rationale == text.rationale
      && (t.severity == "critical" || t.severity == "high" ==>
            && o.decisionType == "escalate_to_human"
            && o.confidence == (if t.severity == "critical" then 0.95 else 0.85)
            && o.actions == [Action("escalate_to_human", "high", "ops"), Action("notify_owner", "high", "ops")])
      && (t.severity == "medium" ==>
            && o.decisionType == "investigate" && o.confidence == 0.72
            && o.actions == [Action("notify_owner", "medium", "analyst"),
                             Action("create_followup_task", "medium", "analyst")])
      && (t.severity == "low" ==>
            && o.decisionType == "monitor_only" && o.confidence == 0.60
            && o.actions == [Action("create_followup_task", "low", "analyst")])
      && (t.severity !in {"critical", "high", "medium", "low"} ==>
            && o.decisionType == "investigate" && o.confidence == 0.50
            && o.actions == [Action("notify_owner", "medium", "analyst")])
  {
  }

  function RuleProvider(narrate: Trigger -> Narrative): Provider {
    (n: nat, ctx: SafeContext) => Answered(Some(Decide(ctx.trigger, narrate(ctx.trigger))))
  }

  /**
    The fallback is total but not always valid: it meets the schema exactly for medium and low
    severity with its actions allowed.  For high and critical alerts it uses an action type as the
    decision type, which the validator rejects.
   */
  lemma FallbackValidIff(t: Trigger, text: Narrative, allowed: seq<string>)
    ensures ValidOutput(Some(Decide(t, text)), allowed) <==>
              || (t.severity == "medium" && "notify_owner" in allowed && "create_followup_task" in allowed)
              || (t.severity == "low" && "create_followup_task" in allowed)
  {
    var o := Decide(t, text);
    if t.severity == "medium" {
      assert o.actions[0].actionType == "notify_owner" && o.actions[1].actionType == "create_followup_task";
      assert o.actions[0] in o.actions && o.actions[1] in o.actions;
    } else if t.severity == "low" {
      assert o.actions[0].actionType == "create_followup_task" && o.actions[0] in o.actions;
    }
  }

  // ---------------------------------------------------------------- the engine

  datatype Event =
    | DecisionRequested | DecisionGenerated | ValidationFailed
    | RepairAttempted | RepairSucceeded | RepairFailed | FallbackUsed | CaseFailed

  datatype Row = Row(caseId: string, output: Option<Output>, status: string, errors: seq<ValidationError>,
                     hasReason: bool)

  /** Which of the storage operations of this call fail. */
  datatype StorageFaults = StorageFaults(save: bool, updateCase: bool)

  datatype EngineError = FallbackError | SaveError | UpdateError

  /** The call's outcome: the output is returned even when storing it failed. */
  datatype Outcome = Outcome(output: Option<Output>, error: Option<EngineError>)

  /** What the provider delivers: a valid first answer, or else a valid answer to the repair prompt. */
  ghost function Delivered(provider: Provider, repair: bool, n: nat, ctx: SafeContext): (delivered: Option<Output>)
    ensures delivered.Some? ==> ValidOutput(delivered, ctx.allowed)
  {
    var first := provider(n, ctx);
    if first.Failed? then None
    else if ValidOutput(first.output, ctx.allowed) then first.output
    else if !repair then None
    else
      var second := provider(n + 1, RepairContext(ctx, ErrorsOf(first.output, ctx.allowed)));
      if second.Answered? && ValidOutput(second.output, ctx.allowed) then second.output else None
  }

  /**
    The repair prompt carries the errors of the first answer, a role in any case, and is otherwise the first
    prompt.
   */
  lemma RepairPrompt(ctx: SafeContext, errors: seq<ValidationError>)
    ensures var again := RepairContext(ctx, errors);
      && again.governance.repairErrors == errors
      && again.governance.role == (if ctx.governance.role == "" then "agent_readonly" else ctx.governance.role)
      && again.governance.classification == ctx.governance.classification
      && again.governance.redactedFields == ctx.governance.redactedFields
      && again.caseId == ctx.caseId && again.trigger == ctx.trigger
      && again.allowed == ctx.allowed && again.forbidden == ctx.forbidden
  {
  }

  /** The four ways a provider can behave, and what comes of each. */
  lemma DeliveredIs(provider: Provider, repair: bool, n: nat, ctx: SafeContext)
    ensures provider(n, ctx).Failed? ==> Delivered(provider, repair, n, ctx) == None
    ensures provider(n, ctx).Answered? ==>
              var first := provider(n, ctx).output;
              var second := provider(n + 1, RepairContext(ctx, ErrorsOf(first, ctx.allowed)));
              Delivered(provider, repair, n, ctx)
              == if ErrorsOf(first, ctx.allowed) == [] then first
                 else if repair && second.Answered? && ErrorsOf(second.output, ctx.allowed) == [] then second.output
                 else None
  {
    if provider(n, ctx).Answered? {
      var first := provider(n, ctx).output;
      var second := provider(n + 1, RepairContext(ctx, ErrorsOf(first, ctx.allowed)));
      NoErrorsIffValid(first, ctx.allowed);
      if second.Answered? {
        NoErrorsIffValid(second.output, ctx.allowed);
      }
    }
  }

  /** What the trace of an invalid output says about how it ended. */
  lemma InvalidOutputTrace(attempt: seq<Event>, end: Event)
    requires DecisionGenerated !in attempt && FallbackUsed !in attempt
    requires end == DecisionGenerated || end == FallbackUsed
    ensures var trace := [ValidationFailed] + attempt + [end];
      && ValidationFailed in trace
      && (DecisionGenerated in trace <==> end == DecisionGenerated)
      && (FallbackUsed in trace <==> end == FallbackUsed)
  {
  }

  class DecisionEngine {
    const provider: Provider
    const fallback: Provider
    const repair: bool
    var calls: nat
    var rows: seq<Row>
    var caseStatus: map<string, string>
    var events: seq<Event>

    constructor (provider: Provider, fallback: Provider, repair: bool)
      ensures this.provider == provider && this.fallback == fallback && this.repair == repair
      ensures calls == 0 && rows == [] && events == [] && caseStatus == map[]
    {
      this.provider, this.fallback, this.repair := provider, fallback, repair;
      calls, rows, events, caseStatus := 0, [], [], map[];
    }

    method CallProvider(ctx: SafeContext) returns (answer: Answer)
      modifies this`calls
      ensures answer == provider(old(calls), ctx) && calls == old(calls) + 1
    {
      answer := provider(calls, ctx);
      calls := calls + 1;
    }

    /** saveDecision and updateCaseStatus, in this order; a failure stops before the next write. */
    method Store(row: Row, status: string, f: StorageFaults) returns (error: Option<EngineError>)
      modifies this`rows, this`caseStatus
      ensures error == if f.save then Some(SaveError) else if f.updateCase then Some(UpdateError) else None
      ensures rows == if f.save then old(rows) else old(rows) + [row]
      ensures caseStatus == if error.Some? then old(caseStatus) else old(caseStatus)[row.caseId := status]
    {
      if f.save {
        return Some(SaveError);
      }
      rows := rows + [row];
      if f.updateCase {
        return Some(UpdateError);
      }
      caseStatus := caseStatus[row.caseId := status];
      return None;
    }

    /** The last resort after both writes are allowed to fail silently. */
    method StoreIgnoringErrors(row: Row, status: string, f: StorageFaults)
      modifies this`rows, this`caseStatus
      ensures rows == if f.save then old(rows) else old(rows) + [row]
      ensures caseStatus == if f.updateCase then old(caseStatus) else old(caseStatus)[row.caseId := status]
    {
      if !f.save {
        rows := rows + [row];
      }
      if !f.updateCase {
        caseStatus := caseStatus[row.caseId := status];
      }
    }

    /** One repair call exactly when the first answer is an output that is not valid, and repair is on. */
    ghost function RepairCalls(first: Answer, ctx: SafeContext): nat {
      if repair && first.Answered? && !ValidOutput(first.output, ctx.allowed) then 1 else 0
    }

    lemma RepairCallsAre(first: Answer, ctx: SafeContext)
      ensures RepairCalls(first, ctx)
           == if repair && first.Answered? && ErrorsOf(first.output, ctx.allowed) != [] then 1 else 0
    {
      if first.Answered? {
        NoErrorsIffValid(first.output, ctx.allowed);
      }
    }

    /** The row one call leaves behind, and what it returns, given what the provider delivers. */
    ghost predicate Settles(ctx: SafeContext, delivered: Option<Output>, row: Row, r: Outcome) {
      && row.caseId == ctx.caseId
      && (delivered.Some? ==> row == Row(ctx.caseId, delivered, "valid", [], false) && r.output == delivered)
      && (delivered.None? && fallback(0, ctx).Answered? ==>
            row.status == "fallback" && row.output == fallback(0, ctx).output == r.output && row.hasReason)
      && (delivered.None? && fallback(0, ctx).Failed? ==>
            row.status == "failed" && r == Outcome(None, Some(FallbackError)) && row.hasReason)
      && (row.status != "failed" ==> r.error != Some(FallbackError))
    }

    /** How the row reaches storage. */
    twostate predicate Stored(row: Row, r: Outcome, f: StorageFaults)
      reads this`rows, this`caseStatus
    {
      && rows == (if f.save then old(rows) else old(rows) + [row])
      && (row.status != "failed" ==> (r.error.None? <==> !f.save && !f.updateCase))
      && (!f.save && !f.updateCase ==>
            caseStatus == old(caseStatus)[
              row.caseId := if row.status == "failed" then "failed" else "decision_generated"])
    }

    /**
      GenerateDecision.  Exactly one row is written unless saving fails: what the provider delivers,
      marked `valid`, or else the fallback's answer.  Without storage faults the call fails only if
      the fallback does.
     */
    method GenerateDecision(ctx: SafeContext, f: StorageFaults)
      returns (r: Outcome, ghost trace: seq<Event>, ghost row: Row)
      modifies this
      ensures Settles(ctx, Delivered(provider, repair, old(calls), ctx), row, r) && Stored(row, r, f)
      ensures row.status == "valid" || row.status == "fallback" || row.status == "failed"
      ensures rows == if f.save then old(rows) else old(rows) + [row]
      ensures !f.save && !f.updateCase ==>
                caseStatus == old(caseStatus)[
                  ctx.caseId := if row.status == "failed" then "failed" else "decision_generated"]
      ensures events == old(events) + trace && trace != [] && trace[0] == DecisionRequested
      ensures DecisionGenerated in trace <==> row.status == "valid"
      ensures FallbackUsed in trace <==> row.status != "valid"
      ensures DecisionGenerated in trace <==> Delivered(provider, repair, old(calls), ctx).Some?
      ensures calls == old(calls) + 1 + RepairCalls(provider(old(calls), ctx), ctx)
      ensures var delivered := Delivered(provider, repair, old(calls), ctx);
        && row.caseId == ctx.caseId
        && (delivered.Some? ==> row.status == "valid" && row.output == delivered && r.output == delivered)
        && (delivered.None? && fallback(0, ctx).Answered? ==>
              row.status == "fallback" && row.output == fallback(0, ctx).output && r.output == fallback(0, ctx).output)
        && (delivered.None? && fallback(0, ctx).Failed? ==>
              row.status == "failed" && r.output == None && r.error == Some(FallbackError))
        && (row.status != "failed" ==> (r.error.None? <==> !f.save && !f.updateCase))
    {
      events := events + [DecisionRequested];
      var answer := CallProvider(ctx);
      ghost var rest;
      r, rest, row := HandleAnswer(ctx, answer, f);
      trace := [DecisionRequested] + rest;
    }

    /** The provider's answer: an error, an output to store, or an output to repair or replace. */
    method HandleAnswer(ctx: SafeContext, answer: Answer, f: StorageFaults)
      returns (r: Outcome, ghost trace: seq<Event>, ghost row: Row)
      requires calls > 0 && provider(calls - 1, ctx) == answer
      modifies this
      ensures Settles(ctx, Delivered(provider, repair, old(calls) - 1, ctx), row, r) && Stored(row, r, f)
      ensures events == old(events) + trace
      ensures DecisionGenerated in trace <==> row.status == "valid"
      ensures FallbackUsed in trace <==> row.status != "valid"
      ensures calls == old(calls) + RepairCalls(answer, ctx)
    {
      if answer.Failed? {
        r, trace, row := HandleProviderError(ctx, f);
        return;
      }
      var errors := ValidateDecision(answer.output, ctx.allowed);
      if errors == [] {
        events := events + [DecisionGenerated];
        trace := [DecisionGenerated];
        r, row := StoreValid(ctx, answer.output, f);
        return;
      }
      r, trace, row := HandleInvalidOutput(ctx, answer.output, errors, f);
    }

    method StoreValid(ctx: SafeContext, output: Option<Output>, f: StorageFaults) returns (r: Outcome, ghost row: Row)
      requires output.Some?
      modifies this`rows, this`caseStatus
      ensures Settles(ctx, output, row, r) && row.status == "valid" && Stored(row, r, f)
    {
      row := Row(ctx.caseId, output, "valid", [], false);
      var error := Store(Row(ctx.caseId, output, "valid", [], false), "decision_generated", f);
      r := Outcome(output, error);
    }

    method HandleProviderError(ctx: SafeContext, f: StorageFaults)
      returns (r: Outcome, ghost trace: seq<Event>, ghost row: Row)
      modifies this`rows, this`caseStatus, this`events
      ensures Settles(ctx, None, row, r) && row.status != "valid" && Stored(row, r, f)
      ensures events == old(events) + trace && DecisionGenerated !in trace && FallbackUsed in trace
    {
      events := events + [FallbackUsed];
      trace := [FallbackUsed];
      var answer := fallback(0, ctx);
      if answer.Failed? {
        events := events + [CaseFailed];
        trace := trace + [CaseFailed];
        row := Row(ctx.caseId, None, "failed", [], true);
        StoreIgnoringErrors(Row(ctx.caseId, None, "failed", [], true), "failed", f);
        return Outcome(None, Some(FallbackError)), trace, row;
      }
      row := Row(ctx.caseId, answer.output, "fallback", [], true);
      var error := Store(Row(ctx.caseId, answer.output, "fallback", [], true), "decision_generated", f);
      return Outcome(answer.output, error), trace, row;
    }

    /** The one repair attempt. */
    method TryRepair(ctx: SafeContext, errors: seq<ValidationError>) returns (repaired: Option<Output>)
      modifies this`calls, this`events
      ensures var second := provider(old(calls), RepairContext(ctx, errors));
        repaired == if second.Answered? && ValidOutput(second.output, ctx.allowed) then second.output else None
      ensures repaired.Some? ==> events == old(events) + [RepairAttempted, RepairSucceeded]
      ensures repaired.None? ==> events == old(events) + [RepairAttempted, RepairFailed]
      ensures calls == old(calls) + 1
    {
      events := events + [RepairAttempted];
      var second := CallProvider(RepairContext(ctx, errors));
      if second.Answered? {
        var again := ValidateDecision(second.output, ctx.allowed);
        if again == [] {
          events := events + [RepairSucceeded];
          return second.output;
        }
      }
      events := events + [RepairFailed];
      return None;
    }

    /** Repairs at most once; what the provider delivers is then settled. */
    method RepairIfEnabled(ctx: SafeContext, output: Option<Output>, errors: seq<ValidationError>)
      returns (repaired: Option<Output>, ghost trace: seq<Event>)
      requires calls > 0 && provider(calls - 1, ctx) == Answered(output)
      requires !ValidOutput(output, ctx.allowed) && errors == ErrorsOf(output, ctx.allowed)
      modifies this`calls, this`events
      ensures repaired == Delivered(provider, repair, old(calls) - 1, ctx)
      ensures events == old(events) + trace && DecisionGenerated !in trace && FallbackUsed !in trace
      ensures calls == old(calls) + (if repair then 1 else 0)
    {
      repaired, trace := None, [];
      if repair {
        repaired := TryRepair(ctx, errors);
        trace := [RepairAttempted, if repaired.Some? then RepairSucceeded else RepairFailed];
      }
    }

    /** Everything an invalid output sets off before a row is stored, event by event. */
    method RepairAndRecord(ctx: SafeContext, output: Option<Output>, errors: seq<ValidationError>)
      returns (repaired: Option<Output>, ghost trace: seq<Event>)
      requires calls > 0 && provider(calls - 1, ctx) == Answered(output)
      requires !ValidOutput(output, ctx.allowed) && errors == ErrorsOf(output, ctx.allowed)
      modifies this`calls, this`events
      ensures repaired == Delivered(provider, repair, old(calls) - 1, ctx)
      ensures events == old(events) + trace && ValidationFailed in trace
      ensures DecisionGenerated in trace <==> repaired.Some?
      ensures FallbackUsed in trace <==> repaired.None?
      ensures calls == old(calls) + (if repair then 1 else 0)
    {
      events := events + [ValidationFailed];
      ghost var attempt;
      repaired, attempt := RepairIfEnabled(ctx, output, errors);
      ghost var end := if repaired.Some? then DecisionGenerated else FallbackUsed;
      trace := [ValidationFailed] + attempt + [end];
      InvalidOutputTrace(attempt, end);
      events := events + [if repaired.Some? then DecisionGenerated else FallbackUsed];
    }

    method HandleInvalidOutput(ctx: SafeContext, output: Option<Output>, errors: seq<ValidationError>, f: StorageFaults)
      returns (r: Outcome, ghost trace: seq<Event>, ghost row: Row)
      requires calls > 0 && provider(calls - 1, ctx) == Answered(output)
      requires !ValidOutput(output, ctx.allowed) && errors == ErrorsOf(output, ctx.allowed)
      modifies this
      ensures Settles(ctx, Delivered(provider, repair, old(calls) - 1, ctx), row, r) && Stored(row, r, f)
      ensures events == old(events) + trace && ValidationFailed in trace
      ensures DecisionGenerated in trace <==> row.status == "valid"
      ensures FallbackUsed in trace <==> row.status != "valid"
      ensures calls == old(calls) + (if repair then 1 else 0)
    {
      var repaired;
      repaired, trace := RepairAndRecord(ctx, output, errors);
      r, row := StoreRepaired(ctx, output, repaired, errors, f);
    }

    /** A repaired output is stored as valid; without one the fallback answers. */
    method StoreRepaired(ctx: SafeContext, output: Option<Output>, repaired: Option<Output>,
                         errors: seq<ValidationError>, f: StorageFaults)
      returns (r: Outcome, ghost row: Row)
      modifies this`rows, this`caseStatus
      ensures Settles(ctx, repaired, row, r) && Stored(row, r, f)
      ensures row.status == "valid" <==> repaired.Some?
    {
      if repaired.Some? {
        r, row := StoreValid(ctx, repaired, f);
      } else {
        r, row := StoreFallback(ctx, output, errors, f);
      }
    }

    /** The fallback's answer to an invalid output, or the failure of both. */
    method StoreFallback(ctx: SafeContext, output: Option<Output>, errors: seq<ValidationError>, f: StorageFaults)
      returns (r: Outcome, ghost row: Row)
      modifies this`rows, this`caseStatus
      ensures Settles(ctx, None, row, r) && row.status != "valid" && Stored(row, r, f)
    {
      var answer := fallback(0, ctx);
      if answer.Failed? {
        row := Row(ctx.caseId, output, "failed", errors, true);
        StoreIgnoringErrors(Row(ctx.caseId, output, "failed", errors, true), "failed", f);
        return Outcome(None, Some(FallbackError)), row;
      }
      row := Row(ctx.caseId, answer.output, "fallback", errors, true);
      var error := Store(Row(ctx.caseId, answer.output, "fallback", errors, true), "decision_generated", f);
      return Outcome(answer.output, error), row;
    }
  }

  /** With the rule-based fallback and no storage faults, no provider can make a decision fail. */
  method GenerateWithRules(provider: Provider, narrate: Trigger -> Narrative, repair: bool, ctx: SafeContext)
    returns (r: Outcome, status: string)
    ensures r.error.None? && r.output.Some?
    ensures status == if Delivered(provider, repair, 0, ctx).Some? then "valid" else "fallback"
    ensures status == "valid" ==> ValidOutput(r.output, ctx.allowed)
    ensures status == "fallback" ==> r.output == Some(Decide(ctx.trigger, narrate(ctx.trigger)))
  {
    var engine := new DecisionEngine(provider, RuleProvider(narrate), repair);
    ghost var trace, row;
    r, trace, row := engine.GenerateDecision(ctx, StorageFaults(false, false));
    assert engine.rows == [] + [row];
    status := engine.rows[0].status;
  }
}
