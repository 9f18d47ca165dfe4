/**
  The tables behind the proposal protocol, and what one committed review or execution does to them
  (internal/review/service.go, internal/action/apply_service.go, internal/action/outbox_integration.go).
 */
module ProposalTables {
  import opened Wrappers

  type Id = string

  datatype Status = Proposed | Approved | Rejected | Applying | Applied | Failed

  datatype Verdict = Approve | Reject | Cancel

  datatype Proposal = Proposal(id: Id, caseId: string, actionType: string, status: Status, appliedBy: Option<string>)

  datatype Review = Review(reviewId: string, proposal: Id, reviewer: string, verdict: Verdict)

  /** What an outbox event is about: an executed proposal, or whatever another service publishes. */
  datatype Origin = Execution(proposal: Id) | Other(sourceType: string, sourceId: string)

  datatype Event = Event(eventId: string, origin: Origin, eventType: string, channel: string)

  datatype AuditEntry = AuditEntry(category: string, action: string, actor: string, resource: Id)

  datatype Lineage = Lineage(caseId: string, event: string, actor: string)

  datatype Tables = Tables(
    proposals: map<Id, Proposal>,
    cases: map<string, string>,
    reviews: seq<Review>,
    events: seq<Event>,
    audit: seq<AuditEntry>,
    lineage: seq<Lineage>)

  const EMPTY := Tables(map[], map[], [], [], [], [])

  // ---------------------------------------------------------------- reading the tables

  function ReviewsOf(reviews: seq<Review>, id: Id): seq<Review> {
    if reviews == [] then []
    else
      var last := reviews[|reviews| - 1];
      ReviewsOf(reviews[..|reviews| - 1], id) + (if last.proposal == id then [last] else [])
  }

  /** The events that executions of a proposal have published. */
  function EventsOf(events: seq<Event>, id: Id): seq<Event> {
    if events == [] then []
    else
      var last := events[|events| - 1];
      EventsOf(events[..|events| - 1], id) + (if last.origin == Execution(id) then [last] else [])
  }

  /** How many successful executions of a proposal the audit log records. */
  function ExecutionsOf(audit: seq<AuditEntry>, id: Id): nat {
    if audit == [] then 0
    else
      var last := audit[|audit| - 1];
      ExecutionsOf(audit[..|audit| - 1], id)
      + (if last.resource == id && last.category == "action_apply" && last.action == "execute" then 1 else 0)
  }

  predicate FreshEventId(events: seq<Event>, eventId: string) {
    forall e :: e in events ==> e.eventId != eventId
  }

  lemma AppendReview(reviews: seq<Review>, r: Review, id: Id)
    ensures ReviewsOf(reviews + [r], id) == ReviewsOf(reviews, id) + (if r.proposal == id then [r] else [])
  {
    assert (reviews + [r])[..|reviews|] == reviews;
  }

  lemma AppendEvent(events: seq<Event>, e: Event, id: Id)
    ensures EventsOf(events + [e], id) == EventsOf(events, id) + (if e.origin == Execution(id) then [e] else [])
  {
    assert (events + [e])[..|events|] == events;
  }

  lemma AppendAudit(audit: seq<AuditEntry>, a: AuditEntry, id: Id)
    ensures ExecutionsOf(audit + [a], id)
         == ExecutionsOf(audit, id)
            + (if a.resource == id && a.category == "action_apply" && a.action == "execute" then 1 else 0)
  {
    assert (audit + [a])[..|audit|] == audit;
  }

  // ---------------------------------------------------------------- one committed review

  /** Cancelling is recorded as its own verdict but leaves the proposal rejected. */
  function StatusAfter(v: Verdict): Status {
    if v == Approve then Approved else Rejected
  }

  function ReviewAction(v: Verdict): string {
    match v
    case Approve => "proposal_approved"
    case Reject => "proposal_rejected"
    case Cancel => "proposal_cancelled"
  }

  /** The case moves on only from `proposal_generated`; missing cases and other statuses are left alone. */
  function CasesAfterReview(cases: map<string, string>, caseId: string): map<string, string> {
    if caseId != "" && caseId in cases && cases[caseId] == "proposal_generated"
    then cases[caseId := "review_required"] else cases
  }

  function Reviewed(t: Tables, id: Id, r: Review, withLineage: bool): Tables
    requires id in t.proposals
  {
    var p := t.proposals[id];
    t.(proposals := t.proposals[id := p.(status := StatusAfter(r.verdict))],
       reviews := t.reviews + [r],
       lineage := if withLineage then t.lineage + [Lineage(p.caseId, ReviewAction(r.verdict), r.reviewer)]
           else t.lineage,
       cases := CasesAfterReview(t.cases, p.caseId),
       audit := t.audit + [AuditEntry("review", ReviewAction(r.verdict), r.reviewer, id)])
  }

  // ---------------------------------------------------------------- one committed execution

  function ActionChannel(actionType: string): string {
    if actionType in ["export_report", "notify_owner", "create_outbox_message"] then "feishu"
    else if actionType == "create_followup_task" then "github"
    else "unknown"
  }

  /** INSERT ... ON CONFLICT (event_id) DO NOTHING: a clash of ids drops the new event silently. */
  function InsertEvent(events: seq<Event>, e: Event): seq<Event> {
    if FreshEventId(events, e.eventId) then events + [e] else events
  }

  /** p is the proposal as it was loaded; the row updated is the one committed now. */
  function Executed(t: Tables, p: Proposal, actor: string, success: bool, eventId: string): Tables
    requires p.id in t.proposals
  {
    var row := t.proposals[p.id];
    if success then
      t.(proposals := t.proposals[p.id := row.(status := Applied, appliedBy := Some(actor))],
         events := InsertEvent(t.events, Event(eventId, Execution(p.id), p.actionType, ActionChannel(p.actionType))),
         audit := t.audit + [AuditEntry("action_apply", "execute", actor, p.id)])
    else
      t.(proposals := t.proposals[p.id := row.(status := Failed)],
         audit := t.audit + [AuditEntry("action_apply", "execute_failed", actor, p.id)])
  }

  // ---------------------------------------------------------------- the same, column by column

  /** Follow-up tasks go to GitHub, the other three kinds of action to Feishu, and nothing else anywhere. */
  lemma ChannelsAre(actionType: string)
    ensures actionType == "create_followup_task" ==> ActionChannel(actionType) == "github"
    ensures actionType == "export_report" || actionType == "notify_owner" || actionType == "create_outbox_message" ==>
              ActionChannel(actionType) == "feishu"
    ensures actionType !in {"create_followup_task", "export_report", "notify_owner", "create_outbox_message"} ==>
              ActionChannel(actionType) == "unknown"
  {
  }

  /** Each verdict with the status it leaves behind and the name it is logged under. */
  lemma VerdictsAre()
    ensures StatusAfter(Approve) == Approved && ReviewAction(Approve) == "proposal_approved"
    ensures StatusAfter(Reject) == Rejected && ReviewAction(Reject) == "proposal_rejected"
    ensures StatusAfter(Cancel) == Rejected && ReviewAction(Cancel) == "proposal_cancelled"
  {
  }

  lemma ReviewWrites(t: Tables, id: Id, r: Review, withLineage: bool)
    requires id in t.proposals
    ensures var p, t' := t.proposals[id], Reviewed(t, id, r, withLineage);
      && t'.proposals == t.proposals[id := p.(status := if r.verdict == Approve then Approved else Rejected)]
      && t'.reviews == t.reviews + [r] && t'.events == t.events
      && t'.audit == t.audit + [AuditEntry("review", ReviewAction(r.verdict), r.reviewer, id)]
      && t'.lineage == t.lineage
          + (if withLineage then [Lineage(p.caseId, ReviewAction(r.verdict), r.reviewer)] else [])
  {
  }

  lemma ExecutionWrites(t: Tables, p: Proposal, actor: string, success: bool, eventId: string)
    requires p.id in t.proposals
    ensures var row, t' := t.proposals[p.id], Executed(t, p, actor, success, eventId);
      && t'.proposals == t.proposals[p.id := if success then row.(status := Applied, appliedBy := Some(actor))
                                             else row.(status := Failed)]
      && t'.audit == t.audit
          + [AuditEntry("action_apply", if success then "execute" else "execute_failed", actor, p.id)]
      && t'.reviews == t.reviews && t'.lineage == t.lineage && t'.cases == t.cases
      && (success && (forall e :: e in t.events ==> e.eventId != eventId) ==>
            t'.events == t.events + [Event(eventId, Execution(p.id), p.actionType,
                                           if p.actionType == "create_followup_task" then "github"
                                           else if p.actionType in ["export_report", "notify_owner",
                                                                    "create_outbox_message"]
                                           then "feishu" else "unknown")])
      && (!success || (exists e :: e in t.events && e.eventId == eventId) ==> t'.events == t.events)
  {
  }

  /** Counting by position: what the three per-proposal figures over the logs mean. */
  lemma LogFigures(reviews: seq<Review>, r: Review, events: seq<Event>, e: Event, audit: seq<AuditEntry>,
                   a: AuditEntry, id: Id)
    ensures ReviewsOf([], id) == [] && EventsOf([], id) == [] && ExecutionsOf([], id) == 0
    ensures ReviewsOf(reviews + [r], id) == ReviewsOf(reviews, id) + (if r.proposal == id then [r] else [])
    ensures EventsOf(events + [e], id) == EventsOf(events, id) + (if e.origin == Execution(id) then [e] else [])
    ensures ExecutionsOf(audit + [a], id) == ExecutionsOf(audit, id)
              + (if a == AuditEntry("action_apply", "execute", a.actor, id) then 1 else 0)
  {
    AppendReview(reviews, r, id);
    AppendEvent(events, e, id);
    AppendAudit(audit, a, id);
  }
}
