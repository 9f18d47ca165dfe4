/**
  The review and apply services as they run: statement by statement, inside a database transaction.

  As in PostgreSQL, a statement that fails aborts its transaction: every later statement fails too,
  and committing an aborted transaction rolls it back and reports an error.  Which statements fail
  is the caller's choice, so each contract covers every combination of failures.
 */
module ProposalServices {
  import opened Wrappers
  import opened ProposalTables
  import opened ProposalRuns
  import Registry

  class Database {
    var committed: Tables

    constructor (t: Tables)
      ensures committed == t
    {
      committed := t;
    }
  }

  class Transaction {
    const db: Database
    var work: Tables
    var aborted: bool

    constructor Begin(db: Database)
      ensures this.db == db && work == db.committed && !aborted
    {
      this.db, work, aborted := db, db.committed, false;
    }

    /** Runs a statement that writes `after`, unless it fails or the transaction is already aborted. */
    method Exec(after: Tables, fault: bool) returns (ok: bool)
      modifies this
      ensures ok <==> !old(aborted) && !fault
      ensures aborted == !ok
      ensures work == if ok then after else old(work)
    {
      ok := !aborted && !fault;
      if ok {
        work := after;
      } else {
        aborted := true;
      }
    }

    /** An UPDATE of one row by key: None when the statement fails, otherwise whether the row exists. */
    method UpdateProposal(id: Id, change: Proposal -> Proposal, fault: bool) returns (found: Option<bool>)
      modifies this
      ensures found.Some? <==> !old(aborted) && !fault
      ensures aborted == found.None?
      ensures found.Some? ==> found.value == (id in old(work).proposals)
      ensures work == if found == Some(true)
                      then old(work).(proposals := old(work).proposals[id := change(old(work).proposals[id])])
                      else old(work)
    {
      var ok;
      if id in work.proposals {
        ok := Exec(work.(proposals := work.proposals[id := change(work.proposals[id])]), fault);
        found := if ok then Some(true) else None;
      } else {
        ok := Exec(work, fault);
        found := if ok then Some(false) else None;
      }
    }

    method Commit(fault: bool) returns (ok: bool)
      modifies db
      ensures ok <==> !aborted && !fault
      ensures db.committed == if ok then work else old(db.committed)
    {
      ok := !aborted && !fault;
      if ok {
        db.committed := work;
      }
    }
  }

  // ---------------------------------------------------------------- review

  datatype ReviewError = BeginFailed | StatementFailed | ProposalNotFound | InvalidState(actual: Status) | CommitFailed

  datatype ReviewFaults = ReviewFaults(
    begin: bool, select: bool, update: bool, insertReview: bool,
    caseSelect: bool, caseUpdate: bool, audit: bool, commit: bool)

  /**
    What the lineage recorder does, if there is one.  It is given the transaction, and its error is
    ignored: it may fail with a statement of its own, which aborts the transaction, or before any.
   */
  datatype LineageAttempt = NoRecorder | Recorded | StatementFails | FailsBefore

  /** The statements a review of this proposal issues all succeed. */
  predicate ReviewSucceeds(t: Tables, p: Proposal, lineage: LineageAttempt, f: ReviewFaults) {
    && !f.begin && !f.select && !f.update && !f.insertReview && lineage != StatementFails
    && CaseUpdateSucceeds(t.cases, p.caseId, f.caseSelect, f.caseUpdate)
    && !f.audit && !f.commit
  }

  /** Fault by fault: the case is only read when there is one, and only updated from `proposal_generated`. */
  lemma ReviewSucceedsExactly(t: Tables, p: Proposal, lineage: LineageAttempt, f: ReviewFaults)
    ensures ReviewSucceeds(t, p, lineage, f) <==>
              && !f.begin && !f.select && !f.update && !f.insertReview && !f.audit && !f.commit
              && lineage != StatementFails && (p.caseId != "" ==> !f.caseSelect)
              && (p.caseId != "" && p.caseId in t.cases && t.cases[p.caseId] == "proposal_generated" ==> !f.caseUpdate)
  {
    if p.caseId in t.cases && t.cases[p.caseId] == "proposal_generated" && p.caseId != "" {
      assert CasesAfterReview(t.cases, p.caseId)[p.caseId] != t.cases[p.caseId];
    }
  }

  /**
    transitionProposal: all or nothing.  It succeeds exactly for a proposal that is still `proposed`
    when no statement fails.  A lineage recorder that fails with a statement aborts the transaction; one
    that fails before leaves a committed review without its lineage entry.
   */
  method TransitionProposal(db: Database, review: Review, lineage: LineageAttempt, f: ReviewFaults)
    returns (r: Result<Review, ReviewError>)
    modifies db
    ensures r.Ok? <==> var t := old(db.committed);
              && review.proposal in t.proposals
              && t.proposals[review.proposal].status == Proposed
              && ReviewSucceeds(t, t.proposals[review.proposal], lineage, f)
    ensures r.Ok? ==> r.value == review
    ensures r.Ok? ==> db.committed == Reviewed(old(db.committed), review.proposal, review, lineage.Recorded?)
    ensures r.Err? ==> db.committed == old(db.committed)
    ensures !f.begin && !f.select ==>
              var t := old(db.committed);
              && (r == Err(ProposalNotFound) <==> review.proposal !in t.proposals)
              && (r.Err? && r.error.InvalidState? <==>
                    review.proposal in t.proposals && t.proposals[review.proposal].status != Proposed)
    ensures db.committed == Next(World(old(db.committed), map[]), Decide(review, lineage.Recorded?, r.Ok?)).t
  {
    if f.begin {
      return Err(BeginFailed);
    }
    var id := review.proposal;
    var tx := new Transaction.Begin(db);
    var ok := tx.Exec(tx.work, f.select);
    if !ok {
      return Err(StatementFailed);
    }
    if id !in tx.work.proposals {
      return Err(ProposalNotFound);
    }
    var proposal := tx.work.proposals[id];
    if proposal.status != Proposed {
      return Err(InvalidState(proposal.status));
    }
    var found := tx.UpdateProposal(id, (p: Proposal) => p.(status := StatusAfter(review.verdict)), f.update);
    if found != Some(true) {
      return Err(StatementFailed);
    }
    ok := tx.Exec(tx.work.(reviews := tx.work.reviews + [review]), f.insertReview);
    if !ok {
      return Err(StatementFailed);
    }
    if lineage.Recorded? || lineage.StatementFails? {
      var entry := Lineage(proposal.caseId, ReviewAction(review.verdict), review.reviewer);
      var _ := tx.Exec(tx.work.(lineage := tx.work.lineage + [entry]), lineage.StatementFails?);
    }
    ok := UpdateCaseStatusIfNeeded(tx, proposal.caseId, f.caseSelect, f.caseUpdate);
    if !ok {
      return Err(StatementFailed);
    }
    var entry := AuditEntry("review", ReviewAction(review.verdict), review.reviewer, id);
    ok := tx.Exec(tx.work.(audit := tx.work.audit + [entry]), f.audit);
    if !ok {
      return Err(StatementFailed);
    }
    ok := tx.Commit(f.commit);
    if !ok {
      return Err(CommitFailed);
    }
    return Ok(review);
  }

  predicate CaseUpdateSucceeds(cases: map<string, string>, caseId: string, selectFault: bool, updateFault: bool) {
    && (caseId != "" ==> !selectFault)
    && (CasesAfterReview(cases, caseId) != cases ==> !updateFault)
  }

  /** Moves the case from `proposal_generated` to `review_required`, and touches nothing else. */
  method UpdateCaseStatusIfNeeded(tx: Transaction, caseId: string, selectFault: bool, updateFault: bool)
    returns (ok: bool)
    modifies tx
    ensures ok ==> tx.aborted == old(tx.aborted)
    ensures ok ==> tx.work == old(tx.work).(cases := CasesAfterReview(old(tx.work).cases, caseId))
    ensures !ok ==> tx.aborted
    ensures ok <==> CaseUpdateSucceeds(old(tx.work).cases, caseId, old(tx.aborted) || selectFault, updateFault)
  {
    if caseId == "" {
      return true;
    }
    ok := tx.Exec(tx.work, selectFault);
    if !ok {
      return;
    }
    if caseId in tx.work.cases && tx.work.cases[caseId] == "proposal_generated" {
      ghost var cases := tx.work.cases;
      ok := tx.Exec(tx.work.(cases := tx.work.cases[caseId := "review_required"]), updateFault);
      assert CasesAfterReview(cases, caseId)[caseId] != cases[caseId];
    }
  }

  // ---------------------------------------------------------------- execution

  datatype ExecError =
    | LiveExecutionDisabled | LoadFailed | NotFound | NotApproved | ActionNotAllowed | LineageIncomplete
    | ExecBeginFailed | ExecStatementFailed | ExecCommitFailed

  /** How an executor answers: an error, or a result that reports success or failure. */
  datatype Outcome = Errored | Reported(success: bool)

  datatype ExecutionResult = ExecutionResult(success: bool, dryRun: bool, outboxEventId: Option<string>)

  datatype ExecFaults = ExecFaults(begin: bool, markApplying: bool, markFinal: bool, insertEvent: bool, audit: bool,
                                   commit: bool)

  datatype Request = Request(id: Id, actor: string, dryRun: bool, liveEnabled: bool, loadFails: bool,
                             lineageComplete: Option<bool>)

  /** The checks before the transaction; the loaded proposal is a snapshot. */
  method LoadForExecution(db: Database, registry: Registry.ActionRegistry, q: Request)
    returns (r: Result<Proposal, ExecError>)
    ensures r.Ok? <==>
              && (q.dryRun || q.liveEnabled) && !q.loadFails
              && q.id in db.committed.proposals && db.committed.proposals[q.id].status == Approved
              && db.committed.proposals[q.id].actionType in registry.whitelist
              && (q.dryRun || q.lineageComplete != Some(false))
    ensures r.Ok? ==> r.value == db.committed.proposals[q.id]
    ensures !q.dryRun && !q.liveEnabled ==> r == Err(LiveExecutionDisabled)
    ensures (q.dryRun || q.liveEnabled) && !q.loadFails ==>
              && (r == Err(NotFound) <==> q.id !in db.committed.proposals)
              && (r == Err(NotApproved) <==>
                  q.id in db.committed.proposals && db.committed.proposals[q.id].status != Approved)
  {
    if !q.dryRun && !q.liveEnabled {
      return Err(LiveExecutionDisabled);
    }
    if q.loadFails {
      return Err(LoadFailed);
    }
    if q.id !in db.committed.proposals {
      return Err(NotFound);
    }
    var proposal := db.committed.proposals[q.id];
    if proposal.status != Approved {
      return Err(NotApproved);
    }
    if !registry.IsAllowed(proposal.actionType) {
      return Err(ActionNotAllowed);
    }
    if !q.dryRun && q.lineageComplete == Some(false) {
      return Err(LineageIncomplete);
    }
    return Ok(proposal);
  }

  /** The executor for a proposal's channel reports success. */
  predicate Succeeds(executors: map<string, Proposal -> Outcome>, p: Proposal) {
    var channel := ActionChannel(p.actionType);
    channel in executors && executors[channel](p) == Reported(true)
  }

  /** Runs the executor of the proposal's channel and records what came of it; without one, the proposal has failed. */
  method Perform(tx: Transaction, p: Proposal, actor: string, executors: map<string, Proposal -> Outcome>,
                 eventId: string, f: ExecFaults)
    returns (ok: bool, success: bool)
    requires p.id in tx.work.proposals
    modifies tx
    ensures success == Succeeds(executors, p)
    ensures tx.aborted <==> old(tx.aborted) || f.markFinal || (success && f.insertEvent)
    ensures !tx.aborted ==> ok
    ensures !tx.aborted ==> tx.work == old(tx.work).(
                     proposals := old(tx.work).proposals[
                         p.id := Outcomed(old(tx.work).proposals[p.id], actor, success)],
                     events := if success then InsertEvent(old(tx.work).events, EventFor(p, eventId))
                         else old(tx.work).events)
  {
    var channel := ActionChannel(p.actionType);
    if channel !in executors {
      var _ := tx.UpdateProposal(p.id, (row: Proposal) => row.(status := Failed), f.markFinal);
      return true, false;
    }
    success := executors[channel](p) == Reported(true);
    ok := RecordOutcome(tx, p, actor, success, eventId, f);
  }

  /** GitHub's executor decides about a follow-up task, Feishu's about the other three kinds. */
  lemma SucceedsMeans(executors: map<string, Proposal -> Outcome>, p: Proposal)
    ensures p.actionType == "create_followup_task" ==>
              Succeeds(executors, p) == ("github" in executors && executors["github"](p) == Reported(true))
    ensures p.actionType in {"export_report", "notify_owner", "create_outbox_message"} ==>
              Succeeds(executors, p) == ("feishu" in executors && executors["feishu"](p) == Reported(true))
  {
    ChannelsAre(p.actionType);
  }

  /** The statements an execution issues all succeed, whether or not their errors are looked at. */
  predicate ExecutionCommits(success: bool, f: ExecFaults) {
    !f.begin && !f.markApplying && !f.markFinal && (success ==> !f.insertEvent) && !f.audit && !f.commit
  }

  /**
    executeForReal: the proposal row, the outbox event and the audit entry are committed together or
    not at all, and `applying` is never committed.  The committed status is overwritten unread.
   */
  method ExecuteForReal(db: Database, p: Proposal, actor: string, executors: map<string, Proposal -> Outcome>,
                        eventId: string, f: ExecFaults)
    returns (r: Result<ExecutionResult, ExecError>)
    modifies db
    ensures r.Ok? <==> p.id in old(db.committed).proposals && ExecutionCommits(Succeeds(executors, p), f)
    ensures r.Ok? && p.actionType == "create_followup_task" ==>
              r.value.success == ("github" in executors && executors["github"](p) == Reported(true))
    ensures r.Ok? && p.actionType in {"export_report", "notify_owner", "create_outbox_message"} ==>
              r.value.success == ("feishu" in executors && executors["feishu"](p) == Reported(true))
    ensures r.Ok? ==> !r.value.dryRun && r.value.success == Succeeds(executors, p)
    ensures r.Ok? ==> r.value.outboxEventId == if r.value.success then Some(eventId) else None
    ensures r.Ok? ==> db.committed == Executed(old(db.committed), p, actor, r.value.success, eventId)
    ensures r.Err? ==> db.committed == old(db.committed)
  {
    if f.begin {
      return Err(ExecBeginFailed);
    }
    SucceedsMeans(executors, p);
    var tx := new Transaction.Begin(db);
    var found := tx.UpdateProposal(p.id, (row: Proposal) => row.(status := Applying), f.markApplying);
    if found != Some(true) {
      return Err(ExecStatementFailed);
    }
    var ok, success := Perform(tx, p, actor, executors, eventId, f);
    if !ok {
      return Err(ExecStatementFailed);
    }
    var entry := AuditEntry("action_apply", if success then "execute" else "execute_failed", actor, p.id);
    var _ := tx.Exec(tx.work.(audit := tx.work.audit + [entry]), f.audit);
    var committed := tx.Commit(f.commit);
    if !committed {
      return Err(ExecCommitFailed);
    }
    return Ok(ExecutionResult(success, false, if success then Some(eventId) else None));
  }

  /** An execution commits exactly when every statement it issues succeeds; the event is only issued on success. */
  lemma CommitsExactly(success: bool, f: ExecFaults)
    ensures ExecutionCommits(success, f) <==>
              f == ExecFaults(false, false, false, f.insertEvent, false, false) && !(success && f.insertEvent)
  {
  }

  /** The row as the executor's outcome leaves it. */
  function Outcomed(row: Proposal, actor: string, success: bool): Proposal {
    if success then row.(status := Applied, appliedBy := Some(actor)) else row.(status := Failed)
  }

  function EventFor(p: Proposal, eventId: string): Event {
    Event(eventId, Execution(p.id), p.actionType, ActionChannel(p.actionType))
  }

  /** The final status and, on success, the outbox event, in the execution's own transaction. */
  method RecordOutcome(tx: Transaction, p: Proposal, actor: string, success: bool, eventId: string, f: ExecFaults)
    returns (ok: bool)
    requires p.id in tx.work.proposals
    modifies tx
    ensures ok <==> !old(tx.aborted) && !f.markFinal && (success ==> !f.insertEvent)
    ensures ok == !tx.aborted
    ensures ok ==> tx.work == old(tx.work).(
                     proposals := old(tx.work).proposals[
                         p.id := Outcomed(old(tx.work).proposals[p.id], actor, success)],
                     events := if success then InsertEvent(old(tx.work).events, EventFor(p, eventId))
                         else old(tx.work).events)
  {
    var found := tx.UpdateProposal(p.id, (row: Proposal) => Outcomed(row, actor, success), f.markFinal);
    if found != Some(true) {
      return false;
    }
    if success {
      ok := tx.Exec(tx.work.(events := InsertEvent(tx.work.events, EventFor(p, eventId))), f.insertEvent);
    } else {
      ok := true;
    }
  }

  /** The protocol's two steps of one execution with nothing in between. */
  lemma LoadedThenApplied(t: Tables, id: Id, whitelist: set<string>, actor: string, success: bool, eventId: string)
    requires Executable(t, id, whitelist) && t.proposals[id].id in t.proposals
    ensures Run(World(t, map[]), [Load(0, id, whitelist), Apply(0, actor, success, eventId, true)]).t
         == Executed(t, t.proposals[id], actor, success, eventId)
  {
    var steps := [Load(0, id, whitelist), Apply(0, actor, success, eventId, true)];
    assert steps[1..] == [steps[1]] && steps[1..][1..] == [];
    assert Run(Next(World(t, map[]), steps[0]), steps[1..]) == Next(Next(World(t, map[]), steps[0]), steps[1]);
  }

  /** ExecuteProposal run without interruption: a dry run changes nothing, a live one applies only what is approved. */
  method ExecuteProposal(db: Database, registry: Registry.ActionRegistry, q: Request,
                         executors: map<string, Proposal -> Outcome>, eventId: string, f: ExecFaults)
    returns (r: Result<ExecutionResult, ExecError>)
    requires registry.Valid()
    modifies db
    ensures q.dryRun || r.Err? ==> db.committed == old(db.committed)
    ensures r.Ok? ==> Executable(old(db.committed), q.id, registry.whitelist) && r.value.dryRun == q.dryRun
    ensures r.Ok? && q.dryRun ==> r.value.success
    ensures r.Ok? && !q.dryRun ==>
              var p := old(db.committed).proposals[q.id];
              && q.liveEnabled && ActionChannel(p.actionType) != "unknown"
              && p.id in old(db.committed).proposals
              && db.committed == Executed(old(db.committed), p, q.actor, Succeeds(executors, p), eventId)
              && db.committed == Run(World(old(db.committed), map[]),
                                     [Load(0, q.id, registry.whitelist),
                                      Apply(0, q.actor, r.value.success, eventId, true)]).t
  {
    var loaded := LoadForExecution(db, registry, q);
    if loaded.Err? {
      return Err(loaded.error);
    }
    if q.dryRun {
      return Ok(ExecutionResult(true, true, None));
    }
    CanonicalHasChannel(loaded.value.actionType);
    ghost var before := db.committed;
    r := ExecuteForReal(db, loaded.value, q.actor, executors, eventId, f);
    if r.Ok? {
      LoadedThenApplied(before, q.id, registry.whitelist, q.actor, r.value.success, eventId);
    }
  }

  // ---------------------------------------------------------------- proposing

  datatype Action = Action(actionType: string, payload: string)

  datatype ProposeError = CreateFailed | CaseUpdateFailed

  /** ValidatePayload: the type must be configured, and a non-empty schema must accept the payload. */
  predicate PayloadValid(registry: Registry.ActionRegistry?, accepts: (string, string) -> bool, a: Action)
    reads registry
  {
    registry == null
    || (a.actionType in registry.actions
        && (registry.actions[a.actionType].schema == "" || accepts(registry.actions[a.actionType].schema, a.payload)))
  }

  function Types(proposals: seq<Proposal>): seq<string> {
    seq(|proposals|, i requires 0 <= i < |proposals| => proposals[i].actionType)
  }

  function ActionTypes(actions: seq<Action>): seq<string> {
    seq(|actions|, i requires 0 <= i < |actions| => actions[i].actionType)
  }

  lemma TypesAre(proposals: seq<Proposal>, actions: seq<Action>)
    requires Types(proposals) == ActionTypes(actions)
    ensures |proposals| == |actions|
    ensures forall i :: 0 <= i < |actions| ==> proposals[i].actionType == actions[i].actionType
  {
    assert |Types(proposals)| == |ActionTypes(actions)|;
    forall i | 0 <= i < |actions| ensures proposals[i].actionType == actions[i].actionType {
      assert Types(proposals)[i] == ActionTypes(actions)[i];
    }
  }

  /** The actions GenerateProposals accepts, in order. */
  function Acceptable(registry: Registry.ActionRegistry?, accepts: (string, string) -> bool,
                      actions: seq<Action>): seq<Action>
    reads registry
  {
    if actions == [] then []
    else
      var last := actions[|actions| - 1];
      Acceptable(registry, accepts, actions[..|actions| - 1])
          + (if PayloadValid(registry, accepts, last) then [last] else [])
  }

  /**
    Action by action: without a registry all are acceptable, with one those configured whose schema, if any,
    accepts.
   */
  lemma AcceptableAre(registry: Registry.ActionRegistry?, accepts: (string, string) -> bool, actions: seq<Action>,
                      a: Action)
    ensures Acceptable(registry, accepts, []) == []
    ensures registry == null ==>
            Acceptable(registry, accepts, actions + [a]) == Acceptable(registry, accepts, actions) + [a]
    ensures registry != null ==> var known := registry.actions;
              Acceptable(registry, accepts, actions + [a]) == Acceptable(registry, accepts, actions) +
                (if a.actionType in known
                    && (known[a.actionType].schema == "" || accepts(known[a.actionType].schema, a.payload))
                 then [a] else [])
  {
    assert (actions + [a])[..|actions|] == actions;
  }

  /** Every row that was not there before is a new proposal of this case, awaiting review. */
  ghost predicate OnlyProposes(before: Tables, after: Tables, caseId: string, registry: Registry.ActionRegistry?)
    reads registry
  {
    && after.(proposals := before.proposals, cases := before.cases) == before
    && before.proposals.Keys <= after.proposals.Keys
    && (forall id :: id in before.proposals ==> after.proposals[id] == before.proposals[id])
    && (forall id :: id in after.proposals && id !in before.proposals ==>
          && after.proposals[id] == Proposal(id, caseId, after.proposals[id].actionType, Proposed, None)
          && (registry != null ==> after.proposals[id].actionType in Registry.CANONICAL))
  }

  /** What the rows written for some actions have made of the tables: Propose steps, one for each acceptable action. */
  ghost predicate WrittenFor(before: Tables, now: Tables, written: seq<Proposal>, caseId: string,
                             registry: Registry.ActionRegistry?, accepts: (string, string) -> bool,
                             actions: seq<Action>)
    reads registry
  {
    && OnlyProposes(before, now, caseId, registry) && now.cases == before.cases
    && Types(written) == ActionTypes(Acceptable(registry, accepts, actions))
    && (forall p :: p in written ==> p.caseId == caseId && p.id in now.proposals && now.proposals[p.id] == p)
    && Run(World(before, map[]), Proposing(written)) == World(now, map[])
  }

  lemma SkippedAction(before: Tables, now: Tables, written: seq<Proposal>, caseId: string,
                      registry: Registry.ActionRegistry?, accepts: (string, string) -> bool,
                      actions: seq<Action>, a: Action)
    requires WrittenFor(before, now, written, caseId, registry, accepts, actions)
    requires !PayloadValid(registry, accepts, a)
    ensures WrittenFor(before, now, written, caseId, registry, accepts, actions + [a])
  {
    assert (actions + [a])[..|actions|] == actions;
  }

  lemma OneMoreType(registry: Registry.ActionRegistry?, accepts: (string, string) -> bool,
                    written: seq<Proposal>, actions: seq<Action>, row: Proposal, a: Action)
    requires Types(written) == ActionTypes(Acceptable(registry, accepts, actions))
    requires PayloadValid(registry, accepts, a) && row.actionType == a.actionType
    ensures Types(written + [row]) == ActionTypes(Acceptable(registry, accepts, actions + [a]))
  {
    assert (actions + [a])[..|actions|] == actions;
    var earlier := Acceptable(registry, accepts, actions);
    assert ActionTypes(earlier + [a]) == ActionTypes(earlier) + [a.actionType];
    assert Types(written + [row]) == Types(written) + [row.actionType];
  }

  lemma OneMoreProposed(before: Tables, now: Tables, caseId: string, registry: Registry.ActionRegistry?, row: Proposal)
    requires OnlyProposes(before, now, caseId, registry) && row.id !in now.proposals
    requires row == Proposal(row.id, caseId, row.actionType, Proposed, None)
    requires registry != null ==> row.actionType in Registry.CANONICAL
    ensures OnlyProposes(before, now.(proposals := now.proposals[row.id := row]), caseId, registry)
  {
  }

  lemma WrittenAction(before: Tables, now: Tables, written: seq<Proposal>, caseId: string,
                      registry: Registry.ActionRegistry?, accepts: (string, string) -> bool,
                      actions: seq<Action>, a: Action, row: Proposal)
    requires WrittenFor(before, now, written, caseId, registry, accepts, actions)
    requires registry != null ==> registry.Valid()
    requires PayloadValid(registry, accepts, a) && row.id !in now.proposals
    requires row == Proposal(row.id, caseId, a.actionType, Proposed, None)
    ensures WrittenFor(before, now.(proposals := now.proposals[row.id := row]), written + [row], caseId,
                       registry, accepts, actions + [a])
  {
    OneMoreProposed(before, now, caseId, registry, row);
    OneMoreType(registry, accepts, written, actions, row, a);
    OneMoreWritten(before, written, now, row);
  }

  /** The loop of GenerateProposals. */
  method WriteProposals(db: Database, registry: Registry.ActionRegistry?, accepts: (string, string) -> bool,
                        caseId: string, actions: seq<Action>, ids: seq<Id>, createFails: nat -> bool)
    returns (ok: bool, proposals: seq<Proposal>, ghost done: nat)
    requires |ids| == |actions|
    requires registry != null ==> registry.Valid()
    modifies db
    ensures done <= |actions| && (ok ==> done == |actions|)
    ensures WrittenFor(old(db.committed), db.committed, proposals, caseId, registry, accepts, actions[..done])
    ensures !ok ==> done < |actions| && (ids[done] in db.committed.proposals || createFails(done))
  {
    proposals := [];
    for i := 0 to |actions|
      invariant WrittenFor(old(db.committed), db.committed, proposals, caseId, registry, accepts, actions[..i])
    {
      assert actions[..i + 1] == actions[..i] + [actions[i]];
      if !PayloadValid(registry, accepts, actions[i]) {
        SkippedAction(old(db.committed), db.committed, proposals, caseId, registry, accepts, actions[..i], actions[i]);
        continue;
      }
      if ids[i] in db.committed.proposals || createFails(i) {
        return false, proposals, i;
      }
      var row := Proposal(ids[i], caseId, actions[i].actionType, Proposed, None);
      WrittenAction(old(db.committed), db.committed, proposals, caseId, registry, accepts,
                    actions[..i], actions[i], row);
      db.committed := db.committed.(proposals := db.committed.proposals[ids[i] := row]);
      proposals := proposals + [row];
    }
    return true, proposals, |actions|;
  }

  /**
    GenerateProposals: one row per acceptable action, in order, each written on its own; on success
    the case becomes `proposal_generated`, and a case that does not exist is an error.  Rows written
    before a failure stay.  Undisturbed, these are Propose steps and, on success, an Announce step.
   */
  method GenerateProposals(db: Database, registry: Registry.ActionRegistry?, accepts: (string, string) -> bool,
                           caseId: string, actions: seq<Action>, ids: seq<Id>, createFails: nat -> bool,
                           caseFails: bool)
    returns (r: Result<seq<Proposal>, ProposeError>, ghost written: seq<Proposal>)
    requires |ids| == |actions|
    requires registry != null ==> registry.Valid()
    modifies db
    ensures OnlyProposes(old(db.committed), db.committed, caseId, registry)
    ensures r.Ok? ==> r.value == written && caseId in old(db.committed).cases && !caseFails
    ensures r.Ok? ==> var some := Acceptable(registry, accepts, actions);
              |r.value| == |some| && forall i :: 0 <= i < |some| ==> r.value[i].actionType == some[i].actionType
    ensures forall p :: p in written ==> p.id in db.committed.proposals && db.committed.proposals[p.id] == p
    ensures db.committed.cases ==
              if r.Ok? then old(db.committed).cases[caseId := "proposal_generated"] else old(db.committed).cases
    ensures Run(World(old(db.committed), map[]), Proposing(written) + (if r.Ok? then [Announce(caseId)] else []))
         == World(db.committed, map[])
  {
    var ok, proposals;
    ghost var done;
    ok, proposals, done := WriteProposals(db, registry, accepts, caseId, actions, ids, createFails);
    written := proposals;
    assert Proposing(written) + [] == Proposing(written);
    if !ok {
      return Err(CreateFailed), written;
    }
    assert actions[..|actions|] == actions;
    if caseFails || caseId !in db.committed.cases {
      return Err(CaseUpdateFailed), written;
    }
    RunSnoc(World(old(db.committed), map[]), Proposing(written), Announce(caseId));
    db.committed := db.committed.(cases := db.committed.cases[caseId := "proposal_generated"]);
    TypesAre(proposals, Acceptable(registry, accepts, actions));
    return Ok(proposals), written;
  }

  function Proposing(written: seq<Proposal>): seq<Step> {
    seq(|written|, i requires 0 <= i < |written| => Propose(written[i]))
  }

  lemma OneMoreWritten(before: Tables, written: seq<Proposal>, now: Tables, row: Proposal)
    requires Run(World(before, map[]), Proposing(written)) == World(now, map[])
    requires row.id !in now.proposals && row.status == Proposed && row.appliedBy == None
    ensures Run(World(before, map[]), Proposing(written + [row]))
         == World(now.(proposals := now.proposals[row.id := row]), map[])
  {
    assert Proposing(written + [row]) == Proposing(written) + [Propose(row)];
    RunSnoc(World(before, map[]), Proposing(written), Propose(row));
  }

  /** What GenerateProposals writes keeps the protocol invariant, whatever executions are in flight. */
  lemma ProposingKeepsInv(w: World, after: Tables, caseId: string, registry: Registry.ActionRegistry?)
    requires Inv(w) && OnlyProposes(w.t, after, caseId, registry)
    ensures Inv(w.(t := after))
  {
    forall id | id in after.proposals ensures ReviewsMatchOne(after, id) {
      if id in w.t.proposals {
        assert ReviewsMatchOne(w.t, id);
      } else {
        NoReviewsOfUnknown(w.t.reviews, id);
      }
    }
    forall e | e in after.events ensures EventMatches(after, e) {
      assert EventMatches(w.t, e);
    }
    forall exec | exec in w.inflight ensures HeldMatches(after, w.inflight[exec]) {
      assert HeldMatches(w.t, w.inflight[exec]);
    }
  }
}
