/**
  Every interleaving of proposing, reviewing and executing.

  Proposing writes its rows one by one, each on its own, and then announces them on the case: a Propose
  step for each row and an Announce step for the case.  Other services put events of their own into the
  same outbox, in Publish steps.
  A review reads its row FOR UPDATE, so it is one step.  An execution reads the proposal before its
  transaction starts and updates it later without looking at the status again, so it is two steps,
  Load and Apply, and any number of other steps may come between them.
 */
module ProposalRuns {
  import opened Wrappers
  import opened ProposalTables
  import Registry

  datatype Step =
    | Propose(p: Proposal)
    | Announce(caseId: string)
    | Publish(event: Event)
    | Decide(r: Review, withLineage: bool, commits: bool)
    | Load(exec: nat, id: Id, whitelist: set<string>)
    | Apply(done: nat, actor: string, success: bool, eventId: string, committed: bool)

  /** The committed tables and the proposals that executions in flight hold in memory. */
  datatype World = World(t: Tables, inflight: map<nat, Proposal>)

  const START := World(EMPTY, map[])

  function Next(w: World, s: Step): World {
    match s
    case Propose(p) =>
      if p.id in w.t.proposals then w
      else w.(t := w.t.(proposals := w.t.proposals[p.id := p.(status := Proposed, appliedBy := None)]))
    case Announce(c) =>
      if c in w.t.cases then w.(t := w.t.(cases := w.t.cases[c := "proposal_generated"])) else w
    case Publish(e) =>
      if e.origin.Execution? then w else w.(t := w.t.(events := InsertEvent(w.t.events, e)))
    case Decide(r, withLineage, commits) =>
      if commits && r.proposal in w.t.proposals && w.t.proposals[r.proposal].status == Proposed
      then w.(t := Reviewed(w.t, r.proposal, r, withLineage)) else w
    case Load(exec, id, whitelist) =>
      if exec !in w.inflight && Executable(w.t, id, whitelist)
      then w.(inflight := w.inflight[exec := w.t.proposals[id]]) else w
    case Apply(exec, actor, success, eventId, committed) =>
      if exec !in w.inflight then w
      else
        var p := w.inflight[exec];
        World(if committed && p.id in w.t.proposals then Executed(w.t, p, actor, success, eventId) else w.t,
              w.inflight - {exec})
  }

  /** The checks ExecuteProposal makes before it starts a transaction. */
  predicate Executable(t: Tables, id: Id, whitelist: set<string>) {
    id in t.proposals && t.proposals[id].status == Approved && t.proposals[id].actionType in whitelist
  }

  function Run(w: World, steps: seq<Step>): World
    decreases steps
  {
    if steps == [] then w else Run(Next(w, steps[0]), steps[1..])
  }

  lemma {:induction false} RunSnoc(w: World, steps: seq<Step>, s: Step)
    ensures Run(w, steps + [s]) == Next(Run(w, steps), s)
    decreases steps
  {
    if steps != [] {
      assert (steps + [s])[1..] == steps[1..] + [s];
      RunSnoc(Next(w, steps[0]), steps[1..], s);
    }
  }

  // ---------------------------------------------------------------- what every step keeps

  ghost predicate ApprovedOnce(reviews: seq<Review>) {
    |reviews| == 1 && reviews[0].verdict == Approve
  }

  ghost predicate RefusedOnce(reviews: seq<Review>) {
    |reviews| == 1 && reviews[0].verdict != Approve
  }

  /** The reviews a committed proposal must have, given its status. */
  ghost predicate Reviewing(status: Status, reviews: seq<Review>) {
    match status
    case Proposed => reviews == []
    case Rejected => RefusedOnce(reviews)
    case Applying => false
    case Approved => ApprovedOnce(reviews)
    case Applied => ApprovedOnce(reviews)
    case Failed => ApprovedOnce(reviews)
  }

  ghost predicate Executing(status: Status) {
    status == Approved || status == Applied || status == Failed
  }

  ghost predicate ReviewsMatchOne(t: Tables, id: Id)
    requires id in t.proposals
  {
    t.proposals[id].id == id && Reviewing(t.proposals[id].status, ReviewsOf(t.reviews, id))
  }

  ghost predicate ReviewsMatch(t: Tables) {
    && (forall id :: id in t.proposals ==> ReviewsMatchOne(t, id))
    && (forall r :: r in t.reviews ==> r.proposal in t.proposals)
  }

  /** Only an executed proposal has events of its own, each sent to a channel that exists. */
  ghost predicate EventMatches(t: Tables, e: Event) {
    e.origin.Execution? ==>
    && e.origin.proposal in t.proposals
    && (t.proposals[e.origin.proposal].status == Applied || t.proposals[e.origin.proposal].status == Failed)
    && e.eventType == t.proposals[e.origin.proposal].actionType
    && e.channel == ActionChannel(e.eventType) != "unknown"
  }

  ghost predicate EventsMatch(t: Tables) {
    forall e :: e in t.events ==> EventMatches(t, e)
  }

  /** A proposal held by an execution in flight was approved, and still counts as approved. */
  ghost predicate HeldMatches(t: Tables, p: Proposal) {
    && p.id in t.proposals
    && p.status == Approved
    && Executing(t.proposals[p.id].status)
    && p.actionType == t.proposals[p.id].actionType
    && p.actionType in Registry.CANONICAL
  }

  ghost predicate InflightMatch(w: World) {
    forall exec :: exec in w.inflight ==> HeldMatches(w.t, w.inflight[exec])
  }

  ghost predicate Inv(w: World) {
    ReviewsMatch(w.t) && EventsMatch(w.t) && InflightMatch(w)
  }

  /** Executions consult a registry whitelist, which holds canonical types only. */
  ghost predicate Registered(steps: seq<Step>) {
    forall i :: 0 <= i < |steps| ==> StepRegistered(steps[i])
  }

  ghost predicate StepRegistered(s: Step) {
    s.Load? ==> forall a :: a in s.whitelist ==> a in Registry.CANONICAL
  }

  lemma {:induction false} NoReviewsOfUnknown(reviews: seq<Review>, id: Id)
    requires forall r :: r in reviews ==> r.proposal != id
    ensures ReviewsOf(reviews, id) == []
  {
    if reviews != [] {
      NoReviewsOfUnknown(reviews[..|reviews| - 1], id);
    }
  }

  lemma {:induction false} NoEventsOfUnknown(events: seq<Event>, id: Id)
    requires forall e :: e in events ==> e.origin != Execution(id)
    ensures EventsOf(events, id) == []
  {
    if events != [] {
      NoEventsOfUnknown(events[..|events| - 1], id);
    }
  }

  lemma CanonicalHasChannel(actionType: string)
    ensures ActionChannel(actionType) != "unknown" <==> actionType in Registry.CANONICAL
  {
    if actionType in Registry.CANONICAL {
      var i :| 0 <= i < 4 && Registry.CANONICAL[i] == actionType;
    } else {
      assert Registry.CANONICAL[0] != actionType && Registry.CANONICAL[1] != actionType;
      assert Registry.CANONICAL[2] != actionType && Registry.CANONICAL[3] != actionType;
    }
  }

  lemma ProposeKeepsInv(w: World, p: Proposal)
    requires Inv(w)
    ensures Inv(Next(w, Propose(p)))
  {
    if p.id !in w.t.proposals {
      NoReviewsOfUnknown(w.t.reviews, p.id);
      var w' := Next(w, Propose(p));
      forall id | id in w'.t.proposals ensures ReviewsMatchOne(w'.t, id) {
        assert id != p.id ==> ReviewsMatchOne(w.t, id);
      }
      forall e | e in w'.t.events ensures EventMatches(w'.t, e) {
        assert EventMatches(w.t, e);
      }
      forall exec | exec in w'.inflight ensures HeldMatches(w'.t, w'.inflight[exec]) {
        assert HeldMatches(w.t, w.inflight[exec]);
      }
    }
  }

  /** A status change that keeps `applied` and `failed` executed spares the events and the executions in flight. */
  lemma StatusChangeSpares(w: World, id: Id, p: Proposal)
    requires EventsMatch(w.t) && InflightMatch(w) && id in w.t.proposals
    requires p.actionType == w.t.proposals[id].actionType
    requires Executing(w.t.proposals[id].status) ==> p.status == Applied || p.status == Failed
    ensures var t' := w.t.(proposals := w.t.proposals[id := p]); EventsMatch(t') && InflightMatch(w.(t := t'))
  {
    var t' := w.t.(proposals := w.t.proposals[id := p]);
    forall e | e in w.t.events ensures EventMatches(t', e) {
      assert EventMatches(w.t, e);
    }
    forall exec | exec in w.inflight ensures HeldMatches(t', w.inflight[exec]) {
      assert HeldMatches(w.t, w.inflight[exec]);
    }
  }

  lemma DecideKeepsInv(w: World, r: Review, withLineage: bool)
    requires Inv(w) && r.proposal in w.t.proposals && w.t.proposals[r.proposal].status == Proposed
    ensures Inv(w.(t := Reviewed(w.t, r.proposal, r, withLineage)))
  {
    var t' := Reviewed(w.t, r.proposal, r, withLineage);
    forall id | id in t'.proposals ensures ReviewsMatchOne(t', id) {
      assert ReviewsMatchOne(w.t, id);
      AppendReview(w.t.reviews, r, id);
    }
    StatusChangeSpares(w, r.proposal, t'.proposals[r.proposal]);
    forall e | e in t'.events ensures EventMatches(t', e) {
      assert EventMatches(w.t.(proposals := t'.proposals), e);
    }
    forall exec | exec in w.inflight ensures HeldMatches(t', w.inflight[exec]) {
      assert HeldMatches(w.t.(proposals := t'.proposals), w.inflight[exec]);
    }
  }

  lemma ExecutedKeepsInv(w: World, p: Proposal, actor: string, success: bool, eventId: string)
    requires Inv(w) && HeldMatches(w.t, p)
    ensures Inv(w.(t := Executed(w.t, p, actor, success, eventId)))
  {
    var t' := Executed(w.t, p, actor, success, eventId);
    forall id | id in t'.proposals ensures ReviewsMatchOne(t', id) {
      assert ReviewsMatchOne(w.t, id);
    }
    StatusChangeSpares(w, p.id, t'.proposals[p.id]);
    CanonicalHasChannel(p.actionType);
    forall e | e in t'.events ensures EventMatches(t', e) {
      if e in w.t.events {
        assert EventMatches(w.t.(proposals := t'.proposals), e);
      }
    }
    forall exec | exec in w.inflight ensures HeldMatches(t', w.inflight[exec]) {
      assert HeldMatches(w.t.(proposals := t'.proposals), w.inflight[exec]);
    }
  }

  lemma ApplyKeepsInv(w: World, s: Step)
    requires Inv(w) && s.Apply?
    ensures Inv(Next(w, s))
  {
    if s.done in w.inflight {
      var p := w.inflight[s.done];
      assert HeldMatches(w.t, p);
      ExecutedKeepsInv(w, p, s.actor, s.success, s.eventId);
    }
  }

  lemma AnnounceKeepsInv(w: World, c: string)
    requires Inv(w)
    ensures Inv(Next(w, Announce(c)))
  {
    var t' := Next(w, Announce(c)).t;
    forall id | id in t'.proposals ensures ReviewsMatchOne(t', id) {
      assert ReviewsMatchOne(w.t, id);
    }
    forall e | e in t'.events ensures EventMatches(t', e) {
      assert EventMatches(w.t, e);
    }
    forall exec | exec in w.inflight ensures HeldMatches(t', w.inflight[exec]) {
      assert HeldMatches(w.t, w.inflight[exec]);
    }
  }

  lemma PublishKeepsInv(w: World, e: Event)
    requires Inv(w)
    ensures Inv(Next(w, Publish(e)))
  {
    var t' := Next(w, Publish(e)).t;
    forall id | id in t'.proposals ensures ReviewsMatchOne(t', id) {
      assert ReviewsMatchOne(w.t, id);
    }
    forall x | x in t'.events ensures EventMatches(t', x) {
      assert x in w.t.events ==> EventMatches(w.t, x);
    }
    forall exec | exec in w.inflight ensures HeldMatches(t', w.inflight[exec]) {
      assert HeldMatches(w.t, w.inflight[exec]);
    }
  }

  lemma NextKeepsInv(w: World, s: Step)
    requires Inv(w) && StepRegistered(s)
    ensures Inv(Next(w, s))
  {
    match s
    case Propose(p) => ProposeKeepsInv(w, p);
    case Announce(c) => AnnounceKeepsInv(w, c);
    case Publish(e) => PublishKeepsInv(w, e);
    case Decide(r, withLineage, commits) =>
      if Next(w, s) != w {
        DecideKeepsInv(w, r, withLineage);
      }
    case Load(_, _, _) =>
    case Apply(_, _, _, _, _) => ApplyKeepsInv(w, s);
  }

  lemma {:induction false} RunKeepsInv(w: World, steps: seq<Step>)
    requires Inv(w) && Registered(steps)
    ensures Inv(Run(w, steps))
    decreases steps
  {
    if steps != [] {
      NextKeepsInv(w, steps[0]);
      RunKeepsInv(Next(w, steps[0]), steps[1..]);
    }
  }

  /** The status tells the reviews, and the reviews tell the status up to the outcome of an execution. */
  ghost predicate StatusShowsReviews(status: Status, reviews: seq<Review>) {
    && status != Applying
    && (status == Proposed <==> reviews == [])
    && (Executing(status) <==> |reviews| == 1 && reviews[0].verdict == Approve)
    && (status == Rejected <==> |reviews| == 1 && reviews[0].verdict in {Reject, Cancel})
  }

  /**
    Approval precedes application, in every interleaving: whatever was committed, a proposal carries
    the review its status calls for, nothing is left `applying`, and every outbox event belongs to a
    proposal approved exactly once and goes to a real channel if an execution published it.
   */
  lemma ApprovalPrecedesApplication(steps: seq<Step>)
    requires Registered(steps)
    ensures var t := Run(START, steps).t;
      && (forall id :: id in t.proposals ==> StatusShowsReviews(t.proposals[id].status, ReviewsOf(t.reviews, id)))
      && (forall e :: e in t.events && e.origin.Execution? ==>
            && e.origin.proposal in t.proposals
            && ApprovedOnce(ReviewsOf(t.reviews, e.origin.proposal))
            && e.eventType == t.proposals[e.origin.proposal].actionType
            && (e.eventType == "create_followup_task" ==> e.channel == "github")
            && (e.eventType != "create_followup_task" ==> e.channel == "feishu"))
  {
    RunKeepsInv(START, steps);
    var t := Run(START, steps).t;
    forall id | id in t.proposals ensures StatusShowsReviews(t.proposals[id].status, ReviewsOf(t.reviews, id)) {
      assert ReviewsMatchOne(t, id);
    }
    forall e | e in t.events && e.origin.Execution?
      ensures e.origin.proposal in t.proposals
      ensures ApprovedOnce(ReviewsOf(t.reviews, e.origin.proposal))
      ensures e.eventType == t.proposals[e.origin.proposal].actionType
      ensures e.channel == if e.eventType == "create_followup_task" then "github" else "feishu"
    {
      EventWasApproved(t, e);
    }
  }

  lemma EventWasApproved(t: Tables, e: Event)
    requires ReviewsMatch(t) && EventsMatch(t) && e in t.events && e.origin.Execution?
    ensures e.origin.proposal in t.proposals
    ensures ApprovedOnce(ReviewsOf(t.reviews, e.origin.proposal))
    ensures e.eventType == t.proposals[e.origin.proposal].actionType
    ensures e.channel == if e.eventType == "create_followup_task" then "github" else "feishu"
  {
    ChannelsAre(e.eventType);
    assert EventMatches(t, e) && ReviewsMatchOne(t, e.origin.proposal);
  }

  // ---------------------------------------------------------------- what no run may touch

  /** Position k is a review of one of the case's own proposals. */
  ghost predicate ReviewOfCase(t: Tables, c: string, k: nat) {
    && k < |t.reviews|
    && t.reviews[k].proposal in t.proposals && t.proposals[t.reviews[k].proposal].caseId == c
  }

  /** Some review of one of the case's own proposals came after the first n reviews. */
  ghost predicate ReviewedSince(t: Tables, c: string, n: nat) {
    exists k :: n <= k && ReviewOfCase(t, c, k)
  }

  /** The cases whose proposals the steps announce. */
  ghost function Announced(steps: seq<Step>): set<string> {
    set i | 0 <= i < |steps| && steps[i].Announce? :: steps[i].caseId
  }

  /**
    The moves of a case: to `proposal_generated`, from any status, by an announcement; and to
    `review_required` by a review of one of its own proposals, from `proposal_generated`, be it the
    status before or one announced on the way.
   */
  ghost predicate CaseMoved(before: Tables, after: Tables, announced: set<string>, c: string)
    requires c in before.cases && c in after.cases
  {
    || (after.cases[c] == "proposal_generated" && c in announced)
    || (&& after.cases[c] == "review_required"
        && (before.cases[c] == "proposal_generated" || c in announced)
        && ReviewedSince(after, c, |before.reviews|))
  }

  /**
    What later tables keep of earlier ones: no review, event, audit or lineage entry is removed or
    altered, no proposal disappears or changes its case or action, and cases only make the moves above.
   */
  ghost predicate Grows(before: Tables, after: Tables, announced: set<string>) {
    && before.reviews <= after.reviews && before.events <= after.events
    && before.audit <= after.audit && before.lineage <= after.lineage
    && (forall id :: id in before.proposals ==>
        id in after.proposals && SameIdentity(before.proposals[id], after.proposals[id]))
    && before.cases.Keys == after.cases.Keys
    && (forall c :: c in before.cases ==>
        before.cases[c] == after.cases[c] || CaseMoved(before, after, announced, c))
  }

  /** Whoever applied a proposal stays on record, even when a later execution fails. */
  ghost predicate SameIdentity(before: Proposal, after: Proposal) {
    && after.id == before.id && after.caseId == before.caseId && after.actionType == before.actionType
    && (before.appliedBy.Some? ==> after.appliedBy.Some?)
  }

  lemma ReviewedStays(b: Tables, c: Tables, later: set<string>, name: string, n: nat)
    requires Grows(b, c, later) && ReviewedSince(b, name, n)
    ensures ReviewedSince(c, name, n)
  {
    var k :| n <= k && ReviewOfCase(b, name, k);
    assert SameIdentity(b.proposals[b.reviews[k].proposal], c.proposals[b.reviews[k].proposal]);
    assert ReviewOfCase(c, name, k);
  }

  lemma ReviewedEarlier(t: Tables, name: string, n: nat, m: nat)
    requires n <= m && ReviewedSince(t, name, m)
    ensures ReviewedSince(t, name, n)
  {
    var k :| m <= k && ReviewOfCase(t, name, k);
  }

  lemma CaseMovedLater(a: Tables, b: Tables, c: Tables, first: set<string>, later: set<string>, name: string)
    requires Grows(a, b, first) && Grows(b, c, later) && name in a.cases && a.cases[name] != c.cases[name]
    ensures CaseMoved(a, c, first + later, name)
  {
    if b.cases[name] == c.cases[name] {
      if b.cases[name] != "proposal_generated" || name !in first {
        ReviewedStays(b, c, later, name, |a.reviews|);
      }
    } else if c.cases[name] != "proposal_generated" || name !in later {
      ReviewedEarlier(c, name, |a.reviews|, |b.reviews|);
    }
  }

  lemma GrowsTransitive(a: Tables, b: Tables, c: Tables, first: set<string>, later: set<string>)
    requires Grows(a, b, first) && Grows(b, c, later)
    ensures Grows(a, c, first + later)
  {
    forall name | name in a.cases
      ensures a.cases[name] == c.cases[name] || CaseMoved(a, c, first + later, name)
    {
      if a.cases[name] != c.cases[name] {
        CaseMovedLater(a, b, c, first, later, name);
      }
    }
    forall id | id in a.proposals ensures id in c.proposals && SameIdentity(a.proposals[id], c.proposals[id]) {
      assert SameIdentity(a.proposals[id], b.proposals[id]) && SameIdentity(b.proposals[id], c.proposals[id]);
    }
  }

  lemma ReviewGrows(t: Tables, r: Review, withLineage: bool)
    requires r.proposal in t.proposals
    ensures Grows(t, Reviewed(t, r.proposal, r, withLineage), {})
  {
    var t' := Reviewed(t, r.proposal, r, withLineage);
    assert t'.cases.Keys == t.cases.Keys;
    assert ReviewOfCase(t', t.proposals[r.proposal].caseId, |t.reviews|);
  }

  lemma ExecutionGrows(t: Tables, p: Proposal, actor: string, success: bool, eventId: string)
    requires p.id in t.proposals
    ensures Grows(t, Executed(t, p, actor, success, eventId), {})
  {
  }

  lemma AnnounceGrows(w: World, c: string)
    ensures Grows(w.t, Next(w, Announce(c)).t, {c})
  {
    var t' := Next(w, Announce(c)).t;
    assert t'.cases.Keys == w.t.cases.Keys;
  }

  lemma StepGrows(w: World, s: Step)
    ensures Grows(w.t, Next(w, s).t, if s.Announce? then {s.caseId} else {})
  {
    match s
    case Propose(_) =>
    case Announce(c) => AnnounceGrows(w, c);
    case Publish(_) =>
    case Decide(r, withLineage, _) =>
      if Next(w, s) != w {
        ReviewGrows(w.t, r, withLineage);
      }
    case Load(_, _, _) =>
    case Apply(exec, actor, success, eventId, committed) =>
      if exec in w.inflight && committed && w.inflight[exec].id in w.t.proposals {
        ExecutionGrows(w.t, w.inflight[exec], actor, success, eventId);
      }
  }

  lemma AnnouncedFirst(steps: seq<Step>)
    requires steps != []
    ensures Announced(steps) == (if steps[0].Announce? then {steps[0].caseId} else {}) + Announced(steps[1..])
  {
    var first, rest := if steps[0].Announce? then {steps[0].caseId} else {}, steps[1..];
    forall c | c in Announced(steps) ensures c in first + Announced(rest) {
      var i :| 0 <= i < |steps| && steps[i].Announce? && steps[i].caseId == c;
      if i > 0 {
        assert rest[i - 1] == steps[i];
      }
    }
    forall c | c in Announced(rest) ensures c in Announced(steps) {
      var i :| 0 <= i < |rest| && rest[i].Announce? && rest[i].caseId == c;
      assert steps[i + 1] == rest[i];
    }
  }

  /**
    In every run, from any tables: logs only grow, proposals keep their identity, and cases move only
    by announcements and by reviews of their own proposals.
   */
  lemma {:induction false} RunGrows(w: World, steps: seq<Step>)
    ensures Grows(w.t, Run(w, steps).t, Announced(steps))
    decreases steps
  {
    if steps != [] {
      var first := if steps[0].Announce? then {steps[0].caseId} else {};
      StepGrows(w, steps[0]);
      RunGrows(Next(w, steps[0]), steps[1..]);
      GrowsTransitive(w.t, Next(w, steps[0]).t, Run(w, steps).t, first, Announced(steps[1..]));
      AnnouncedFirst(steps);
    }
  }

  /** Step s commits a review of one of the case's proposals. */
  ghost predicate ReviewsCase(w: World, s: Step, c: string) {
    && s.Decide? && s.commits && s.r.proposal in w.t.proposals
    && w.t.proposals[s.r.proposal].status == Proposed && w.t.proposals[s.r.proposal].caseId == c
  }

  /** Step i of the run concerns the case. */
  ghost predicate ConcernsCase(w: World, steps: seq<Step>, c: string, i: nat)
    requires i < |steps|
  {
    steps[i] == Announce(c) || ReviewsCase(Run(w, steps[..i]), steps[i], c)
  }

  lemma QuietStep(w: World, s: Step, c: string)
    requires c in w.t.cases && s != Announce(c) && !ReviewsCase(w, s, c)
    ensures c in Next(w, s).t.cases && Next(w, s).t.cases[c] == w.t.cases[c]
  {
  }

  lemma LoudStep(w: World, s: Step, c: string)
    requires c in w.t.cases && c != "" && (s == Announce(c) || ReviewsCase(w, s, c))
    ensures c in Next(w, s).t.cases
    ensures Next(w, s).t.cases[c] == "proposal_generated" <==> s == Announce(c)
  {
  }

  ghost predicate LastConcerning(w: World, steps: seq<Step>, c: string, i: nat) {
    i < |steps| && ConcernsCase(w, steps, c, i) && forall j :: i < j < |steps| ==> !ConcernsCase(w, steps, c, j)
  }

  /** The last step that concerns the case announces proposals. */
  ghost predicate AnnouncedLast(w: World, steps: seq<Step>, c: string) {
    exists i: nat :: LastConcerning(w, steps, c, i) && steps[i] == Announce(c)
  }

  /** No step concerns the case. */
  ghost predicate Undisturbed(w: World, steps: seq<Step>, c: string) {
    forall i: nat :: i < |steps| ==> !ConcernsCase(w, steps, c, i)
  }

  /**
    A case stands at `proposal_generated` after a run exactly when the last step concerning it is an
    announcement, or no step concerns it and it stood there before: each review takes it away from there.
   */
  lemma {:induction false} AwaitsReviewIff(w: World, steps: seq<Step>, c: string)
    requires c in w.t.cases && c != ""
    ensures c in Run(w, steps).t.cases
    ensures Run(w, steps).t.cases[c] == "proposal_generated"
            <==> AnnouncedLast(w, steps, c) || (Undisturbed(w, steps, c) && w.t.cases[c] == "proposal_generated")
    decreases |steps|
  {
    if steps != [] {
      var n := |steps| - 1;
      var front := steps[..n];
      AwaitsReviewIff(w, front, c);
      RunSnoc(w, front, steps[n]);
      assert steps == front + [steps[n]];
      if ConcernsCase(w, steps, c, n) {
        LoudStep(Run(w, front), steps[n], c);
        LoudEnd(w, steps, c);
      } else {
        QuietStep(Run(w, front), steps[n], c);
        QuietEnd(w, steps, c);
      }
    }
  }

  lemma LoudEnd(w: World, steps: seq<Step>, c: string)
    requires steps != [] && ConcernsCase(w, steps, c, |steps| - 1)
    ensures !Undisturbed(w, steps, c)
    ensures AnnouncedLast(w, steps, c) <==> steps[|steps| - 1] == Announce(c)
  {
    assert LastConcerning(w, steps, c, |steps| - 1);
  }

  lemma ConcernsEarlier(w: World, steps: seq<Step>, c: string, i: nat)
    requires i < |steps| - 1
    ensures ConcernsCase(w, steps, c, i) <==> ConcernsCase(w, steps[..|steps| - 1], c, i)
  {
    assert steps[..|steps| - 1][..i] == steps[..i];
  }

  /** A last step that does not concern the case leaves the earlier ones to decide. */
  lemma QuietEnd(w: World, steps: seq<Step>, c: string)
    requires steps != [] && !ConcernsCase(w, steps, c, |steps| - 1)
    ensures Undisturbed(w, steps, c) <==> Undisturbed(w, steps[..|steps| - 1], c)
    ensures AnnouncedLast(w, steps, c) <==> AnnouncedLast(w, steps[..|steps| - 1], c)
  {
    var front := steps[..|steps| - 1];
    forall i: nat | i < |front| ensures ConcernsCase(w, steps, c, i) <==> ConcernsCase(w, front, c, i) {
      ConcernsEarlier(w, steps, c, i);
    }
    forall i: nat | LastConcerning(w, front, c, i) ensures LastConcerning(w, steps, c, i) {
    }
    forall i: nat | LastConcerning(w, steps, c, i) ensures LastConcerning(w, front, c, i) {
      assert i < |front|;
    }
  }

  // ---------------------------------------------------------------- statuses and reviews over time

  /** The moves a committed status can make in one step, whatever is in flight. */
  ghost predicate Moves(before: Status, after: Status) {
    || before == after
    || (before == Proposed && (after == Approved || after == Rejected))
    || (before == Approved && (after == Applied || after == Failed))
    || (before == Applied && after == Failed)
    || (before == Failed && after == Applied)
  }

  lemma StatusMoves(w: World, s: Step, id: Id)
    requires Inv(w) && id in w.t.proposals
    ensures id in Next(w, s).t.proposals
    ensures Moves(w.t.proposals[id].status, Next(w, s).t.proposals[id].status)
  {
    if s.Apply? && s.done in w.inflight {
      assert HeldMatches(w.t, w.inflight[s.done]);
    }
  }

  lemma ReviewsStay(w: World, s: Step, id: Id)
    requires ReviewsMatch(w.t) && id in w.t.proposals && ReviewsOf(w.t.reviews, id) != []
    ensures ReviewsOf(Next(w, s).t.reviews, id) == ReviewsOf(w.t.reviews, id)
  {
    assert ReviewsMatchOne(w.t, id);
    if s.Decide? {
      AppendReview(w.t.reviews, s.r, id);
    }
  }

  /** A rejection is final, and the first decision about a proposal is the only one, for ever. */
  lemma {:induction false} DecisionIsFinal(w: World, steps: seq<Step>, id: Id)
    requires Inv(w) && Registered(steps) && id in w.t.proposals
    requires ReviewsOf(w.t.reviews, id) != []
    ensures var t := Run(w, steps).t;
      && id in t.proposals
      && ReviewsOf(t.reviews, id) == ReviewsOf(w.t.reviews, id)
      && (t.proposals[id].status == Rejected <==> w.t.proposals[id].status == Rejected)
    decreases steps
  {
    if steps != [] {
      StatusMoves(w, steps[0], id);
      ReviewsStay(w, steps[0], id);
      assert ReviewsMatchOne(w.t, id);
      NextKeepsInv(w, steps[0]);
      DecisionIsFinal(Next(w, steps[0]), steps[1..], id);
    }
  }

  // ---------------------------------------------------------------- causality

  /** The world before step i of a run from empty tables. */
  ghost function Before(steps: seq<Step>, i: nat): World
    requires i <= |steps|
  {
    Run(START, steps[..i])
  }

  /** Step i turns the proposal from proposed to approved. */
  ghost predicate ApprovedAt(steps: seq<Step>, id: Id, i: nat) {
    && i < |steps| && steps[i].Decide? && steps[i].commits && steps[i].r.proposal == id && steps[i].r.verdict == Approve
    && var t := Before(steps, i).t; id in t.proposals && t.proposals[id].status == Proposed
  }

  /** Step i approves the proposal, and the later step j really hands it to the execution. */
  ghost predicate LoadedAt(steps: seq<Step>, exec: nat, id: Id, i: nat, j: nat) {
    && ApprovedAt(steps, id, i)
    && i < j < |steps| && steps[j].Load? && steps[j].exec == exec && steps[j].id == id
    && var w := Before(steps, j); exec !in w.inflight && Executable(w.t, id, steps[j].whitelist)
  }

  /** The execution loaded the proposal at j and has not ended before step k. */
  ghost predicate HeldSince(steps: seq<Step>, exec: nat, id: Id, i: nat, j: nat, k: nat) {
    && LoadedAt(steps, exec, id, i, j)
    && j < k <= |steps|
    && forall m {:trigger steps[m]} :: j < m < k ==> !(steps[m].Apply? && steps[m].done == exec)
  }

  /** Approved at i, loaded at j, and applied by that very execution at k, still holding what it loaded. */
  ghost predicate AppliedAt(steps: seq<Step>, id: Id, i: nat, j: nat, k: nat) {
    && k < |steps|
    && steps[k].Apply? && steps[k].committed && steps[k].success
    && HeldSince(steps, steps[k].done, id, i, j, k)
    && var w := Before(steps, k); steps[k].done in w.inflight && w.inflight[steps[k].done].id == id
  }

  ghost predicate ApprovalsHaveACause(steps: seq<Step>, t: Tables) {
    forall id :: id in t.proposals && Executing(t.proposals[id].status) ==> exists i :: ApprovedAt(steps, id, i)
  }

  ghost predicate LoadsHaveACause(steps: seq<Step>, inflight: map<nat, Proposal>) {
    forall exec :: exec in inflight ==> exists i, j :: HeldSince(steps, exec, inflight[exec].id, i, j, |steps|)
  }

  ghost predicate AppliesHaveACause(steps: seq<Step>, t: Tables) {
    forall id :: id in t.proposals && t.proposals[id].status == Applied ==>
        exists i, j, k :: AppliedAt(steps, id, i, j, k)
  }

  ghost predicate History(steps: seq<Step>, w: World) {
    && w == Run(START, steps) && KeysAreIds(w.t)
    && ApprovalsHaveACause(steps, w.t) && LoadsHaveACause(steps, w.inflight) && AppliesHaveACause(steps, w.t)
  }

  /** The world before an earlier step stays the same when the run goes on. */
  lemma BeforeGrows(steps: seq<Step>, s: Step, i: nat)
    requires i <= |steps|
    ensures Before(steps + [s], i) == Before(steps, i)
  {
    assert (steps + [s])[..i] == steps[..i];
  }

  lemma ApprovedGrows(steps: seq<Step>, s: Step, id: Id, i: nat)
    requires ApprovedAt(steps, id, i)
    ensures ApprovedAt(steps + [s], id, i)
  {
    BeforeGrows(steps, s, i);
  }

  lemma LoadedGrows(steps: seq<Step>, s: Step, exec: nat, id: Id, i: nat, j: nat)
    requires LoadedAt(steps, exec, id, i, j)
    ensures LoadedAt(steps + [s], exec, id, i, j)
  {
    ApprovedGrows(steps, s, id, i);
    BeforeGrows(steps, s, j);
  }

  lemma HeldGrows(steps: seq<Step>, s: Step, exec: nat, id: Id, i: nat, j: nat, k: nat)
    requires HeldSince(steps, exec, id, i, j, k)
    ensures HeldSince(steps + [s], exec, id, i, j, k)
  {
    LoadedGrows(steps, s, exec, id, i, j);
  }

  lemma AppliedGrows(steps: seq<Step>, s: Step, id: Id, i: nat, j: nat, k: nat)
    requires AppliedAt(steps, id, i, j, k)
    ensures AppliedAt(steps + [s], id, i, j, k)
  {
    HeldGrows(steps, s, steps[k].done, id, i, j, k);
    BeforeGrows(steps, s, k);
  }

  /** The step about to be taken sees the world the run has reached. */
  lemma LastStepSees(steps: seq<Step>, s: Step)
    ensures Before(steps + [s], |steps|) == Run(START, steps)
  {
    assert (steps + [s])[..|steps|] == steps;
  }

  lemma OldApproval(steps: seq<Step>, s: Step, id: Id)
    requires exists i :: ApprovedAt(steps, id, i)
    ensures exists i :: ApprovedAt(steps + [s], id, i)
  {
    var i :| ApprovedAt(steps, id, i);
    ApprovedGrows(steps, s, id, i);
  }

  lemma HeldWasApproved(steps: seq<Step>, inflight: map<nat, Proposal>, exec: nat)
    requires LoadsHaveACause(steps, inflight) && exec in inflight
    ensures exists i :: ApprovedAt(steps, inflight[exec].id, i)
  {
    var i, j :| HeldSince(steps, exec, inflight[exec].id, i, j, |steps|);
    assert ApprovedAt(steps, inflight[exec].id, i);
  }

  lemma NewLoad(steps: seq<Step>, w: World, s: Step, id: Id)
    requires w == Run(START, steps) && ApprovalsHaveACause(steps, w.t)
    requires s.Load? && s.id == id && s.exec !in w.inflight && Executable(w.t, id, s.whitelist)
    ensures exists i, j :: HeldSince(steps + [s], s.exec, id, i, j, |steps + [s]|)
  {
    var i :| ApprovedAt(steps, id, i);
    ApprovedGrows(steps, s, id, i);
    LastStepSees(steps, s);
    assert HeldSince(steps + [s], s.exec, id, i, |steps|, |steps + [s]|);
  }

  lemma HeldOneMore(steps: seq<Step>, s: Step, exec: nat, id: Id, i: nat, j: nat)
    requires HeldSince(steps, exec, id, i, j, |steps|) && !(s.Apply? && s.done == exec)
    ensures HeldSince(steps + [s], exec, id, i, j, |steps + [s]|)
  {
    LoadedGrows(steps, s, exec, id, i, j);
    forall m | j < m < |steps + [s]| ensures !((steps + [s])[m].Apply? && (steps + [s])[m].done == exec) {
      assert m < |steps| ==> (steps + [s])[m] == steps[m];
    }
  }

  lemma OldLoad(steps: seq<Step>, inflight: map<nat, Proposal>, s: Step, exec: nat)
    requires LoadsHaveACause(steps, inflight) && exec in inflight && !(s.Apply? && s.done == exec)
    ensures exists i, j :: HeldSince(steps + [s], exec, inflight[exec].id, i, j, |steps + [s]|)
  {
    var id := inflight[exec].id;
    var i, j :| HeldSince(steps, exec, id, i, j, |steps|);
    HeldOneMore(steps, s, exec, id, i, j);
  }

  lemma NewApply(steps: seq<Step>, w: World, s: Step, id: Id)
    requires w == Run(START, steps) && LoadsHaveACause(steps, w.inflight)
    requires s.Apply? && s.committed && s.success && s.done in w.inflight && w.inflight[s.done].id == id
    ensures exists i, j, k :: AppliedAt(steps + [s], id, i, j, k)
  {
    var i, j :| HeldSince(steps, s.done, id, i, j, |steps|);
    HeldGrows(steps, s, s.done, id, i, j, |steps|);
    LastStepSees(steps, s);
    assert AppliedAt(steps + [s], id, i, j, |steps|);
  }

  lemma OldApply(steps: seq<Step>, t: Tables, s: Step, id: Id)
    requires AppliesHaveACause(steps, t) && id in t.proposals && t.proposals[id].status == Applied
    ensures exists i, j, k :: AppliedAt(steps + [s], id, i, j, k)
  {
    var i, j, k :| AppliedAt(steps, id, i, j, k);
    AppliedGrows(steps, s, id, i, j, k);
  }

  lemma NewApproval(steps: seq<Step>, w: World, s: Step, id: Id)
    requires w == Run(START, steps) && s.Decide? && s.commits && s.r.proposal == id && s.r.verdict == Approve
    requires id in w.t.proposals && w.t.proposals[id].status == Proposed
    ensures exists i :: ApprovedAt(steps + [s], id, i)
  {
    LastStepSees(steps, s);
    assert ApprovedAt(steps + [s], id, |steps|);
  }

  /** What a step may have to do with a proposal that counts as approved after it. */
  ghost predicate ApprovedBy(w: World, s: Step, id: Id) {
    && s.Decide? && s.commits && s.r.proposal == id && s.r.verdict == Approve
    && id in w.t.proposals && w.t.proposals[id].status == Proposed
  }

  ghost predicate AppliedBy(w: World, s: Step, id: Id) {
    s.Apply? && s.committed && s.success && s.done in w.inflight && w.inflight[s.done].id == id
  }

  ghost predicate LoadedBy(w: World, s: Step, exec: nat) {
    s.Load? && s.exec == exec && exec !in w.inflight && Executable(w.t, s.id, s.whitelist)
  }

  lemma WhoApproved(w: World, s: Step, id: Id)
    requires KeysAreIds(w.t) && id in Next(w, s).t.proposals && Executing(Next(w, s).t.proposals[id].status)
    ensures || (id in w.t.proposals && Executing(w.t.proposals[id].status))
            || ApprovedBy(w, s, id)
            || (s.Apply? && s.done in w.inflight && w.inflight[s.done].id == id)
  {
  }

  lemma WhoLoaded(w: World, s: Step, exec: nat)
    requires KeysAreIds(w.t) && exec in Next(w, s).inflight
    ensures || (exec in w.inflight && Next(w, s).inflight[exec] == w.inflight[exec] && !(s.Apply? && s.done == exec))
            || (LoadedBy(w, s, exec) && Next(w, s).inflight[exec].id == s.id)
  {
  }

  lemma WhoApplied(w: World, s: Step, id: Id)
    requires id in Next(w, s).t.proposals && Next(w, s).t.proposals[id].status == Applied
    ensures (id in w.t.proposals && w.t.proposals[id].status == Applied) || AppliedBy(w, s, id)
  {
  }

  lemma ApprovalsStep(steps: seq<Step>, w: World, s: Step, id: Id)
    requires w == Run(START, steps) && ApprovalsHaveACause(steps, w.t) && LoadsHaveACause(steps, w.inflight)
    requires || (id in w.t.proposals && Executing(w.t.proposals[id].status))
             || ApprovedBy(w, s, id)
             || (s.Apply? && s.done in w.inflight && w.inflight[s.done].id == id)
    ensures exists i :: ApprovedAt(steps + [s], id, i)
  {
    if ApprovedBy(w, s, id) {
      NewApproval(steps, w, s, id);
    } else {
      if !(id in w.t.proposals && Executing(w.t.proposals[id].status)) {
        HeldWasApproved(steps, w.inflight, s.done);
      }
      OldApproval(steps, s, id);
    }
  }

  lemma ApprovalsContinue(steps: seq<Step>, w: World, s: Step)
    requires History(steps, w)
    ensures ApprovalsHaveACause(steps + [s], Next(w, s).t)
  {
    var t' := Next(w, s).t;
    forall id | id in t'.proposals && Executing(t'.proposals[id].status)
      ensures exists i :: ApprovedAt(steps + [s], id, i)
    {
      WhoApproved(w, s, id);
      ApprovalsStep(steps, w, s, id);
    }
  }

  lemma LoadsContinue(steps: seq<Step>, w: World, s: Step)
    requires History(steps, w)
    ensures LoadsHaveACause(steps + [s], Next(w, s).inflight)
  {
    var inflight := Next(w, s).inflight;
    forall exec | exec in inflight
      ensures exists i, j :: HeldSince(steps + [s], exec, inflight[exec].id, i, j, |steps + [s]|)
    {
      WhoLoaded(w, s, exec);
      if LoadedBy(w, s, exec) {
        NewLoad(steps, w, s, s.id);
      } else {
        OldLoad(steps, w.inflight, s, exec);
      }
    }
  }

  lemma AppliesContinue(steps: seq<Step>, w: World, s: Step)
    requires History(steps, w)
    ensures AppliesHaveACause(steps + [s], Next(w, s).t)
  {
    var t' := Next(w, s).t;
    forall id | id in t'.proposals && t'.proposals[id].status == Applied
      ensures exists i, j, k :: AppliedAt(steps + [s], id, i, j, k)
    {
      WhoApplied(w, s, id);
      if AppliedBy(w, s, id) {
        NewApply(steps, w, s, id);
      } else {
        OldApply(steps, w.t, s, id);
      }
    }
  }

  lemma HistoryStep(steps: seq<Step>, w: World, s: Step)
    requires History(steps, w)
    ensures History(steps + [s], Next(w, s))
  {
    RunSnoc(START, steps, s);
    ApprovalsContinue(steps, w, s);
    LoadsContinue(steps, w, s);
    AppliesContinue(steps, w, s);
    KeysStep(w, s);
  }

  lemma KeysStep(w: World, s: Step)
    requires KeysAreIds(w.t)
    ensures KeysAreIds(Next(w, s).t)
  {
  }

  ghost predicate KeysAreIds(t: Tables) {
    forall id :: id in t.proposals ==> t.proposals[id].id == id
  }

  lemma {:induction false} RunHasHistory(steps: seq<Step>)
    ensures History(steps, Run(START, steps))
  {
    if steps != [] {
      var n := |steps| - 1;
      RunHasHistory(steps[..n]);
      RunSnoc(START, steps[..n], steps[n]);
      assert steps == steps[..n] + [steps[n]];
      HistoryStep(steps[..n], Run(START, steps[..n]), steps[n]);
    }
  }

  /**
    Every applied proposal was turned from proposed to approved at some step i, handed to an execution
    at some later step j, and applied at a still later step k by that execution, which ran throughout.
   */
  lemma AppliedHasACause(steps: seq<Step>, id: Id)
    requires id in Run(START, steps).t.proposals && Run(START, steps).t.proposals[id].status == Applied
    ensures exists i, j, k :: AppliedAt(steps, id, i, j, k)
  {
    RunHasHistory(steps);
  }

  // ---------------------------------------------------------------- the outbox ledger

  /** An outbox event for a proposal exists exactly when it is applied, and there is at most one. */
  ghost predicate LedgerOf(t: Tables, id: Id)
    requires id in t.proposals
  {
    |EventsOf(t.events, id)| == if t.proposals[id].status == Applied then 1 else 0
  }

  ghost predicate Ledger(t: Tables) {
    forall id :: id in t.proposals ==> LedgerOf(t, id)
  }

  /** What one committed execution adds to a proposal's events. */
  lemma ExecutedEvents(t: Tables, p: Proposal, actor: string, success: bool, eventId: string, id: Id)
    requires p.id in t.proposals
    ensures |EventsOf(Executed(t, p, actor, success, eventId).events, id)|
         == |EventsOf(t.events, id)| + (if success && FreshEventId(t.events, eventId) && id == p.id then 1 else 0)
  {
    AppendEvent(t.events, Event(eventId, Execution(p.id), p.actionType, ActionChannel(p.actionType)), id);
  }

  /**
    The missing status guard.  A committing execution keeps the ledger exactly when the committed
    status it overwrites is not already `applied` (and, on success, the event id is new; a clash of
    ids on an applied proposal happens to drop the second event).
   */
  lemma LedgerKeptIff(w: World, s: Step)
    requires Inv(w) && Ledger(w.t)
    requires s.Apply? && s.committed && s.done in w.inflight
    ensures Ledger(Next(w, s).t) <==>
              var applied := w.t.proposals[w.inflight[s.done].id].status == Applied;
              if s.success then FreshEventId(w.t.events, s.eventId) == !applied else !applied
  {
    var p := w.inflight[s.done];
    assert HeldMatches(w.t, p);
    LedgerOfOthers(w.t, p, s.actor, s.success, s.eventId);
    ExecutedEvents(w.t, p, s.actor, s.success, s.eventId, p.id);
    assert LedgerOf(w.t, p.id);
  }

  /** Whether an execution keeps the ledger is decided by the proposal executed. */
  lemma LedgerOfOthers(t: Tables, p: Proposal, actor: string, success: bool, eventId: string)
    requires Ledger(t) && p.id in t.proposals
    ensures var t' := Executed(t, p, actor, success, eventId); Ledger(t') <==> LedgerOf(t', p.id)
  {
    var t' := Executed(t, p, actor, success, eventId);
    forall id | id in t'.proposals && id != p.id ensures LedgerOf(t', id) {
      ExecutedEvents(t, p, actor, success, eventId, id);
      assert LedgerOf(t, id);
    }
  }

  /** An execution about to commit over a proposal that is applied already. */
  ghost predicate Overwrites(w: World, s: Step) {
    && s.Apply? && s.committed && s.done in w.inflight
    && w.inflight[s.done].id in w.t.proposals && w.t.proposals[w.inflight[s.done].id].status == Applied
  }

  /** One step keeps the ledger exactly when it does not overwrite `applied`. */
  lemma LedgerStepIff(w: World, s: Step)
    requires Inv(w) && Ledger(w.t) && (s.Apply? ==> FreshEventId(w.t.events, s.eventId))
    ensures Ledger(Next(w, s).t) <==> !Overwrites(w, s)
  {
    match s
    case Propose(p) => ProposeKeepsLedger(w, p);
    case Announce(_) => SameLedger(w.t, Next(w, s).t);
    case Publish(e) => PublishKeepsLedger(w, e);
    case Decide(r, _, _) =>
      if Next(w, s) != w {
        assert LedgerOf(w.t, r.proposal);
        LedgerElsewhere(w.t, Next(w, s).t, r.proposal);
      }
    case Load(_, _, _) =>
    case Apply(exec, _, _, _, committed) =>
      if exec in w.inflight && committed {
        assert HeldMatches(w.t, w.inflight[exec]);
        LedgerKeptIff(w, s);
      }
  }

  lemma PublishKeepsLedger(w: World, e: Event)
    requires Ledger(w.t)
    ensures Ledger(Next(w, Publish(e)).t)
  {
    forall id ensures EventsOf(Next(w, Publish(e)).t.events, id) == EventsOf(w.t.events, id) {
      AppendEvent(w.t.events, e, id);
    }
    SameLedger(w.t, Next(w, Publish(e)).t);
  }

  lemma SameLedger(t: Tables, t': Tables)
    requires Ledger(t) && t'.proposals == t.proposals
    requires forall id :: EventsOf(t'.events, id) == EventsOf(t.events, id)
    ensures Ledger(t')
  {
    forall id | id in t'.proposals ensures LedgerOf(t', id) {
      assert LedgerOf(t, id);
    }
  }

  /** The ledger holds before the first step and after each. */
  ghost predicate LedgerThroughout(w: World, steps: seq<Step>)
    decreases steps
  {
    Ledger(w.t) && (steps != [] ==> LedgerThroughout(Next(w, steps[0]), steps[1..]))
  }

  /** No execution of the run commits over a proposal that is applied already. */
  ghost predicate NeverOverwrites(w: World, steps: seq<Step>)
    decreases steps
  {
    steps != [] ==> !Overwrites(w, steps[0]) && NeverOverwrites(Next(w, steps[0]), steps[1..])
  }

  /**
    With fresh event ids, in every interleaving: the ledger holds all through a run exactly when no
    execution of the run commits over a proposal that is applied already.
   */
  lemma {:induction false} LedgerThroughoutIff(w: World, steps: seq<Step>)
    requires Inv(w) && Registered(steps) && Ledger(w.t) && FreshIds(w, steps)
    ensures LedgerThroughout(w, steps) <==> NeverOverwrites(w, steps)
    decreases steps
  {
    if steps != [] {
      LedgerStepIff(w, steps[0]);
      NextKeepsInv(w, steps[0]);
      if Ledger(Next(w, steps[0]).t) {
        LedgerThroughoutIff(Next(w, steps[0]), steps[1..]);
      }
    }
  }

  /** Executions of one proposal do not overlap, and generated event ids are new. */
  ghost predicate StepOrderly(w: World, s: Step) {
    && StepRegistered(s)
    && (s.Load? ==> forall exec :: exec in w.inflight ==> w.inflight[exec].id != s.id)
    && (s.Apply? ==> FreshEventId(w.t.events, s.eventId))
  }

  ghost predicate Orderly(w: World, steps: seq<Step>)
    decreases steps
  {
    steps == [] || (StepOrderly(w, steps[0]) && Orderly(Next(w, steps[0]), steps[1..]))
  }

  /** Without overlap, what is in flight is still only approved, and one execution holds it. */
  ghost predicate Sequential(w: World) {
    && (forall exec :: exec in w.inflight ==>
          w.inflight[exec].id in w.t.proposals && w.t.proposals[w.inflight[exec].id].status == Approved)
    && (forall e1, e2 :: e1 in w.inflight && e2 in w.inflight && w.inflight[e1].id == w.inflight[e2].id ==> e1 == e2)
  }

  /** Changing one proposal without touching the events leaves the ledger of every other proposal as it was. */
  lemma LedgerElsewhere(t: Tables, t': Tables, id: Id)
    requires Ledger(t) && t'.events == t.events && id in t'.proposals && LedgerOf(t', id)
    requires forall other :: other in t'.proposals && other != id ==>
               other in t.proposals && t'.proposals[other].status == t.proposals[other].status
    ensures Ledger(t')
  {
    forall other | other in t'.proposals ensures LedgerOf(t', other) {
      if other != id {
        assert LedgerOf(t, other);
      }
    }
  }

  lemma ProposeKeepsLedger(w: World, p: Proposal)
    requires Inv(w) && Ledger(w.t)
    ensures Ledger(Next(w, Propose(p)).t)
  {
    if p.id !in w.t.proposals {
      forall e | e in w.t.events ensures e.origin != Execution(p.id) {
        assert EventMatches(w.t, e);
      }
      NoEventsOfUnknown(w.t.events, p.id);
      LedgerElsewhere(w.t, Next(w, Propose(p)).t, p.id);
    }
  }

  lemma HeldStaysApproved(w: World, s: Step, exec: nat)
    requires Sequential(w) && StepOrderly(w, s) && exec in Next(w, s).inflight
    ensures var id := Next(w, s).inflight[exec].id;
      exec in w.inflight ==> id in Next(w, s).t.proposals && Next(w, s).t.proposals[id].status == Approved
  {
    if s.Apply? && s.done in w.inflight && exec in w.inflight {
      assert w.inflight[s.done].id != w.inflight[exec].id;
    }
  }

  lemma SequentialStep(w: World, s: Step)
    requires Sequential(w) && StepOrderly(w, s) && KeysAreIds(w.t)
    ensures Sequential(Next(w, s))
  {
    var w' := Next(w, s);
    forall exec | exec in w'.inflight
      ensures w'.inflight[exec].id in w'.t.proposals && w'.t.proposals[w'.inflight[exec].id].status == Approved
    {
      HeldStaysApproved(w, s, exec);
      assert exec !in w.inflight ==> s.Load? && w'.inflight[exec].id == s.id;
    }
    forall e1, e2 | e1 in w'.inflight && e2 in w'.inflight && w'.inflight[e1].id == w'.inflight[e2].id
      ensures e1 == e2
    {
      assert e1 !in w.inflight ==> s.Load? && e1 == s.exec && w'.inflight[e1].id == s.id;
      assert e2 !in w.inflight ==> s.Load? && e2 == s.exec && w'.inflight[e2].id == s.id;
    }
  }

  lemma OrderlyStep(w: World, s: Step)
    requires Inv(w) && Sequential(w) && Ledger(w.t) && StepOrderly(w, s)
    ensures Sequential(Next(w, s)) && Ledger(Next(w, s).t)
  {
    assert KeysAreIds(w.t) by {
      assert forall id :: id in w.t.proposals ==> ReviewsMatchOne(w.t, id);
    }
    SequentialStep(w, s);
    if s.Apply? && s.done in w.inflight {
      assert w.t.proposals[w.inflight[s.done].id].status == Approved;
    }
    LedgerStepIff(w, s);
  }

  /** Every orderly run keeps the ledger: at-most-once publication, and no applied proposal without its event. */
  lemma {:induction false} OrderlyRunKeepsLedger(w: World, steps: seq<Step>)
    requires Inv(w) && Sequential(w) && Ledger(w.t) && Orderly(w, steps)
    ensures Ledger(Run(w, steps).t)
    decreases steps
  {
    if steps != [] {
      OrderlyStep(w, steps[0]);
      NextKeepsInv(w, steps[0]);
      OrderlyRunKeepsLedger(Next(w, steps[0]), steps[1..]);
    }
  }

  lemma OrderlyFromStart(steps: seq<Step>)
    requires Orderly(START, steps)
    ensures var t := Run(START, steps).t;
      forall id :: id in t.proposals ==>
        |EventsOf(t.events, id)| == if t.proposals[id].status == Applied then 1 else 0
  {
    OrderlyRunKeepsLedger(START, steps);
    var t := Run(START, steps).t;
    forall id | id in t.proposals
      ensures |EventsOf(t.events, id)| == if t.proposals[id].status == Applied then 1 else 0
    {
      assert LedgerOf(t, id);
    }
  }

  // ---------------------------------------------------------------- overlapping executions

  /** Two executions that both hold a proposal each publish an event for it, one after the other. */
  lemma OverlapPublishesTwice(w: World, a: Step, b: Step)
    requires InflightMatch(w) && a.Apply? && b.Apply? && a.committed && b.committed && a.success && b.success
    requires a.done in w.inflight && b.done in w.inflight && a.done != b.done
    requires w.inflight[a.done].id == w.inflight[b.done].id
    requires FreshEventId(w.t.events, a.eventId) && FreshEventId(w.t.events, b.eventId) && a.eventId != b.eventId
    ensures var id := w.inflight[a.done].id;
      |EventsOf(Next(Next(w, a), b).t.events, id)| == |EventsOf(w.t.events, id)| + 2
  {
    var p, q := w.inflight[a.done], w.inflight[b.done];
    assert HeldMatches(w.t, p) && HeldMatches(w.t, q);
    ExecutedEvents(w.t, p, a.actor, true, a.eventId, p.id);
    ExecutedEvents(Next(w, a).t, q, b.actor, true, b.eventId, p.id);
  }

  const RACE: seq<Step> := [
    Propose(Proposal("p", "c", "notify_owner", Proposed, None)),
    Decide(Review("r", "p", "alice", Approve), false, true),
    Load(1, "p", {"notify_owner"}),
    Load(2, "p", {"notify_owner"})]

  /** Such a world is reachable: both executions loaded the proposal while it was only approved. */
  lemma OverlapIsReachable()
    ensures Registered(RACE)
    ensures var w := Run(START, RACE); 1 in w.inflight && 2 in w.inflight && w.inflight[1] == w.inflight[2]
  {
    assert Registry.CANONICAL[1] == "notify_owner";
    var w1 := Next(START, RACE[0]);
    var w2 := Next(w1, RACE[1]);
    var w3 := Next(w2, RACE[2]);
    var w4 := Next(w3, RACE[3]);
    assert w2.t.proposals["p"].status == Approved;
    RunSnoc(START, [], RACE[0]);
    RunSnoc(START, RACE[..1], RACE[1]);
    RunSnoc(START, RACE[..2], RACE[2]);
    RunSnoc(START, RACE[..3], RACE[3]);
    assert RACE[..1] == [] + [RACE[0]] && RACE[..2] == RACE[..1] + [RACE[1]];
    assert RACE[..3] == RACE[..2] + [RACE[2]] && RACE == RACE[..3] + [RACE[3]];
  }

  // ---------------------------------------------------------------- conservation under any interleaving

  ghost predicate FreshIds(w: World, steps: seq<Step>)
    decreases steps
  {
    steps == []
    || ((steps[0].Apply? ==> FreshEventId(w.t.events, steps[0].eventId)) && FreshIds(Next(w, steps[0]), steps[1..]))
  }

  /** Successful executions in the audit log and outbox events balance, proposal by proposal. */
  ghost predicate Balanced(t: Tables) {
    forall id {:trigger EventsOf(t.events, id)} {:trigger ExecutionsOf(t.audit, id)} ::
      ExecutionsOf(t.audit, id) == |EventsOf(t.events, id)|
  }

  lemma BalancedStep(w: World, s: Step)
    requires Balanced(w.t) && (s.Apply? ==> FreshEventId(w.t.events, s.eventId))
    ensures Balanced(Next(w, s).t)
  {
    var t' := Next(w, s).t;
    if t' != w.t {
      forall id ensures ExecutionsOf(t'.audit, id) == |EventsOf(t'.events, id)| {
        if s.Decide? {
          AppendAudit(w.t.audit, AuditEntry("review", ReviewAction(s.r.verdict), s.r.reviewer, s.r.proposal), id);
        } else if s.Publish? {
          AppendEvent(w.t.events, s.event, id);
        } else if s.Apply? {
          var p := w.inflight[s.done];
          ExecutedEvents(w.t, p, s.actor, s.success, s.eventId, id);
          AppendAudit(w.t.audit, AuditEntry("action_apply", "execute", s.actor, p.id), id);
          AppendAudit(w.t.audit, AuditEntry("action_apply", "execute_failed", s.actor, p.id), id);
        }
      }
    }
  }

  /** With fresh event ids the books balance in every interleaving, overlapping executions included. */
  lemma {:induction false} RunKeepsBalance(w: World, steps: seq<Step>)
    requires Balanced(w.t) && FreshIds(w, steps)
    ensures Balanced(Run(w, steps).t)
    decreases steps
  {
    if steps != [] {
      BalancedStep(w, steps[0]);
      RunKeepsBalance(Next(w, steps[0]), steps[1..]);
    }
  }

  /** So the books balance in every run from empty tables whose event ids are fresh. */
  lemma BalancedFromStart(steps: seq<Step>, id: Id)
    requires FreshIds(START, steps)
    ensures var t := Run(START, steps).t; ExecutionsOf(t.audit, id) == |EventsOf(t.events, id)|
  {
    RunKeepsBalance(START, steps);
  }
}
