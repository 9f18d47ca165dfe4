/**
  The outbox dispatcher (internal/api/handler_factories.go over internal/outbox/repository.go):
  single dispatch, batch dispatch and cancellation of outbox events.
 */
module Outbox {
  import opened Wrappers

  datatype Status = Pending | Failed | Dispatched | Cancelled

  datatype Event = Event(status: Status, attempts: nat, createdAt: int, nextRetryAt: Option<int>, channel: string)

  type Table = map<string, Event>

  /** Whether an executor reports success for an event; a channel without one gets the no-op executor. */
  type Executors = map<string, string -> bool>

  predicate ExecutionSucceeds(executors: Executors, id: string, e: Event) {
    e.channel !in executors || executors[e.channel](id)
  }

  predicate Attemptable(t: Table, id: string) {
    id in t && (t[id].status == Pending || t[id].status == Failed)
  }

  /** MarkDispatched or MarkFailed. */
  function Marked(e: Event, success: bool): Event {
    e.(status := if success then Dispatched else Failed, attempts := e.attempts + 1)
  }

  /** Only a pending or failed event is attempted, an unknown channel always succeeds, and a mark counts one attempt. */
  lemma AttemptIs(executors: Executors, t: Table, id: string, e: Event, success: bool)
    ensures Attemptable(t, id) <==> id in t && t[id].status in {Pending, Failed}
    ensures e.channel !in executors ==> ExecutionSucceeds(executors, id, e)
    ensures e.channel in executors ==> (ExecutionSucceeds(executors, id, e) <==> executors[e.channel](id))
    ensures Marked(e, true) == e.(status := Dispatched, attempts := e.attempts + 1)
    ensures Marked(e, false) == e.(status := Failed, attempts := e.attempts + 1)
  {
  }

  // ---------------------------------------------------------------- every interleaving

  /**
    A dispatch reads the event and runs the executor before it opens the transaction that marks the
    outcome, and the mark looks at no status; so it is two steps with anything in between.
   */
  datatype Step =
    | Create(id: string, event: Event)
    | Begin(exec: nat, target: string, executors: Executors)
    | Mark(done: nat, fails: bool)
    | Cancel(victim: string, cancelFails: bool)

  /** An outcome some dispatch has yet to mark. */
  datatype Held = Held(id: string, success: bool)

  /** The table, the dispatches in flight, every attempt made, and the attempts whose mark failed. */
  datatype World = World(t: Table, inflight: map<nat, Held>, attempted: seq<string>, lost: seq<string>)

  function Next(w: World, s: Step): World {
    match s
    case Create(id, e) =>
      if id in w.t then w else w.(t := w.t[id := e.(status := Pending, attempts := 0)])
    case Begin(exec, id, executors) =>
      if exec in w.inflight || !Attemptable(w.t, id) then w
      else w.(inflight := w.inflight[exec := Held(id, ExecutionSucceeds(executors, id, w.t[id]))],
              attempted := w.attempted + [id])
    case Mark(exec, fails) =>
      if exec !in w.inflight then w
      else
        var h := w.inflight[exec];
        if fails || h.id !in w.t then w.(inflight := w.inflight - {exec}, lost := w.lost + [h.id])
        else w.(inflight := w.inflight - {exec}, t := w.t[h.id := Marked(w.t[h.id], h.success)])
    case Cancel(id, fails) =>
      if fails || id !in w.t then w else w.(t := w.t[id := w.t[id].(status := Cancelled)])
  }

  function Run(w: World, steps: seq<Step>): World
    decreases steps
  {
    if steps == [] then w else Run(Next(w, steps[0]), steps[1..])
  }

  function CountOf(ids: seq<string>, id: string): nat {
    if ids == [] then 0
    else CountOf(ids[..|ids| - 1], id) + (if ids[|ids| - 1] == id then 1 else 0)
  }

  lemma CountOneMore(ids: seq<string>, x: string, id: string)
    ensures CountOf(ids + [x], id) == CountOf(ids, id) + (if x == id then 1 else 0)
  {
    assert (ids + [x])[..|ids|] == ids;
  }

  /** The dispatches in flight for one event. */
  function Holding(inflight: map<nat, Held>, id: string): set<nat> {
    set exec | exec in inflight && inflight[exec].id == id
  }

  lemma HoldOneMore(inflight: map<nat, Held>, exec: nat, h: Held, id: string)
    requires exec !in inflight
    ensures |Holding(inflight[exec := h], id)| == |Holding(inflight, id)| + (if h.id == id then 1 else 0)
  {
    var more := Holding(inflight[exec := h], id);
    if h.id == id {
      assert more == Holding(inflight, id) + {exec};
    } else {
      assert more == Holding(inflight, id);
    }
  }

  lemma HoldOneLess(inflight: map<nat, Held>, exec: nat, id: string)
    requires exec in inflight
    ensures |Holding(inflight, id)| == |Holding(inflight - {exec}, id)| + (if inflight[exec].id == id then 1 else 0)
  {
    var rest := inflight - {exec};
    assert rest[exec := inflight[exec]] == inflight;
    HoldOneMore(rest, exec, inflight[exec], id);
  }

  function AttemptsShown(t: Table, id: string): nat {
    if id in t then t[id].attempts else 0
  }

  /** Attempts made on an event are shown, still in flight, or lost to a failed mark. */
  ghost predicate AccountedFor(w: World, id: string) {
    CountOf(w.attempted, id) == AttemptsShown(w.t, id) + |Holding(w.inflight, id)| + CountOf(w.lost, id)
  }

  lemma BeginAccounted(w: World, s: Step, id: string)
    requires AccountedFor(w, id) && s.Begin?
    ensures AccountedFor(Next(w, s), id)
  {
    if Next(w, s) != w {
      CountOneMore(w.attempted, s.target, id);
      HoldOneMore(w.inflight, s.exec, Held(s.target, ExecutionSucceeds(s.executors, s.target, w.t[s.target])), id);
    }
  }

  lemma MarkAccounted(w: World, exec: nat, fails: bool, id: string)
    requires AccountedFor(w, id) && exec in w.inflight
    ensures AccountedFor(Next(w, Mark(exec, fails)), id)
  {
    HoldOneLess(w.inflight, exec, id);
    CountOneMore(w.lost, w.inflight[exec].id, id);
  }

  lemma AccountingStep(w: World, s: Step, id: string)
    requires AccountedFor(w, id)
    ensures AccountedFor(Next(w, s), id)
  {
    match s
    case Create(_, _) =>
    case Begin(_, _, _) =>
      BeginAccounted(w, s, id);
    case Mark(exec, fails) =>
      if exec in w.inflight {
        MarkAccounted(w, exec, fails, id);
      }
    case Cancel(_, _) =>
  }

  /**
    In every interleaving, with any failures: each attempt is counted in `dispatch_attempts` exactly
    once, unless its dispatch is still in flight or its mark failed.
   */
  lemma {:induction false} AttemptsAreAccountedFor(w: World, steps: seq<Step>, id: string)
    requires AccountedFor(w, id)
    ensures AccountedFor(Run(w, steps), id)
    decreases steps
  {
    if steps != [] {
      AccountingStep(w, steps[0], id);
      AttemptsAreAccountedFor(Next(w, steps[0]), steps[1..], id);
    }
  }

  const START := World(map[], map[], [], [])

  /** From the empty outbox: attempts shown, in flight and lost add up to the attempts made. */
  lemma AttemptsFromStart(steps: seq<Step>, id: string)
    ensures AccountedFor(Run(START, steps), id)
  {
    assert Holding(START.inflight, id) == {};
    AttemptsAreAccountedFor(START, steps, id);
  }

  ghost predicate Settled(w: World, id: string) {
    && id in w.t && (w.t[id].status == Dispatched || w.t[id].status == Cancelled)
    && Holding(w.inflight, id) == {}
  }

  /** Marking another dispatch's outcome leaves a settled event alone. */
  lemma SettledMark(w: World, exec: nat, fails: bool, id: string)
    requires Settled(w, id) && exec in w.inflight
    ensures var w' := Next(w, Mark(exec, fails)); id in w'.t && w'.t[id] == w.t[id] && Holding(w'.inflight, id) == {}
  {
    assert w.inflight[exec].id == id ==> exec in Holding(w.inflight, id);
    assert Holding(w.inflight - {exec}, id) <= Holding(w.inflight, id);
  }

  /** Beginning another event's dispatch does too. */
  lemma SettledBegin(w: World, s: Step, id: string)
    requires Settled(w, id) && s.Begin?
    ensures var w' := Next(w, s);
      w'.t == w.t && Holding(w'.inflight, id) == {} && CountOf(w'.attempted, id) == CountOf(w.attempted, id)
  {
    var w' := Next(w, s);
    if w' != w {
      assert s.target != id;
      CountOneMore(w.attempted, s.target, id);
      assert Holding(w'.inflight, id) <= Holding(w.inflight, id);
    }
  }

  lemma SettledStep(w: World, s: Step, id: string)
    requires Settled(w, id)
    ensures Settled(Next(w, s), id)
    ensures CountOf(Next(w, s).attempted, id) == CountOf(w.attempted, id)
    ensures Next(w, s).t[id].status == w.t[id].status || Next(w, s).t[id].status == Cancelled
    ensures Next(w, s).t[id].attempts == w.t[id].attempts
  {
    match s
    case Create(_, _) =>
    case Begin(_, _, _) =>
      SettledBegin(w, s, id);
    case Mark(exec, fails) =>
      if exec in w.inflight {
        SettledMark(w, exec, fails, id);
      }
    case Cancel(_, _) =>
  }

  /**
    A dispatched or cancelled event that no dispatch holds is never attempted again, in any
    interleaving; cancelled is terminal, and dispatched only yields to it.
   */
  lemma {:induction false} SettledStaysSettled(w: World, steps: seq<Step>, id: string)
    requires Settled(w, id)
    ensures var w' := Run(w, steps);
      && Settled(w', id)
      && CountOf(w'.attempted, id) == CountOf(w.attempted, id) && w'.t[id].attempts == w.t[id].attempts
      && (w'.t[id].status == w.t[id].status || w'.t[id].status == Cancelled)
    decreases steps
  {
    if steps != [] {
      SettledStep(w, steps[0], id);
      SettledStaysSettled(Next(w, steps[0]), steps[1..], id);
    }
  }

  /** Whatever happens next, the event is there and cancelled. */
  ghost predicate CancelledForGood(w: World, id: string) {
    forall steps: seq<Step> :: var t := Run(w, steps).t; id in t && t[id].status == Cancelled
  }

  /** Cancellation is final exactly when no dispatch of the event is in flight; otherwise its mark revives it. */
  lemma CancellationIsFinalIff(w: World, id: string)
    requires id in w.t && w.t[id].status == Cancelled
    ensures CancelledForGood(w, id) <==> Holding(w.inflight, id) == {}
  {
    if Holding(w.inflight, id) == {} {
      forall steps: seq<Step> ensures var t := Run(w, steps).t; id in t && t[id].status == Cancelled {
        SettledStaysSettled(w, steps, id);
      }
    } else {
      var exec :| exec in Holding(w.inflight, id);
      var late := [Mark(exec, false)];
      assert Run(w, late) == Next(w, late[0]) by {
        assert late[1..] == [];
      }
      assert Run(w, late).t[id].status != Cancelled;
    }
  }

  /** Cancelled while its dispatch was in flight, and then marked. */
  const REVIVAL: seq<Step> := [
    Create("e", Event(Pending, 0, 0, None, "feishu")),
    Begin(1, "e", map[]),
    Cancel("e", false),
    Mark(1, false)]

  lemma RunTwo(w: World, a: Step, b: Step)
    ensures Run(w, [a, b]) == Next(Next(w, a), b)
  {
    assert [a, b][1..] == [b] && [b][1..] == [];
    assert Run(Next(w, a), [b]) == Run(Next(Next(w, a), b), []);
  }

  lemma RunThree(w: World, a: Step, b: Step, c: Step)
    ensures Run(w, [a, b, c]) == Next(Next(Next(w, a), b), c)
  {
    assert [a, b, c][1..] == [b, c];
    RunTwo(Next(w, a), b, c);
  }

  lemma RunFour(w: World, a: Step, b: Step, c: Step, d: Step)
    ensures Run(w, [a, b, c, d]) == Next(Next(Next(Next(w, a), b), c), d)
  {
    assert [a, b, c, d][1..] == [b, c, d];
    RunThree(Next(w, a), b, c, d);
  }

  /** A reachable cancellation that does not last: the late mark makes the event `dispatched`. */
  lemma CancelledThenDispatched()
    ensures var cancelled, revived := Run(START, REVIVAL[..3]), Run(START, REVIVAL);
      && "e" in cancelled.t && cancelled.t["e"].status == Cancelled
      && "e" in revived.t && revived.t["e"].status == Dispatched
  {
    var a, b, c, d := REVIVAL[0], REVIVAL[1], REVIVAL[2], REVIVAL[3];
    assert REVIVAL == [a, b, c, d] && REVIVAL[..3] == [a, b, c];
    RunFour(START, a, b, c, d);
    RunThree(START, a, b, c);
  }

  // ---------------------------------------------------------------- attempting again

  /** Some dispatch in flight holds a failed outcome for the event. */
  ghost predicate FailureHeld(w: World, id: string) {
    exists exec :: exec in w.inflight && w.inflight[exec] == Held(id, false)
  }

  /** Whatever happens next, no further attempt on the event is made. */
  ghost predicate NeverAttemptedAgain(w: World, id: string) {
    forall steps: seq<Step> :: CountOf(Run(w, steps).attempted, id) == CountOf(w.attempted, id)
  }

  /** Dispatched or cancelled, with nothing in flight that could make it `failed`. */
  ghost predicate Closed(w: World, id: string) {
    id in w.t && (w.t[id].status == Dispatched || w.t[id].status == Cancelled) && !FailureHeld(w, id)
  }

  lemma NoNewFailure(w: World, s: Step, id: string)
    requires Closed(w, id)
    ensures !FailureHeld(Next(w, s), id)
  {
    var w' := Next(w, s);
    forall exec | exec in w'.inflight ensures w'.inflight[exec] != Held(id, false) {
      assert exec in w.inflight ==> w.inflight[exec] == w'.inflight[exec] != Held(id, false);
    }
  }

  lemma ClosedStep(w: World, s: Step, id: string)
    requires Closed(w, id)
    ensures Closed(Next(w, s), id) && CountOf(Next(w, s).attempted, id) == CountOf(w.attempted, id)
  {
    NoNewFailure(w, s, id);
    StaysShut(w, s, id);
    NoNewAttempt(w, s, id);
  }

  lemma NoNewAttempt(w: World, s: Step, id: string)
    requires !Attemptable(w.t, id)
    ensures CountOf(Next(w, s).attempted, id) == CountOf(w.attempted, id)
  {
    if Next(w, s).attempted != w.attempted {
      CountOneMore(w.attempted, s.target, id);
    }
  }

  lemma StaysShut(w: World, s: Step, id: string)
    requires Closed(w, id)
    ensures var t := Next(w, s).t; id in t && (t[id].status == Dispatched || t[id].status == Cancelled)
  {
    if s.Mark? && s.done in w.inflight && w.inflight[s.done].id == id {
      assert w.inflight[s.done] != Held(id, false);
    }
  }

  lemma {:induction false} ClosedStaysClosed(w: World, steps: seq<Step>, id: string)
    requires Closed(w, id)
    ensures CountOf(Run(w, steps).attempted, id) == CountOf(w.attempted, id)
    decreases steps
  {
    if steps != [] {
      ClosedStep(w, steps[0], id);
      ClosedStaysClosed(Next(w, steps[0]), steps[1..], id);
    }
  }

  lemma FreshNumber(used: set<nat>) returns (n: nat)
    ensures n !in used
    decreases used
  {
    n := 0;
    if used != {} {
      var m := LargestOf(used);
      n := m + 1;
    }
  }

  lemma {:induction false} LargestOf(used: set<nat>) returns (m: nat)
    requires used != {}
    ensures m in used && forall x :: x in used ==> x <= m
    decreases used
  {
    var n :| n in used;
    m := n;
    if used != {n} {
      var other := LargestOf(used - {n});
      assert forall x :: x in used ==> x == n || x in used - {n};
      m := if other > n then other else n;
    }
  }

  /**
    A dispatched or cancelled event is never attempted again exactly when no dispatch in flight holds
    a failed outcome for it; such an outcome, marked late, makes the event `failed` and due once more.
   */
  lemma NeverAttemptedAgainIff(w: World, id: string)
    requires id in w.t && (w.t[id].status == Dispatched || w.t[id].status == Cancelled)
    ensures NeverAttemptedAgain(w, id) <==> !FailureHeld(w, id)
  {
    if FailureHeld(w, id) {
      var exec :| exec in w.inflight && w.inflight[exec] == Held(id, false);
      AttemptedOnceMore(w, exec, id);
    } else {
      forall steps: seq<Step> ensures CountOf(Run(w, steps).attempted, id) == CountOf(w.attempted, id) {
        ClosedStaysClosed(w, steps, id);
      }
    }
  }

  lemma AttemptedOnceMore(w: World, exec: nat, id: string)
    requires id in w.t && exec in w.inflight && w.inflight[exec] == Held(id, false)
    ensures exists steps: seq<Step> :: CountOf(Run(w, steps).attempted, id) == CountOf(w.attempted, id) + 1
  {
    var failed := Next(w, Mark(exec, false));
    var next := FreshNumber(failed.inflight.Keys);
    var steps := [Mark(exec, false), Begin(next, id, map[])];
    RunTwo(w, steps[0], steps[1]);
    CountOneMore(w.attempted, id, id);
  }

  const REFUSING: Executors := map["feishu" := (id: string) => false]

  /** Two dispatches of one event overlap; one succeeds and is marked first. */
  const OVERLAPPING: seq<Step> := [
    Create("e", Event(Pending, 0, 0, None, "feishu")),
    Begin(1, "e", map[]),
    Begin(2, "e", REFUSING),
    Mark(1, false)]

  /** Then the other outcome is marked, and the event is due again. */
  const AGAIN: seq<Step> := [Mark(2, false), Begin(3, "e", map[])]

  /** A reachable dispatched event that is attempted a third time. */
  lemma DispatchedThenAttempted()
    ensures var dispatched := Run(START, OVERLAPPING);
      && "e" in dispatched.t && dispatched.t["e"].status == Dispatched && FailureHeld(dispatched, "e")
      && CountOf(Run(dispatched, AGAIN).attempted, "e") == CountOf(dispatched.attempted, "e") + 1
  {
    var a, b, c, d := OVERLAPPING[0], OVERLAPPING[1], OVERLAPPING[2], OVERLAPPING[3];
    assert OVERLAPPING == [a, b, c, d];
    RunFour(START, a, b, c, d);
    var w1 := Next(START, a);
    var w2 := Next(w1, b);
    var w3 := Next(w2, c);
    assert w2.inflight[1] == Held("e", true);
    assert w3.inflight[2] == Held("e", false);
    OverlapMarked(w3);
  }

  lemma OverlapMarked(w: World)
    requires "e" in w.t && w.inflight == map[1 := Held("e", true), 2 := Held("e", false)]
    ensures var dispatched := Next(w, Mark(1, false));
      && "e" in dispatched.t && dispatched.t["e"].status == Dispatched && FailureHeld(dispatched, "e")
      && CountOf(Run(dispatched, AGAIN).attempted, "e") == CountOf(dispatched.attempted, "e") + 1
  {
    var dispatched := Next(w, Mark(1, false));
    assert 2 in dispatched.inflight && dispatched.inflight[2] == Held("e", false);
    var failed := Next(dispatched, AGAIN[0]);
    assert AGAIN == [AGAIN[0], AGAIN[1]];
    RunTwo(dispatched, AGAIN[0], AGAIN[1]);
    assert Attemptable(failed.t, "e") && 3 !in failed.inflight;
    CountOneMore(failed.attempted, "e", "e");
  }

  // ---------------------------------------------------------------- picking a batch

  /** Ready for dispatch now. */
  predicate Ready(t: Table, now: int, id: string) {
    Attemptable(t, id) && (t[id].nextRetryAt.None? || t[id].nextRetryAt.value <= now)
  }

  function CreatedAt(t: Table, id: string): int {
    if id in t then t[id].createdAt else 0
  }

  /** ORDER BY created_at ASC LIMIT n over the ready events; equal times come in any order. */
  ghost predicate Picked(t: Table, now: int, limit: nat, ids: seq<string>) {
    && (forall id :: id in ids ==> Ready(t, now, id))
    && (forall i, j :: 0 <= i < j < |ids| ==> ids[i] != ids[j] && CreatedAt(t, ids[i]) <= CreatedAt(t, ids[j]))
    && |ids| <= limit
    && (forall id :: Ready(t, now, id) && id !in ids ==>
          |ids| == limit && forall x :: x in ids ==> CreatedAt(t, x) <= CreatedAt(t, id))
  }

  lemma {:induction false} OldestExists(t: Table, ids: set<string>)
    requires ids != {} && ids <= t.Keys
    ensures exists id :: id in ids && forall x :: x in ids ==> CreatedAt(t, id) <= CreatedAt(t, x)
    decreases ids
  {
    var a :| a in ids;
    if ids != {a} {
      OldestExists(t, ids - {a});
      var b :| b in ids - {a} && forall x :: x in ids - {a} ==> CreatedAt(t, b) <= CreatedAt(t, x);
      var c := if CreatedAt(t, a) <= CreatedAt(t, b) then a else b;
      assert forall x :: x in ids ==> CreatedAt(t, c) <= CreatedAt(t, x);
    }
  }

  /** GetPendingEvents. */
  method GetPendingEvents(t: Table, now: int, limit: nat) returns (ids: seq<string>)
    ensures Picked(t, now, limit, ids)
    ensures forall id :: id in ids ==>
              id in t && t[id].status in {Pending, Failed}
                  && (t[id].nextRetryAt.Some? ==> t[id].nextRetryAt.value <= now)
    ensures forall id :: id in t && t[id].status in {Pending, Failed} && id !in ids
                         && (t[id].nextRetryAt.Some? ==> t[id].nextRetryAt.value <= now) ==>
              |ids| == limit && forall x :: x in ids && x in t ==> t[x].createdAt <= t[id].createdAt
    ensures forall i, j :: 0 <= i < j < |ids| ==>
              ids[i] != ids[j] && ids[i] in t && ids[j] in t && t[ids[i]].createdAt <= t[ids[j]].createdAt
  {
    ids := [];
    var left := set id | id in t && Ready(t, now, id);
    while left != {} && |ids| < limit
      invariant forall id :: Ready(t, now, id) <==> id in left || id in ids
      invariant forall id :: id in left ==> id !in ids
      invariant forall i, j :: 0 <= i < j < |ids| ==> ids[i] != ids[j] && CreatedAt(t, ids[i]) <= CreatedAt(t, ids[j])
      invariant forall x, id :: x in ids && id in left ==> CreatedAt(t, x) <= CreatedAt(t, id)
      invariant |ids| <= limit
      decreases left
    {
      OldestExists(t, left);
      var id :| id in left && forall x :: x in left ==> CreatedAt(t, id) <= CreatedAt(t, x);
      ids := ids + [id];
      left := left - {id};
    }
  }

  // ---------------------------------------------------------------- the service

  datatype DispatchError = EventNotFound | InvalidState(status: Status) | MarkFailed | DispatchFailure

  datatype BatchResponse = BatchResponse(dispatched: nat, failed: nat, eventIds: seq<string>)

  class OutboxService {
    var events: Table
    ghost var attempted: seq<string>

    constructor ()
      ensures events == map[] && attempted == []
    {
      events, attempted := map[], [];
    }

    /** DispatchEvent: one attempt on a pending or failed event, and its outcome recorded unless that fails. */
    method DispatchEvent(id: string, executors: Executors, markFails: bool) returns (error: Option<DispatchError>)
      modifies this
      ensures var w := World(old(events), map[], old(attempted), []);
        var w' := Next(Next(w, Begin(0, id, executors)), Mark(0, markFails));
        events == w'.t && attempted == w'.attempted
      ensures attempted == old(attempted) + if Attemptable(old(events), id) then [id] else []
      ensures events == if !Attemptable(old(events), id) || markFails then old(events)
                        else old(events)[id := Marked(old(events)[id],
                                                      ExecutionSucceeds(executors, id, old(events)[id]))]
      ensures error.None? <==>
                Attemptable(old(events), id) && !markFails && ExecutionSucceeds(executors, id, old(events)[id])
      ensures forall other :: other in old(events) && other != id ==>
              other in events && events[other] == old(events)[other]
      ensures id in old(events) && old(events)[id].status in {Pending, Failed} && !markFails ==>
                var e := old(events)[id];
                && id in events && events[id].attempts == e.attempts + 1
                && events[id].status
                   == if e.channel in executors && !executors[e.channel](id) then Failed else Dispatched
      ensures error == Some(EventNotFound) <==> id !in old(events)
      ensures error.Some? && error.value.InvalidState? <==> id in old(events) && !Attemptable(old(events), id)
    {
      if id !in events {
        return Some(EventNotFound);
      }
      var event := events[id];
      if event.status != Pending && event.status != Failed {
        return Some(InvalidState(event.status));
      }
      var success := if event.channel in executors then executors[event.channel](id) else true;
      attempted := attempted + [id];
      if markFails {
        return Some(MarkFailed);
      }
      events := events[id := event.(status := if success then Dispatched else Failed, attempts := event.attempts + 1)];
      return if success then None else Some(DispatchFailure);
    }

    /** CancelEvent: no status guard, so a dispatched event can be cancelled too. */
    method CancelEvent(id: string, fails: bool) returns (ok: bool)
      modifies this`events
      ensures events == Next(World(old(events), map[], attempted, []), Cancel(id, fails)).t
      ensures ok <==> !fails && id in old(events)
      ensures events == if ok then old(events)[id := old(events)[id].(status := Cancelled)] else old(events)
    {
      ok := !fails && id in events;
      if ok {
        events := events[id := events[id].(status := Cancelled)];
      }
    }

    /** The picked events of one channel, or all of them for an empty channel; the limit was applied before. */
    method FilterChannel(picked: seq<string>, channel: string) returns (ids: seq<string>)
      requires forall id :: id in picked ==> id in events
      ensures channel == "" ==> ids == picked
      ensures forall id :: id in ids <==> id in picked && (channel == "" || events[id].channel == channel)
      ensures InOrder(picked, ids)
    {
      if channel == "" {
        InOrderSame(picked);
        return picked;
      }
      ids := [];
      for i := 0 to |picked|
        invariant forall id :: id in ids <==> id in picked[..i] && events[id].channel == channel
        invariant InOrder(picked[..i], ids)
      {
        assert picked[..i + 1] == picked[..i] + [picked[i]] && picked[..i + 1][..i] == picked[..i];
        if events[picked[i]].channel == channel {
          ids := ids + [picked[i]];
          assert ids[..|ids| - 1] + [picked[i]] == ids;
        }
      }
      assert picked[..|picked|] == picked;
    }

    /** Every event of the batch is attempted once, in order; the ids returned are exactly those dispatched. */
    method DispatchAll(executors: Executors, batch: seq<string>, markFails: string -> bool) returns (r: BatchResponse)
      requires forall i, j :: 0 <= i < j < |batch| ==> batch[i] != batch[j]
      requires forall id :: id in batch ==> Attemptable(events, id)
      modifies this
      ensures r.dispatched + r.failed == |batch| && r.dispatched == |r.eventIds|
      ensures attempted == old(attempted) + batch
      ensures DispatchedOf(old(events), executors, batch, markFails, r.eventIds)
      ensures events == AllMarked(old(events), executors, batch, markFails)
    {
      var dispatched, failed, eventIds := 0, 0, [];
      for i := 0 to |batch|
        invariant dispatched + failed == i && dispatched == |eventIds|
        invariant attempted == old(attempted) + batch[..i]
        invariant DispatchedOf(old(events), executors, batch[..i], markFails, eventIds)
        invariant events == AllMarked(old(events), executors, batch[..i], markFails)
      {
        var id := batch[i];
        assert batch[..i + 1] == batch[..i] + [id];
        assert id in batch && id !in batch[..i];
        DispatchOneMore(old(events), executors, batch[..i], markFails, eventIds, id);
        var error := DispatchNext(executors, id, markFails, old(events), batch[..i]);
        if error.Some? {
          failed := failed + 1;
        } else {
          dispatched := dispatched + 1;
          eventIds := eventIds + [id];
        }
      }
      assert batch[..|batch|] == batch;
      r := BatchResponse(dispatched, failed, eventIds);
    }

    /** One turn of the batch loop: the next event, after those done. */
    method DispatchNext(executors: Executors, id: string, markFails: string -> bool,
                        ghost before: Table, ghost done: seq<string>)
      returns (error: Option<DispatchError>)
      requires Attemptable(before, id) && id !in done && events == AllMarked(before, executors, done, markFails)
      modifies this
      ensures error.None? <==> !markFails(id) && ExecutionSucceeds(executors, id, before[id])
      ensures events == AllMarked(before, executors, done + [id], markFails)
      ensures attempted == old(attempted) + [id]
    {
      MarkOneMore(before, executors, done, markFails, id);
      error := DispatchEvent(id, executors, markFails(id));
    }

    /**
      BatchDispatch: the oldest ready events, those of the channel, are dispatched in order and the
      counters add up; a dry run lists them all and changes nothing.
     */
    method BatchDispatch(dryRun: bool, executors: Executors, channel: string, limit: nat, now: int,
                         markFails: string -> bool)
      returns (r: BatchResponse, ghost picked: seq<string>, ghost ids: seq<string>)
      modifies this
      ensures Picked(old(events), now, limit, picked) && InOrder(picked, ids)
      ensures forall id :: id in ids <==> id in picked && (channel == "" || old(events)[id].channel == channel)
      ensures r.dispatched + r.failed == |ids| && r.dispatched == |r.eventIds| && InOrder(ids, r.eventIds)
      ensures dryRun ==> r.eventIds == ids && events == old(events) && attempted == old(attempted)
      ensures !dryRun ==> attempted == old(attempted) + ids
      ensures !dryRun ==> events == AllMarked(old(events), executors, ids, markFails)
      ensures !dryRun ==> forall id :: id in r.eventIds <==>
              id in ids && id in events && events[id].status == Dispatched
    {
      var found := GetPendingEvents(events, now, limit);
      var batch := FilterChannel(found, channel);
      picked, ids := found, batch;
      PickedDistinct(events, now, limit, picked, ids);
      if dryRun {
        InOrderSame(batch);
        return BatchResponse(|batch|, 0, batch), picked, ids;
      }
      r := DispatchAll(executors, batch, markFails);
    }
  }

  /** The table after one attempt on each of these events. */
  function AllMarked(t: Table, executors: Executors, ids: seq<string>, markFails: string -> bool): Table {
    map id | id in t ::
      if id in ids && !markFails(id) then Marked(t[id], ExecutionSucceeds(executors, id, t[id])) else t[id]
  }

  lemma AllMarkedAre(t: Table, executors: Executors, ids: seq<string>, markFails: string -> bool, id: string)
    requires id in t
    ensures AllMarked(t, executors, ids, markFails).Keys == t.Keys
    ensures var e, after := t[id], AllMarked(t, executors, ids, markFails)[id];
      && (id !in ids || markFails(id) ==> after == e)
      && (id in ids && !markFails(id) ==>
            && after.attempts == e.attempts + 1
            && after.status == if e.channel in executors && !executors[e.channel](id) then Failed else Dispatched)
  {
  }

  lemma MarkOneMore(t: Table, executors: Executors, ids: seq<string>, markFails: string -> bool, id: string)
    requires id in t && id !in ids
    ensures var before := AllMarked(t, executors, ids, markFails);
      var after := AllMarked(t, executors, ids + [id], markFails);
      before[id] == t[id] &&
      after == if markFails(id) then before else before[id := Marked(t[id], ExecutionSucceeds(executors, id, t[id]))]
  {
    var before, after := AllMarked(t, executors, ids, markFails), AllMarked(t, executors, ids + [id], markFails);
    assert after == if markFails(id) then before
        else before[id := Marked(t[id], ExecutionSucceeds(executors, id, t[id]))];
  }

  /** The events whose execution succeeds and whose mark does not fail, in order. */
  ghost predicate DispatchedOf(t: Table, executors: Executors, ids: seq<string>, markFails: string -> bool,
                               eventIds: seq<string>)
  {
    && InOrder(ids, eventIds)
    && forall id :: id in eventIds <==>
         id in ids && id in t && !markFails(id) && ExecutionSucceeds(executors, id, t[id])
  }

  lemma DispatchOneMore(t: Table, executors: Executors, ids: seq<string>, markFails: string -> bool,
                        eventIds: seq<string>, id: string)
    requires DispatchedOf(t, executors, ids, markFails, eventIds) && id in t && id !in ids
    ensures var dispatched := !markFails(id) && ExecutionSucceeds(executors, id, t[id]);
      DispatchedOf(t, executors, ids + [id], markFails, if dispatched then eventIds + [id] else eventIds)
  {
    assert (ids + [id])[..|ids|] == ids;
    assert (eventIds + [id])[..|eventIds|] == eventIds;
  }

  /** some is obtained from all by leaving elements out. */
  ghost predicate InOrder(all: seq<string>, some: seq<string>) {
    if all == [] then some == []
    else
      var last := all[|all| - 1];
      || InOrder(all[..|all| - 1], some)
      || (some != [] && some[|some| - 1] == last && InOrder(all[..|all| - 1], some[..|some| - 1]))
  }

  lemma {:induction false} InOrderSame(all: seq<string>)
    ensures InOrder(all, all)
  {
    if all != [] {
      InOrderSame(all[..|all| - 1]);
    }
  }

  lemma {:induction false} InOrderDistinct(all: seq<string>, some: seq<string>)
    requires InOrder(all, some) && forall i, j :: 0 <= i < j < |all| ==> all[i] != all[j]
    ensures (forall id :: id in some ==> id in all) && forall i, j :: 0 <= i < j < |some| ==> some[i] != some[j]
  {
    if all != [] {
      var front := all[..|all| - 1];
      assert all == front + [all[|all| - 1]];
      if InOrder(front, some) {
        InOrderDistinct(front, some);
      } else {
        InOrderDistinct(front, some[..|some| - 1]);
        assert some == some[..|some| - 1] + [all[|all| - 1]];
        assert all[|all| - 1] !in front;
        assert forall i :: 0 <= i < |some| - 1 ==> some[i] == some[..|some| - 1][i] && some[i] in some[..|some| - 1];
      }
    }
  }

  lemma PickedDistinct(t: Table, now: int, limit: nat, picked: seq<string>, ids: seq<string>)
    requires Picked(t, now, limit, picked) && InOrder(picked, ids)
    ensures forall i, j :: 0 <= i < j < |ids| ==> ids[i] != ids[j]
    ensures forall id :: id in ids ==> Attemptable(t, id)
  {
    InOrderDistinct(picked, ids);
  }
}
