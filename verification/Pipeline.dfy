/**
  The pipeline runner (internal/pipeline/runner.go): each step in its own transaction, with audit
  rows written outside of it.  Any audit write, any begin, any step and any commit may fail.
 */
module Pipeline {
  import opened Wrappers

  datatype StepRow = StepRow(name: string, order: nat, status: string)

  /** What goes wrong while one step is run. */
  datatype StepFaults = StepFaults(createRow: bool, begin: bool, run: bool, commit: bool, complete: bool,
                                   markFailed: bool)

  datatype RunFaults = RunFaults(create: bool, complete: bool, steps: nat -> StepFaults)

  datatype RunError = CreateRunFailed | StepFailed(order: nat) | CompleteRunFailed

  /** The step commits its effects. */
  predicate Commits(f: StepFaults) {
    !f.createRow && !f.begin && !f.run && !f.commit
  }

  predicate Succeeds(f: StepFaults) {
    Commits(f) && !f.complete
  }

  /** The audit tables and the names of the steps whose effects are committed, in commit order. */
  class Database {
    var effects: seq<string>
    var stepRows: seq<StepRow>
    var runStatus: Option<string>

    constructor ()
      ensures effects == [] && stepRows == [] && runStatus == None
    {
      effects, stepRows, runStatus := [], [], None;
    }

    /** INSERT of a step row with status `running`; its id is its position. */
    method CreateStepRun(name: string, order: nat, fault: bool) returns (id: Option<nat>)
      modifies this`stepRows
      ensures id.Some? <==> !fault
      ensures fault ==> stepRows == old(stepRows)
      ensures !fault ==> stepRows == old(stepRows) + [StepRow(name, order, "running")] && id == Some(|old(stepRows)|)
    {
      if fault {
        return None;
      }
      stepRows := stepRows + [StepRow(name, order, "running")];
      return Some(|stepRows| - 1);
    }

    method CompleteStepRun(id: nat, status: string, fault: bool) returns (ok: bool)
      requires id < |stepRows|
      modifies this`stepRows
      ensures ok == !fault
      ensures stepRows == if ok then old(stepRows)[id := old(stepRows)[id].(status := status)] else old(stepRows)
    {
      ok := !fault;
      if ok {
        stepRows := stepRows[id := stepRows[id].(status := status)];
      }
    }

    method CompleteRun(status: string, fault: bool) returns (ok: bool)
      modifies this`runStatus
      ensures ok == !fault
      ensures runStatus == if ok then Some(status) else old(runStatus)
    {
      ok := !fault;
      if ok {
        runStatus := Some(status);
      }
    }

    /** runStep: commits the step's effects or none of them. */
    method RunStep(name: string, order: nat, f: StepFaults) returns (ok: bool)
      modifies this`effects, this`stepRows
      ensures ok <==> !f.createRow && !f.begin && !f.run && !f.commit && !f.complete
      ensures effects == if !f.createRow && !f.begin && !f.run && !f.commit then old(effects) + [name] else old(effects)
      ensures f.createRow ==> stepRows == old(stepRows)
      ensures !f.createRow ==> stepRows == old(stepRows) + [StepRow(name, order, FinalStatus(f))]
      ensures ok ==> stepRows == old(stepRows) + [StepRow(name, order, "completed")]
    {
      var id := CreateStepRun(name, order, f.createRow);
      if id.None? {
        return false;
      }
      if f.begin {
        var _ := CompleteStepRun(id.value, "failed", f.markFailed);
        return false;
      }
      var work := effects;
      if f.run {
        var _ := CompleteStepRun(id.value, "failed", f.markFailed);
        return false;
      }
      work := work + [name];
      if f.commit {
        var _ := CompleteStepRun(id.value, "failed", f.markFailed);
        return false;
      }
      effects := work;
      ok := CompleteStepRun(id.value, "completed", f.complete);
    }

    /** The loop of Run: stops at the first step that fails. */
    method RunSteps(steps: seq<string>, faults: nat -> StepFaults) returns (failed: Option<nat>)
      requires effects == [] && stepRows == []
      modifies this`effects, this`stepRows
      ensures FirstFailure(steps, faults, failed)
      ensures effects == CommittedEffects(steps, faults, failed)
      ensures stepRows == AuditTrail(steps, faults, failed)
    {
      for i := 0 to |steps|
        invariant forall j :: 0 <= j < i ==> Succeeds(faults(j))
        invariant effects == steps[..i]
        invariant stepRows == CompletedRows(steps, i)
      {
        var ok := RunStep(steps[i], i, faults(i));
        assert steps[..i + 1] == steps[..i] + [steps[i]];
        if !ok {
          return Some(i);
        }
        assert CompletedRows(steps, i + 1) == CompletedRows(steps, i) + [StepRow(steps[i], i, "completed")];
      }
      assert steps[..|steps|] == steps;
      return None;
    }

    /**
      Run on an empty audit trail.  The committed effects are those of a prefix of the steps, in
      order; success means every step committed and every row, the run's included, says so.
     */
    method Run(steps: seq<string>, f: RunFaults) returns (error: Option<RunError>, ghost failed: Option<nat>)
      requires effects == [] && stepRows == [] && runStatus == None
      modifies this
      ensures f.create ==> error == Some(CreateRunFailed) && effects == [] && stepRows == [] && runStatus == None
      ensures !f.create ==>
                && FirstFailure(steps, f.steps, failed)
                && effects <= steps && (error.None? ==> effects == steps)
                && effects == CommittedEffects(steps, f.steps, failed) && stepRows == AuditTrail(steps, f.steps, failed)
                && runStatus == Some(if f.complete then "running" else if failed.Some? then "failed" else "completed")
                && (error.None? <==> failed.None? && !f.complete)
                && (failed.Some? ==> error == Some(StepFailed(failed.value)))
    {
      failed := None;
      if f.create {
        return Some(CreateRunFailed), failed;
      }
      runStatus := Some("running");
      var stopped := RunSteps(steps, f.steps);
      failed := stopped;
      if stopped.Some? {
        var _ := CompleteRun("failed", f.complete);
        return Some(StepFailed(stopped.value)), failed;
      }
      var ok := CompleteRun("completed", f.complete);
      if !ok {
        return Some(CompleteRunFailed), failed;
      }
      return None, failed;
    }
  }

  // ---------------------------------------------------------------- what a run leaves behind

  function FinalStatus(f: StepFaults): string {
    if f.begin || f.run || f.commit then (if f.markFailed then "running" else "failed")
    else if f.complete then "running" else "completed"
  }

  /** What the step's row says in the end: a row that could not be updated still says `running`. */
  lemma FinalStatusIs(f: StepFaults)
    ensures f.begin || f.run || f.commit ==> FinalStatus(f) == (if f.markFailed then "running" else "failed")
    ensures !f.begin && !f.run && !f.commit ==> FinalStatus(f) == (if f.complete then "running" else "completed")
  {
  }

  /**
    What a run has committed: all steps, or those before the one it stopped at, and that one if it got as
    far as its commit.
   */
  lemma CommittedAre(steps: seq<string>, faults: nat -> StepFaults, failed: nat)
    requires failed < |steps|
    ensures CommittedEffects(steps, faults, None) == steps
    ensures var f := faults(failed);
      CommittedEffects(steps, faults, Some(failed))
      == steps[..if !f.createRow && !f.begin && !f.run && !f.commit then failed + 1 else failed]
  {
  }

  /** A run stops at the first step with a fault that counts, and goes through without one. */
  lemma StopsAt(steps: seq<string>, faults: nat -> StepFaults, failed: Option<nat>)
    ensures FirstFailure(steps, faults, failed) <==>
              var n := failed.GetOr(|steps|);
              && (forall i: nat :: i < n ==> var f := faults(i);
                    !f.createRow && !f.begin && !f.run && !f.commit && !f.complete)
              && (failed.Some? ==> n < |steps|)
              && (failed.Some? ==> var f := faults(n); f.createRow || f.begin || f.run || f.commit || f.complete)
  {
    assert forall i: nat :: var f := faults(i);
      Succeeds(f) <==> !f.createRow && !f.begin && !f.run && !f.commit && !f.complete;
  }

  /** The step the run stopped at, if any: the first that does not succeed. */
  ghost predicate FirstFailure(steps: seq<string>, faults: nat -> StepFaults, failed: Option<nat>) {
    var n := failed.GetOr(|steps|);
    && (forall i :: 0 <= i < n ==> Succeeds(faults(i)))
    && (failed.Some? ==> n < |steps| && !Succeeds(faults(n)))
  }

  /** The steps before the failure, and the failing one too when only its last audit write failed. */
  function CommittedEffects(steps: seq<string>, faults: nat -> StepFaults, failed: Option<nat>): seq<string>
    requires failed.Some? ==> failed.value < |steps|
  {
    if failed.None? then steps
    else if Commits(faults(failed.value)) then steps[..failed.value + 1]
    else steps[..failed.value]
  }

  function CompletedRows(steps: seq<string>, n: nat): seq<StepRow>
    requires n <= |steps|
  {
    seq(n, i requires 0 <= i < n => StepRow(steps[i], i, "completed"))
  }

  /** A completed row for every step before the failure, then the failing step's own row if it has one. */
  function AuditTrail(steps: seq<string>, faults: nat -> StepFaults, failed: Option<nat>): seq<StepRow>
    requires failed.Some? ==> failed.value < |steps|
  {
    if failed.None? then CompletedRows(steps, |steps|)
    else
      var i := failed.value;
      CompletedRows(steps, i) + (if faults(i).createRow then [] else [StepRow(steps[i], i, FinalStatus(faults(i)))])
  }

  function CountCompleted(rows: seq<StepRow>): nat {
    if rows == [] then 0
    else CountCompleted(rows[..|rows| - 1]) + (if rows[|rows| - 1].status == "completed" then 1 else 0)
  }

  lemma {:induction false} AllCompleted(steps: seq<string>, n: nat)
    requires n <= |steps|
    ensures CountCompleted(CompletedRows(steps, n)) == n
  {
    if n > 0 {
      assert CompletedRows(steps, n)[..n - 1] == CompletedRows(steps, n - 1);
      AllCompleted(steps, n - 1);
    }
  }

  /**
    The audit trail is accurate up to one step: committed steps and completed rows agree, except that
    a step whose last audit write failed is committed but never shown as completed.
   */
  lemma AuditTrailIsAccurate(steps: seq<string>, faults: nat -> StepFaults, failed: Option<nat>)
    requires FirstFailure(steps, faults, failed)
    ensures |CommittedEffects(steps, faults, failed)|
         == CountCompleted(AuditTrail(steps, faults, failed))
            + (if failed.Some? && Commits(faults(failed.value)) then 1 else 0)
    ensures forall i :: 0 <= i < |AuditTrail(steps, faults, failed)| - 1 ==>
              AuditTrail(steps, faults, failed)[i] == StepRow(steps[i], i, "completed")
  {
    var n := failed.GetOr(|steps|);
    AllCompleted(steps, n);
    if failed.Some? {
      LastRowIsAccurate(CompletedRows(steps, n), steps[n], n, faults(n));
    }
  }

  /** The row of a step that did not succeed never says that it is completed. */
  lemma LastRowIsAccurate(rows: seq<StepRow>, name: string, order: nat, f: StepFaults)
    requires !Succeeds(f)
    ensures CountCompleted(rows + (if f.createRow then [] else [StepRow(name, order, FinalStatus(f))]))
            == CountCompleted(rows)
  {
    if f.createRow {
      assert rows + [] == rows;
    } else {
      OneMoreRow(rows, StepRow(name, order, FinalStatus(f)));
    }
  }

  lemma OneMoreRow(rows: seq<StepRow>, row: StepRow)
    ensures CountCompleted(rows + [row]) == CountCompleted(rows) + (if row.status == "completed" then 1 else 0)
  {
    assert (rows + [row])[..|rows|] == rows;
  }
}
