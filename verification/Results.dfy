/** The records that an execution keeps of its steps, and the result built from them, which
    the result schema may refuse: it is then not returned but thrown away with an exception. */
module Results {
  import opened Outcomes
  import opened Workflows
  import opened Recovery
  import opened StateMachines

  datatype Trigger = InitialAttempt | AutomaticAttempt | ManualAttempt

  datatype AttemptStatus =
    | AttemptRunning | AttemptSucceeded | AttemptFailed | AttemptCancelled | AttemptTimedOut | AttemptInterrupted

  datatype Attempt = Attempt(
    number: nat, trigger: Trigger, status: AttemptStatus, startedAt: int, finishedAt: Option<int>,
    errorCode: Option<ErrorCode>, certainty: Certainty, repairRequestId: Option<string>)

  datatype StepRecord = StepRecord(
    step: Step, status: StepStatus, startedAt: Option<int>, finishedAt: Option<int>,
    skippedReason: Option<SkipReason>, error: Option<ErrorCode>, attempts: seq<Attempt>)

  function NewRecord(step: Step): StepRecord {
    StepRecord(step, Pending, None, None, None, None, [])
  }

  function CreateRecords(steps: seq<Step>): (r: seq<StepRecord>)
    ensures |r| == |steps| && forall i :: 0 <= i < |r| ==> r[i] == NewRecord(steps[i])
  {
    seq(|steps|, i requires 0 <= i < |steps| => NewRecord(steps[i]))
  }

  // ---------- The refinements of the result schema ----------

  predicate AttemptAccepted(a: Attempt) {
    && (a.status.AttemptRunning? <==> a.finishedAt.None?)
    && (a.trigger.ManualAttempt? <==> a.repairRequestId.Some?)
  }

  // How many of the first n attempts have the trigger.
  function TriggerCount(attempts: seq<Attempt>, t: Trigger, n: nat): nat
    requires n <= |attempts|
  {
    if n == 0 then 0 else TriggerCount(attempts, t, n - 1) + if attempts[n - 1].trigger == t then 1 else 0
  }

  predicate AttemptsAccepted(attempts: seq<Attempt>) {
    && 1 <= |attempts| <= MAX_TOTAL_ATTEMPTS
    && (forall i :: 0 <= i < |attempts| ==>
          && AttemptAccepted(attempts[i])
          && attempts[i].number == i + 1
          && (attempts[i].trigger.InitialAttempt? <==> i == 0))
    && TriggerCount(attempts, AutomaticAttempt, |attempts|) <= MAX_AUTOMATIC_RETRIES
    && TriggerCount(attempts, ManualAttempt, |attempts|) <= MAX_MANUAL_RETRIES
  }

  predicate Compatible(s: StepStatus, a: AttemptStatus) {
    match s
    case Succeeded => a.AttemptSucceeded?
    case Failed => a.AttemptFailed?
    case Cancelled => a.AttemptCancelled? || a.AttemptFailed?
    case TimedOut => a.AttemptTimedOut? || a.AttemptCancelled? || a.AttemptFailed?
    case Interrupted => a.AttemptInterrupted? || a.AttemptCancelled? || a.AttemptFailed?
    case _ => true
  }

  predicate IsTerminal(s: StepStatus) {
    s.Succeeded? || s.Failed? || s.Cancelled? || s.TimedOut? || s.Skipped? || s.Interrupted?
  }

  // The refinements that concern one step, all but the last attempt's.
  predicate StepShapeAccepted(r: StepRecord) {
    && IsTerminal(r.status)
    && r.finishedAt.Some?
    && (r.status.Skipped? <==> r.skippedReason.Some?)
    && (r.status.Skipped? ==> r.startedAt.None? && r.attempts == [])
    && (r.attempts != [] ==> AttemptsAccepted(r.attempts))
  }

  predicate LastAttemptAccepted(r: StepRecord) {
    r.attempts != [] ==> Compatible(r.status, r.attempts[|r.attempts| - 1].status)
  }

  predicate RecordAccepted(r: StepRecord) {
    StepShapeAccepted(r) && LastAttemptAccepted(r)
  }

  // ---------- Counts ----------

  function CountStatus(records: seq<StepRecord>, s: StepStatus): nat {
    if records == [] then 0
    else CountStatus(records[..|records| - 1], s) + if records[|records| - 1].status == s then 1 else 0
  }

  function CountAttempted(records: seq<StepRecord>): nat {
    if records == [] then 0
    else CountAttempted(records[..|records| - 1]) + if records[|records| - 1].status.Skipped? then 0 else 1
  }

  datatype Counts = Counts(
    total: nat, attempted: nat, succeeded: nat, failed: nat, cancelled: nat, timedOut: nat, interrupted: nat, skipped: nat)

  function CountsOf(records: seq<StepRecord>): Counts {
    Counts(|records|, CountAttempted(records), CountStatus(records, Succeeded), CountStatus(records, Failed),
           CountStatus(records, Cancelled), CountStatus(records, TimedOut), CountStatus(records, Interrupted),
           CountStatus(records, Skipped))
  }

  // The categories partition the steps, so the refinement of the counts always holds.
  lemma {:induction false} CountsAddUp(records: seq<StepRecord>)
    requires forall r :: r in records ==> IsTerminal(r.status)
    ensures var c := CountsOf(records);
            && c.succeeded + c.failed + c.cancelled + c.timedOut + c.interrupted + c.skipped == c.total
            && c.attempted + c.skipped == c.total
  {
    if records != [] {
      var front := records[..|records| - 1];
      assert records == front + [records[|records| - 1]];
      CountsAddUp(front);
    }
  }

  // Every step succeeded exactly when the count says so.
  lemma {:induction false} AllSucceededCount(records: seq<StepRecord>)
    ensures CountStatus(records, Succeeded) <= |records|
    ensures CountStatus(records, Succeeded) == |records| <==> forall r :: r in records ==> r.status.Succeeded?
  {
    if records != [] {
      var front := records[..|records| - 1];
      assert records == front + [records[|records| - 1]];
      AllSucceededCount(front);
    }
  }

  // ---------- Building the result ----------

  datatype ResultCause = Completed | PreflightFailed | CleanupFailed | Terminated(cause: Cause)

  datatype RunResult = RunResult(
    status: RunStatus, cause: ResultCause, counts: Counts, steps: seq<StepRecord>,
    error: Option<ErrorCode>, failedStepId: Option<string>, outputs: seq<(OutputDefinition, bool)>)

  // None is the exception that the schema throws.
  function BuildResult(
    status: RunStatus, cause: ResultCause, records: seq<StepRecord>,
    error: Option<ErrorCode>, failedStepId: Option<string>, outputs: seq<(OutputDefinition, bool)>): Option<RunResult>
  {
    if forall r :: r in records ==> RecordAccepted(r) then
      Some(RunResult(status, cause, CountsOf(records), records, error, failedStepId, outputs))
    else None
  }
}
