/** The workflow engine: one execution, against an environment that may answer anything. */
module Engine {
  import opened Outcomes
  import opened Workflows
  import opened Recovery
  import opened RuntimeValues
  import opened StateMachines
  import opened Results
  import Approvals
  import Preflight

  // ---------- The log of an execution ----------

  datatype ApprovalDecision = IsApproved | IsRejected | IsExpired | IsCancelled | IsInvalidated

  datatype RepairDecision = Retry | Abort | RepairExpiry | RepairCancel | RepairInvalidation

  // How an attempt of a step came out, before the arbiter is asked.
  datatype Answer =
    | Done
    | Threw(code: ErrorCode, certainty: Certainty)
    | Decided(decision: ApprovalDecision)
    | NotAsked(code: ErrorCode)

  // An attempt, with the outputs that were in the store when it was made. An offered output
  // that the store refuses carries the error.
  datatype Call = Call(
    step: nat, answer: Answer, outputs: map<string, Stored>,
    offered: Option<(ValueType, Value)>, refused: Option<ErrorCode>)

  // The answers that the first n calls gave on step k.
  function AnswersUpTo(calls: seq<Call>, k: nat, n: nat): seq<Answer>
    requires n <= |calls|
  {
    if n == 0 then []
    else AnswersUpTo(calls, k, n - 1) + if calls[n - 1].step == k then [calls[n - 1].answer] else []
  }

  function AnswersOn(calls: seq<Call>, k: nat): seq<Answer> {
    AnswersUpTo(calls, k, |calls|)
  }

  lemma {:induction false} AnswersOfPrefix(calls: seq<Call>, c: Call, k: nat, n: nat)
    requires n <= |calls|
    ensures AnswersUpTo(calls + [c], k, n) == AnswersUpTo(calls, k, n)
  {
    if n > 0 {
      AnswersOfPrefix(calls, c, k, n - 1);
    }
  }

  lemma AnswersOnNext(calls: seq<Call>, c: Call, k: nat)
    ensures AnswersOn(calls + [c], k) == AnswersOn(calls, k) + if c.step == k then [c.answer] else []
  {
    AnswersOfPrefix(calls, c, k, |calls|);
  }

  predicate Good(a: Answer) {
    a.Done? || a == Decided(IsApproved)
  }

  ghost predicate EndsWell(answers: seq<Answer>) {
    answers != [] && Good(answers[|answers| - 1])
  }

  // An approval is never executed, and an output is only offered by an extraction, under its
  // own name.
  ghost predicate CallFits(w: Workflow, c: Call) {
    && c.step < |w.steps|
    && (w.steps[c.step].action.Approval? ==> !c.answer.Done?)
    && (c.offered.Some? ==>
          && w.steps[c.step].action.Extract?
          && c.refused == SetOutcome(DefineOutputs(w), c.outputs, w.steps[c.step].action.outputName, c.offered.value.0, c.offered.value.1))
  }

  // The attempt can have had no effect, and no human approval stands behind it.
  predicate MayRepeat(w: Workflow, c: Call) {
    && c.answer.Threw? && (c.answer.certainty.ReadOnly? || c.answer.certainty.NotStarted?)
    && !Approvals.IsApprovalGatedStep(w, c.step)
  }

  // A call is safe when every earlier step has come out well, no later step has been called,
  // the earlier attempts of the same step may be repeated, and the store holds exactly the
  // outputs of the earlier steps.
  ghost predicate CallSafe(w: Workflow, calls: seq<Call>, j: nat)
    requires j < |calls|
  {
    && calls[j].step < |w.steps|
    && (forall m: nat :: m < calls[j].step ==> EndsWell(AnswersUpTo(calls, m, j)))
    && (forall i :: 0 <= i < j ==> calls[i].step <= calls[j].step)
    && (forall i :: 0 <= i < j && calls[i].step == calls[j].step ==> MayRepeat(w, calls[i]))
    && Preflight.HoldsOutputsOf(calls[j].outputs, w.steps, calls[j].step)
    && CallFits(w, calls[j])
  }

  ghost predicate CallsSafe(w: Workflow, calls: seq<Call>) {
    forall j: nat :: j < |calls| ==> CallSafe(w, calls, j)
  }

  lemma SafeCallStays(w: Workflow, calls: seq<Call>, c: Call, j: nat)
    requires j < |calls| && CallSafe(w, calls, j)
    ensures CallSafe(w, calls + [c], j)
  {
    forall m: nat | m < calls[j].step ensures EndsWell(AnswersUpTo(calls + [c], m, j)) {
      AnswersOfPrefix(calls, c, m, j);
    }
  }

  // A call may be made once the earlier steps have come out well.
  lemma CallsSafeNext(w: Workflow, calls: seq<Call>, c: Call)
    requires CallsSafe(w, calls) && c.step < |w.steps|
    requires forall m: nat :: m < c.step ==> EndsWell(AnswersOn(calls, m))
    requires forall i :: 0 <= i < |calls| ==> calls[i].step <= c.step
    requires forall i :: 0 <= i < |calls| && calls[i].step == c.step ==> MayRepeat(w, calls[i])
    requires Preflight.HoldsOutputsOf(c.outputs, w.steps, c.step) && CallFits(w, c)
    ensures CallsSafe(w, calls + [c])
  {
    forall j: nat | j < |calls| ensures CallSafe(w, calls + [c], j) {
      SafeCallStays(w, calls, c, j);
    }
    forall m: nat | m < c.step ensures EndsWell(AnswersUpTo(calls + [c], m, |calls|)) {
      assert EndsWell(AnswersOn(calls, m));
      AnswersOfPrefix(calls, c, m, |calls|);
    }
    assert CallSafe(w, calls + [c], |calls|);
  }

  // ---------- What the log says about the attempts of a step ----------

  function StatusOfError(code: ErrorCode): AttemptStatus {
    if code == ExecutionCancelled then AttemptCancelled else if IsTimeout(code) then AttemptTimedOut else AttemptFailed
  }

  // An approval that came too late leaves its attempt running.
  predicate Fits(s: AttemptStatus, a: Answer) {
    match a
    case Done => s.AttemptSucceeded?
    case Threw(code, _) => s == StatusOfError(code)
    case NotAsked(code) => s == StatusOfError(code)
    case Decided(IsApproved) => s.AttemptSucceeded? || s.AttemptRunning?
    case Decided(IsRejected) => s.AttemptCancelled?
    case Decided(IsCancelled) => s.AttemptCancelled?
    case Decided(IsExpired) => s.AttemptTimedOut?
    case Decided(IsInvalidated) => s.AttemptInterrupted?
  }

  ghost predicate Mirrors(attempts: seq<Attempt>, answers: seq<Answer>) {
    && |attempts| == |answers|
    && forall i :: 0 <= i < |attempts| ==> Fits(attempts[i].status, answers[i])
  }

  ghost predicate AttemptsOk(attempts: seq<Attempt>) {
    attempts == [] || AttemptsAccepted(attempts)
  }

  // Another attempt with this trigger stays within the limits.
  ghost predicate HasRoom(attempts: seq<Attempt>, t: Trigger) {
    && |attempts| < MAX_TOTAL_ATTEMPTS
    && (attempts == [] <==> t.InitialAttempt?)
    && (t.InitialAttempt? || TriggerCount(attempts, t, |attempts|) == 0)
  }

  lemma {:induction false} TriggersOnly(before: seq<Attempt>, after: seq<Attempt>, t: Trigger, n: nat)
    requires n <= |before| && n <= |after|
    requires forall i :: 0 <= i < n ==> after[i].trigger == before[i].trigger
    ensures TriggerCount(after, t, n) == TriggerCount(before, t, n)
  {
    if n > 0 {
      TriggersOnly(before, after, t, n - 1);
    }
  }

  lemma AttemptAdded(attempts: seq<Attempt>, a: Attempt)
    requires AttemptsOk(attempts) && HasRoom(attempts, a.trigger)
    requires AttemptAccepted(a) && a.number == |attempts| + 1
    ensures AttemptsAccepted(attempts + [a])
  {
    TriggersOnly(attempts, attempts + [a], AutomaticAttempt, |attempts|);
    TriggersOnly(attempts, attempts + [a], ManualAttempt, |attempts|);
  }

  lemma LastAttemptReplaced(before: seq<Attempt>, after: seq<Attempt>)
    requires before != [] && AttemptsAccepted(before) && SameBut(|before| - 1, before, after)
    requires AttemptAccepted(after[|before| - 1])
    requires after[|before| - 1].number == before[|before| - 1].number
    requires after[|before| - 1].trigger == before[|before| - 1].trigger
    ensures AttemptsAccepted(after)
    ensures forall t :: TriggerCount(after, t, |after|) == TriggerCount(before, t, |before|)
  {
    forall t ensures TriggerCount(after, t, |after|) == TriggerCount(before, t, |before|) {
      TriggersOnly(before, after, t, |before|);
    }
  }

  ghost predicate SameBut<T(!new)>(k: nat, before: seq<T>, after: seq<T>) {
    |before| == |after| && forall i :: 0 <= i < |before| && i != k ==> after[i] == before[i]
  }

  // A retry that the policy grants stays within the limits of the attempts.
  lemma GrantedRetriesFit(attempts: seq<Attempt>, value: RetryInput)
    requires attempts != [] && value.totalAttempts == |attempts|
    requires value.automaticRetries == TriggerCount(attempts, AutomaticAttempt, |attempts|)
    requires value.manualRetries == TriggerCount(attempts, ManualAttempt, |attempts|)
    ensures Grants(attempts, DecideRetry(value).disposition)
  {}

  ghost predicate Grants(attempts: seq<Attempt>, d: Disposition) {
    && (d.AutomaticRetry? ==> HasRoom(attempts, AutomaticAttempt))
    && (d.ManualRepair? ==> HasRoom(attempts, ManualAttempt))
  }

  lemma GrantsKept(before: seq<Attempt>, after: seq<Attempt>, d: Disposition)
    requires Grants(before, d) && |after| == |before|
    requires forall t :: TriggerCount(after, t, |after|) == TriggerCount(before, t, |before|)
    ensures Grants(after, d)
  {}

  predicate Repeats(d: Disposition) {
    d.AutomaticRetry? || d.ManualRepair?
  }

  // A finished attempt mirrors its answer.
  lemma AttemptFinished(before: seq<Attempt>, running: seq<Attempt>, after: seq<Attempt>, answers: seq<Answer>, answer: Answer)
    requires Mirrors(before, answers) && |running| == |before| + 1
    requires forall i :: 0 <= i < |before| ==> running[i] == before[i]
    requires SameBut(|before|, running, after) && Fits(after[|before|].status, answer)
    ensures Mirrors(after, answers + [answer])
  {}

  // ---------- Records ----------

  ghost predicate Untouched(r: StepRecord) {
    r == NewRecord(r.step)
  }

  ghost predicate Settled(r: StepRecord) {
    && r.status.Succeeded? && r.startedAt.Some? && r.finishedAt.Some?
    && r.skippedReason.None? && r.error.None?
    && AttemptsAccepted(r.attempts)
    && r.attempts[|r.attempts| - 1].status.AttemptSucceeded?
  }

  ghost predicate SkippedFor(r: StepRecord, c: Cause) {
    && r.status.Skipped? && r.skippedReason == Some(SkipReasonFor(c))
    && r.startedAt.None? && r.finishedAt.Some? && r.error.None? && r.attempts == []
  }

  // The step that was under way when the run ended.
  ghost predicate EndedFor(r: StepRecord, p: Candidate) {
    && r.status == StepStatusFor(p.cause) && r.error == Some(p.code)
    && r.startedAt.Some? && r.finishedAt.Some? && r.skippedReason.None?
    && AttemptsOk(r.attempts)
  }

  // ---------- Causes ----------

  predicate Environmental(c: Candidate) {
    (c.cause.CancelledRun? || c.cause.TotalTimeout?) && c.stepId.None?
  }

  // The cause of a step is what its last attempt, or the repair asked for it, came to.
  ghost predicate Justified(c: Candidate, answers: seq<Answer>, k: nat, repairs: seq<(nat, RepairDecision)>) {
    && answers != []
    && var last := answers[|answers| - 1];
       match c.cause
       case RejectedApproval => last == Decided(IsRejected) && c.code == ApprovalRejected
       case ExpiredApproval => last == Decided(IsExpired) && c.code == ApprovalExpired
       case InvalidatedApproval => last == Decided(IsInvalidated) && c.code == ApprovalInvalidated
       case CancelledRun => (last == Decided(IsCancelled) || LastRepair(repairs, k, RepairCancel)) && c.code == ExecutionCancelled
       case AbortedRepair => last.Threw? && LastRepair(repairs, k, Abort) && c.code == RecoveryAborted
       case ExpiredRepair => last.Threw? && LastRepair(repairs, k, RepairExpiry) && c.code == RecoveryExpired
       case InvalidatedRepair =>
         last.Threw? && (LastRepair(repairs, k, RepairInvalidation) || LastRepair(repairs, k, Retry)) && c.code == RecoveryInvalidated
       case StepFailure => FailedWith(answers, c.code) && !IsTimeout(c.code)
       case StepTimedOut => FailedWith(answers, c.code) && IsTimeout(c.code)
       case AdapterStartFailure => false
       case TotalTimeout => false
  }

  // The step fails with the error of its last attempt, or with one that tells why there was
  // no other attempt.
  ghost predicate FailedWith(answers: seq<Answer>, code: ErrorCode) {
    && answers != []
    && var last := answers[|answers| - 1];
       && (last.Threw? || last.NotAsked?)
       && (code == last.code
           || (last.Threw? && (code == ApprovalGatedRetryRequiresNewRun || code == RecoveryCoordinatorUnavailable
                               || code == RecoveryRequestFailed)))
  }

  ghost predicate LastRepair(repairs: seq<(nat, RepairDecision)>, k: nat, d: RepairDecision) {
    repairs != [] && repairs[|repairs| - 1] == (k, d)
  }

  ghost predicate EndsThrown(answers: seq<Answer>) {
    answers != [] && answers[|answers| - 1].Threw?
  }

  // ---------- When the result is thrown away ----------

  // The last attempt and the cause that won do not fit: the result schema refuses the step.
  predicate Clash(c: Cause, last: Answer) {
    match last
    case Done => true
    case Decided(IsApproved) => true
    case Decided(IsRejected) => StepStatusFor(c).Failed?
    case Decided(IsCancelled) => StepStatusFor(c).Failed?
    case Decided(IsExpired) => !StepStatusFor(c).TimedOut?
    case Decided(IsInvalidated) => !StepStatusFor(c).Interrupted?
    case Threw(code, _) => ErrorClashes(c, code)
    case NotAsked(code) => ErrorClashes(c, code)
  }

  predicate ErrorClashes(c: Cause, code: ErrorCode) {
    if code == ExecutionCancelled then StepStatusFor(c).Failed?
    else if IsTimeout(code) then !StepStatusFor(c).TimedOut?
    else false
  }

  lemma ClashExactlyWhenIncompatible(c: Cause, last: Answer, s: AttemptStatus)
    requires Fits(s, last)
    ensures Clash(c, last) <==> !Compatible(StepStatusFor(c), s)
  {}

  // ---------- Where an execution stands ----------

  ghost predicate Synced(w: Workflow, records: seq<StepRecord>, states: map<string, StepStatus>) {
    && |records| == |w.steps|
    && (forall i :: 0 <= i < |records| ==> records[i].step == w.steps[i])
    && (forall i :: 0 <= i < |records| ==> w.steps[i].id in states && states[w.steps[i].id] == records[i].status)
  }

  // The steps before k have succeeded.
  ghost predicate SettledBefore(records: seq<StepRecord>, calls: seq<Call>, k: nat)
    requires k <= |records|
  {
    forall i :: 0 <= i < k ==> Settled(records[i]) && Mirrors(records[i].attempts, AnswersOn(calls, i))
  }

  ghost predicate UntouchedFrom(records: seq<StepRecord>, calls: seq<Call>, k: nat) {
    forall i :: k <= i < |records| ==> Untouched(records[i]) && AnswersOn(calls, i) == []
  }

  ghost predicate OrderlyUpTo(w: Workflow, calls: seq<Call>, k: nat) {
    CallsSafe(w, calls) && forall c :: c in calls ==> c.step <= k
  }

  // All but step k: the steps before it have succeeded, the steps after it are untouched.
  ghost predicate Around(w: Workflow, records: seq<StepRecord>, calls: seq<Call>, k: nat) {
    && k < |records| == |w.steps|
    && SettledBefore(records, calls, k)
    && UntouchedFrom(records, calls, k + 1)
    && OrderlyUpTo(w, calls, k)
  }

  lemma SettledEndsWell(records: seq<StepRecord>, calls: seq<Call>, k: nat)
    requires k <= |records| && SettledBefore(records, calls, k)
    ensures forall m: nat :: m < k ==> EndsWell(AnswersOn(calls, m))
  {
    forall m: nat | m < k ensures EndsWell(AnswersOn(calls, m)) {
      var attempts, answers := records[m].attempts, AnswersOn(calls, m);
      assert Settled(records[m]) && Mirrors(attempts, answers);
      assert Fits(attempts[|attempts| - 1].status, answers[|answers| - 1]);
    }
  }

  // The log has grown by calls on step k, made while the earlier steps' outputs were stored.
  ghost predicate CalledOnly(w: Workflow, k: nat, before: seq<Call>, after: seq<Call>)
    requires k <= |w.steps|
  {
    && |before| <= |after|
    && (forall i :: 0 <= i < |before| ==> after[i] == before[i])
    && (forall i {:trigger CallOnStep(w, k, after[i])} :: |before| <= i < |after| ==> CallOnStep(w, k, after[i]))
    && AllRepeatable(w, after, |before|, |after| - 1)
  }

  // The calls from one to another may all be repeated.
  ghost predicate AllRepeatable(w: Workflow, calls: seq<Call>, from: int, to: int) {
    forall i {:trigger MayRepeat(w, calls[i])} :: 0 <= i < |calls| && from <= i < to ==> MayRepeat(w, calls[i])
  }

  ghost predicate CallOnStep(w: Workflow, k: nat, c: Call)
    requires k <= |w.steps|
  {
    c.step == k && Preflight.HoldsOutputsOf(c.outputs, w.steps, k) && CallFits(w, c)
  }

  lemma SyncedMoved(
    w: Workflow, before: seq<StepRecord>, states: map<string, StepStatus>, k: nat,
    after: seq<StepRecord>, moved: map<string, StepStatus>)
    requires UniqueIds(w.steps) && Synced(w, before, states) && k < |w.steps|
    requires SameBut(k, before, after) && after[k].step == w.steps[k]
    requires moved == states[w.steps[k].id := after[k].status]
    ensures Synced(w, after, moved)
  {}

  lemma StepSettled(w: Workflow, records: seq<StepRecord>, calls: seq<Call>, k: nat)
    requires Around(w, records, calls, k)
    requires Settled(records[k]) && Mirrors(records[k].attempts, AnswersOn(calls, k))
    ensures SettledBefore(records, calls, k + 1) && UntouchedFrom(records, calls, k + 1)
    ensures forall c :: c in calls ==> c.step < k + 1
  {}

  lemma CalledOnlyNext(w: Workflow, k: nat, before: seq<Call>, calls: seq<Call>, c: Call)
    requires k < |w.steps| && CalledOnly(w, k, before, calls) && AllRepeatable(w, calls, |before|, |calls|)
    requires c.step == k && Preflight.HoldsOutputsOf(c.outputs, w.steps, k) && CallFits(w, c)
    ensures CalledOnly(w, k, before, calls + [c])
    ensures AnswersOn(calls + [c], k) == AnswersOn(calls, k) + [c.answer]
  {
    AnswersOnNext(calls, c, k);
    assert CallOnStep(w, k, c);
    forall i | |before| <= i < |calls| ensures CallOnStep(w, k, (calls + [c])[i]) && MayRepeat(w, (calls + [c])[i]) {
      assert CallOnStep(w, k, calls[i]) && MayRepeat(w, calls[i]);
    }
  }

  lemma CalledOnlyChains(w: Workflow, k: nat, a: seq<Call>, b: seq<Call>, c: seq<Call>)
    requires k <= |w.steps| && CalledOnly(w, k, a, b) && CalledOnly(w, k, b, c) && AllRepeatable(w, b, |a|, |b|)
    ensures CalledOnly(w, k, a, c)
    ensures AllRepeatable(w, c, |b|, |c|) ==> AllRepeatable(w, c, |a|, |c|)
  {
    forall i | |a| <= i < |c| ensures CallOnStep(w, k, c[i]) && (i < |b| ==> MayRepeat(w, c[i])) {
      if i < |b| { assert CallOnStep(w, k, b[i]) && MayRepeat(w, b[i]); }
    }
  }

  lemma AnswersElsewhere(calls: seq<Call>, c: Call)
    ensures forall i: nat :: AnswersOn(calls + [c], i) == AnswersOn(calls, i) + if i == c.step then [c.answer] else []
  {
    forall i: nat ensures AnswersOn(calls + [c], i) == AnswersOn(calls, i) + if i == c.step then [c.answer] else [] {
      AnswersOnNext(calls, c, i);
    }
  }

  lemma AroundCalled(w: Workflow, records: seq<StepRecord>, calls: seq<Call>, k: nat, c: Call)
    requires Around(w, records, calls, k) && c.step == k
    requires forall i :: 0 <= i < |calls| && calls[i].step == k ==> MayRepeat(w, calls[i])
    requires Preflight.HoldsOutputsOf(c.outputs, w.steps, k) && CallFits(w, c)
    ensures Around(w, records, calls + [c], k)
  {
    SettledEndsWell(records, calls, k);
    CallsSafeNext(w, calls, c);
    AnswersElsewhere(calls, c);
    assert SettledBefore(records, calls + [c], k);
    assert UntouchedFrom(records, calls + [c], k + 1);
  }

  // What happens in step k leaves the other steps as they were.
  lemma {:induction false} AroundGrown(
    w: Workflow, before: seq<StepRecord>, calls: seq<Call>, k: nat, after: seq<StepRecord>, grown: seq<Call>)
    requires Around(w, before, calls, k) && forall i :: 0 <= i < |calls| ==> calls[i].step < k
    requires SameBut(k, before, after) && CalledOnly(w, k, calls, grown)
    ensures Around(w, after, grown, k)
    decreases |grown|
  {
    if |grown| > |calls| {
      var front, c := grown[..|grown| - 1], grown[|grown| - 1];
      assert CallOnStep(w, k, c);
      assert CalledOnly(w, k, calls, front) by {
        forall i | |calls| <= i < |front| ensures CallOnStep(w, k, front[i]) {
          assert CallOnStep(w, k, grown[i]);
        }
        forall i | |calls| <= i < |front| - 1 ensures MayRepeat(w, front[i]) {
          assert MayRepeat(w, grown[i]);
        }
      }
      forall i | 0 <= i < |front| && front[i].step == k ensures MayRepeat(w, front[i]) {
        assert MayRepeat(w, grown[i]);
      }
      AroundGrown(w, before, calls, k, after, front);
      AroundCalled(w, after, front, k, c);
      assert grown == front + [c];
    } else {
      assert grown == calls;
    }
  }

  // Nothing but the environment has spoken since.
  ghost predicate Louder(before: seq<Entry>, after: seq<Entry>) {
    && (forall e :: e in after ==> e in before || Environmental(e.candidate))
    && (before != [] ==> after != [])
  }

  ghost predicate OnlyEnvironment(entries: seq<Entry>) {
    forall e :: e in entries ==> Environmental(e.candidate)
  }

  ghost predicate Admitted(w: Workflow, calls: seq<Call>, repairs: seq<(nat, RepairDecision)>, k: nat, c: Candidate) {
    || Environmental(c)
    || (k < |w.steps| && c.stepId == Some(w.steps[k].id) && Justified(c, AnswersOn(calls, k), k, repairs))
  }

  ghost predicate AllAdmitted(w: Workflow, calls: seq<Call>, repairs: seq<(nat, RepairDecision)>, k: nat, entries: seq<Entry>) {
    forall e :: e in entries ==> Admitted(w, calls, repairs, k, e.candidate)
  }

  // ---------- How a run ends ----------

  // A run that ends before its first step was cancelled, timed out, or not started.
  predicate StartsNothing(p: Candidate) {
    (p.cause.CancelledRun? || p.cause.TotalTimeout? || p.cause.AdapterStartFailure?) && p.stepId.None?
  }

  // Where the run ended: before the step was started, or in it and for a reason of its own.
  ghost predicate EndsAt(
    w: Workflow, r: StepRecord, calls: seq<Call>, repairs: seq<(nat, RepairDecision)>, k: nat, p: Candidate)
  {
    || (Untouched(r) && AnswersOn(calls, k) == [] && StartsNothing(p) && (p.cause.AdapterStartFailure? ==> k == 0))
    || (EndedFor(r, p) && Mirrors(r.attempts, AnswersOn(calls, k)) && Admitted(w, calls, repairs, k, p))
  }

  // Succeeded steps, then at most one step that ended with the run, then skipped steps.
  ghost predicate FailFast(
    w: Workflow, records: seq<StepRecord>, calls: seq<Call>, repairs: seq<(nat, RepairDecision)>, reached: nat, p: Candidate)
  {
    && reached < |records| == |w.steps|
    && SettledBefore(records, calls, reached)
    && (|| (SkippedFor(records[reached], p.cause) && AnswersOn(calls, reached) == []
            && StartsNothing(p) && (p.cause.AdapterStartFailure? ==> reached == 0))
        || (EndedFor(records[reached], p) && Mirrors(records[reached].attempts, AnswersOn(calls, reached))
            && Admitted(w, calls, repairs, reached, p)))
    && forall i :: reached < i < |records| ==> SkippedFor(records[i], p.cause) && AnswersOn(calls, i) == []
  }

  function FinalStatus(primary: Option<Candidate>, cleanup: Option<ErrorCode>): RunStatus {
    if primary.Some? then TerminalStatusFor(primary.value.cause)
    else if cleanup.Some? then RunFailed
    else RunSucceeded
  }

  function FinalCause(primary: Option<Candidate>, cleanup: Option<ErrorCode>): ResultCause {
    if primary.Some? then Terminated(primary.value.cause)
    else if cleanup.Some? then CleanupFailed
    else Completed
  }

  // The step that the run ended in was called, and its last attempt does not fit the cause.
  predicate ClashesAt(calls: seq<Call>, reached: nat, p: Candidate) {
    var answers := AnswersOn(calls, reached);
    answers != [] && Clash(p.cause, answers[|answers| - 1])
  }

  lemma EndAccepted(r: StepRecord, answers: seq<Answer>, p: Candidate)
    requires EndedFor(r, p) && Mirrors(r.attempts, answers)
    ensures RecordAccepted(r) <==> !(answers != [] && Clash(p.cause, answers[|answers| - 1]))
  {
    if answers != [] {
      ClashExactlyWhenIncompatible(p.cause, answers[|answers| - 1], r.attempts[|r.attempts| - 1].status);
    }
  }

  lemma OthersAccepted(records: seq<StepRecord>, calls: seq<Call>, reached: nat, c: Cause)
    requires reached < |records| && SettledBefore(records, calls, reached)
    requires forall i :: reached < i < |records| ==> SkippedFor(records[i], c)
    ensures forall i :: 0 <= i < |records| && i != reached ==> RecordAccepted(records[i])
  {
    forall i | 0 <= i < |records| && i != reached ensures RecordAccepted(records[i]) {
      assert i < reached ==> Settled(records[i]);
    }
  }

  // The result is refused by its own schema exactly when the last attempt of the step that
  // the run ended in clashes with the cause that won.
  lemma RefusedExactlyWhenClashing(
    w: Workflow, records: seq<StepRecord>, calls: seq<Call>, repairs: seq<(nat, RepairDecision)>, reached: nat, p: Candidate)
    requires FailFast(w, records, calls, repairs, reached, p)
    ensures (forall r :: r in records ==> RecordAccepted(r)) <==> !ClashesAt(calls, reached, p)
  {
    OthersAccepted(records, calls, reached, p.cause);
    ReachedDecides(records, reached);
    if AnswersOn(calls, reached) != [] {
      EndAccepted(records[reached], AnswersOn(calls, reached), p);
    }
  }

  lemma ReachedDecides(records: seq<StepRecord>, reached: nat)
    requires reached < |records|
    requires forall i :: 0 <= i < |records| && i != reached ==> RecordAccepted(records[i])
    ensures (forall r :: r in records ==> RecordAccepted(r)) <==> RecordAccepted(records[reached])
  {
    assert records[reached] in records;
  }

  // What a run comes to: all steps succeeded, or it ended early at the step reached.
  ghost predicate RunEnded(
    w: Workflow, records: seq<StepRecord>, calls: seq<Call>, repairs: seq<(nat, RepairDecision)>,
    reached: nat, primary: Option<Candidate>)
  {
    match primary
    case None => SettledBefore(records, calls, |records|)
    case Some(p) => FailFast(w, records, calls, repairs, reached, p)
  }

  lemma ResultRefused(
    w: Workflow, records: seq<StepRecord>, calls: seq<Call>, repairs: seq<(nat, RepairDecision)>,
    reached: nat, primary: Option<Candidate>)
    requires RunEnded(w, records, calls, repairs, reached, primary)
    ensures (forall r :: r in records ==> RecordAccepted(r)) <==> !(primary.Some? && ClashesAt(calls, reached, primary.value))
  {
    if primary.Some? {
      RefusedExactlyWhenClashing(w, records, calls, repairs, reached, primary.value);
    }
  }

  // The result tells the run as it was, with every output produced when nothing ended it early.
  ghost predicate ResultFits(
    w: Workflow, records: seq<StepRecord>, primary: Option<Candidate>, cleanup: Option<ErrorCode>, r: RunResult)
  {
    && r.status == FinalStatus(primary, cleanup) && r.cause == FinalCause(primary, cleanup)
    && r.steps == records && r.counts == CountsOf(records)
    && r.failedStepId == (if primary.Some? then primary.value.stepId else None)
    && r.error == (if primary.Some? then Some(primary.value.code) else cleanup)
    && |r.outputs| == |DefineOutputs(w)|
    && forall i :: 0 <= i < |r.outputs| ==>
         r.outputs[i].0 == DefineOutputs(w)[i] && (primary.None? ==> r.outputs[i].1)
  }

  // A run succeeds exactly when every step succeeded and the cleanup reported no error.
  lemma SucceedsExactlyWhen(
    w: Workflow, records: seq<StepRecord>, calls: seq<Call>, repairs: seq<(nat, RepairDecision)>,
    reached: nat, primary: Option<Candidate>, cleanup: Option<ErrorCode>)
    requires RunEnded(w, records, calls, repairs, reached, primary)
    ensures FinalStatus(primary, cleanup).RunSucceeded? <==> cleanup.None? && forall r :: r in records ==> r.status.Succeeded?
  {
    match primary {
      case None =>
        forall r | r in records ensures r.status.Succeeded? {
          var i :| 0 <= i < |records| && records[i] == r;
          assert Settled(records[i]);
        }
      case Some(p) =>
        assert records[reached] in records;
    }
  }

  lemma AllSkipped(before: seq<StepRecord>, after: seq<StepRecord>, reason: SkipReason)
    requires forall i :: 0 <= i < |before| ==> Untouched(before[i])
    requires |after| == |before|
    requires forall i :: 0 <= i < |before| ==>
               if before[i].status.Pending? then
                 && after[i].finishedAt.Some?
                 && after[i] == before[i].(status := Skipped, skippedReason := Some(reason), finishedAt := after[i].finishedAt)
               else after[i] == before[i]
    ensures forall r :: r in after ==>
              r.status.Skipped? && r.skippedReason == Some(reason) && RecordAccepted(r)
  {
    forall i | 0 <= i < |after|
      ensures after[i].status.Skipped? && after[i].skippedReason == Some(reason) && RecordAccepted(after[i])
    {
      assert Untouched(before[i]);
    }
  }

  lemma EveryOutputProduced(w: Workflow, values: map<string, Stored>)
    requires Preflight.HoldsOutputsOf(values, w.steps, |w.steps|)
    ensures forall d :: d in DefineOutputs(w) ==> d.name in values
  {
    forall d | d in DefineOutputs(w) ensures d.name in values {
      DefinesEveryOutput(w, d);
    }
  }

  lemma NothingCalled(w: Workflow, records: seq<StepRecord>)
    requires |records| == |w.steps| && records != [] && forall i :: 0 <= i < |records| ==> Untouched(records[i])
    ensures Around(w, records, [], 0)
  {}

  lemma SkippedRest(
    w: Workflow, before: seq<StepRecord>, after: seq<StepRecord>, calls: seq<Call>,
    repairs: seq<(nat, RepairDecision)>, reached: nat, p: Candidate)
    requires Around(w, before, calls, reached) && EndsAt(w, before[reached], calls, repairs, reached, p)
    requires |after| == |before|
    requires forall i :: 0 <= i < |before| ==>
               if before[i].status.Pending? then
                 && after[i].finishedAt.Some?
                 && after[i] == before[i].(status := Skipped, skippedReason := Some(SkipReasonFor(p.cause)), finishedAt := after[i].finishedAt)
               else after[i] == before[i]
    ensures FailFast(w, after, calls, repairs, reached, p)
  {
    forall i | reached < i < |after| ensures SkippedFor(after[i], p.cause) && AnswersOn(calls, i) == [] {
      assert Untouched(before[i]);
    }
  }

  // ---------- One execution ----------

  // The clock, the abort signal, the timers, the adapter, the coordinators and the progress sink
  // are arbitrary choices made at every point where the engine waits or emits.
  class Execution {
    const workflow: Workflow
    const options: Preflight.Options
    const approvalCoordinator: bool
    const recoveryCoordinator: bool
    const run: RunStateMachine
    const steps: StepStateMachine
    const arbiter: TerminationArbiter
    const outputs: RuntimeOutputStore

    var records: seq<StepRecord>
    var deadlineMs: int
    var aborted: bool
    var timerFired: bool
    var starts: nat
    var stops: nat
    var calls: seq<Call>
    var repairs: seq<(nat, RepairDecision)>

    constructor (workflow: Workflow, options: Preflight.Options, approvalCoordinator: bool, recoveryCoordinator: bool)
      requires UniqueIds(workflow.steps)
      ensures this.workflow == workflow && this.options == options
      ensures this.approvalCoordinator == approvalCoordinator && this.recoveryCoordinator == recoveryCoordinator
      ensures fresh(run) && fresh(steps) && fresh(arbiter) && fresh(outputs)
      ensures Consistent() && run.current.RunPending? && Fresh()
    {
      this.workflow := workflow;
      this.options := options;
      this.approvalCoordinator := approvalCoordinator;
      this.recoveryCoordinator := recoveryCoordinator;
      var ids := seq(|workflow.steps|, i requires 0 <= i < |workflow.steps| => workflow.steps[i].id);
      run := new RunStateMachine();
      steps := new StepStateMachine(ids);
      arbiter := new TerminationArbiter();
      outputs := new RuntimeOutputStore(DefineOutputs(workflow));
      records := CreateRecords(workflow.steps);
      deadlineMs, aborted, timerFired, starts, stops, calls, repairs := 0, false, false, 0, 0, [], [];
      new;
      forall i | 0 <= i < |records|
        ensures workflow.steps[i].id in steps.states && steps.states[workflow.steps[i].id] == records[i].status
      {
        assert ids[i] in ids;
      }
    }

    // The records and the step machine tell the same story.
    ghost predicate Consistent()
      reads this, steps, arbiter, outputs
    {
      && UniqueIds(workflow.steps)
      && steps.Valid() && arbiter.Valid()
      && outputs.definitions == DefineOutputs(workflow)
      && Synced(workflow, records, steps.states)
    }

    // Nothing has happened yet.
    ghost predicate Fresh()
      reads this, steps, arbiter, outputs
    {
      && (forall i :: 0 <= i < |records| ==> Untouched(records[i]))
      && steps.runningStepId.None? && arbiter.candidates == [] && outputs.values == map[]
      && calls == [] && repairs == [] && starts == 0 && stops == 0
    }

    // The store holds what the first k steps produce.
    ghost predicate Stores(k: nat)
      reads this, outputs
    {
      && k <= |workflow.steps|
      && outputs.Valid() && outputs.definitions == DefineOutputs(workflow)
      && Preflight.HoldsOutputsOf(outputs.values, workflow.steps, k)
    }

    // Step k is next.
    ghost predicate AtStep(k: nat)
      reads this, run, steps, arbiter, outputs
    {
      && Consistent()
      && k <= |records|
      && SettledBefore(records, calls, k) && UntouchedFrom(records, calls, k)
      && CallsSafe(workflow, calls) && (forall c :: c in calls ==> c.step < k)
      && run.current.RunRunning? && steps.runningStepId.None?
      && OnlyEnvironment(arbiter.candidates)
      && Stores(k)
    }

    // What a step needs of its surroundings.
    ghost predicate Local(k: nat)
      reads this, steps, arbiter
    {
      && k < |records| == |workflow.steps|
      && records[k].step == workflow.steps[k]
      && steps.Valid() && arbiter.Valid()
      && workflow.steps[k].id in steps.states && steps.states[workflow.steps[k].id] == records[k].status
    }

    // The step, the run and the step machine agree on what is being waited for.
    ghost predicate UnderWay(k: nat)
      reads this, run, steps
    {
      && k < |records| == |workflow.steps|
      && match records[k].status
         case Running => run.current.RunRunning? && steps.runningStepId == Some(workflow.steps[k].id)
         case WaitingForApproval => run.current.RunWaitingForApproval? && steps.runningStepId.None?
         case WaitingForRepair => run.current.RunWaitingForRepair? && steps.runningStepId.None?
         case _ => false
    }

    // Step k is under way, between two attempts.
    ghost predicate InStep(k: nat)
      reads this, run, steps, arbiter
    {
      && Local(k) && UnderWay(k)
      && records[k].startedAt.Some? && records[k].skippedReason.None? && records[k].error.None?
      && AttemptsOk(records[k].attempts)
      && Mirrors(records[k].attempts, AnswersOn(calls, k))
    }

    // The last attempt of step k came out well and its output, if any, is stored.
    ghost predicate Won(k: nat)
      reads this, run, outputs
    {
      && k < |records| == |workflow.steps|
      && records[k].status.Running? && run.current.RunRunning?
      && records[k].attempts != [] && records[k].attempts[|records[k].attempts| - 1].status.AttemptSucceeded?
      && Stores(k + 1)
    }

    // Step k needs a verdict: an error of its own, a candidate of the arbiter, or success.
    ghost predicate Concluded(k: nat, stepError: Option<ErrorCode>)
      reads this, run, steps, arbiter, outputs
    {
      && InStep(k)
      && AllAdmitted(workflow, calls, repairs, k, arbiter.candidates)
      && (stepError.None? ==> arbiter.candidates != [] || Won(k))
      && (stepError.Some? ==> FailedWith(AnswersOn(calls, k), stepError.value))
    }

    // ---------- The environment ----------

    // The abort signal fires at most once, and so does the timer.
    method Interfere()
      requires arbiter.Valid()
      modifies this`aborted, this`timerFired, arbiter
      ensures (old(aborted) ==> aborted) && (old(timerFired) ==> timerFired)
      ensures aborted == old(aborted) && timerFired == old(timerFired) ==> arbiter.candidates == old(arbiter.candidates)
      ensures arbiter.Valid() && arbiter.locked == old(arbiter.locked)
      ensures Louder(old(arbiter.candidates), arbiter.candidates)
    {
      if * {
        if !aborted {
          aborted := true;
          var now: int := *;
          arbiter.Record(Candidate(CancelledRun, now, ExecutionCancelled, None));
        }
      }
      if * {
        if !timerFired {
          timerFired := true;
          arbiter.Record(Candidate(TotalTimeout, deadlineMs, TotalExecutionTimeout, None));
        }
      }
    }

    // A timeout is recorded, for the time of the deadline, exactly when the clock has reached
    // it and no winner is locked yet.
    method RecordDeadlineIfElapsed() returns (now: int)
      requires arbiter.Valid()
      modifies arbiter
      ensures now < deadlineMs ==> arbiter.candidates == old(arbiter.candidates)
      ensures now >= deadlineMs ==> arbiter.candidates != []
      ensures now >= deadlineMs && arbiter.locked.None? ==>
                arbiter.candidates == old(arbiter.candidates)
                + [Entry(Candidate(TotalTimeout, deadlineMs, TotalExecutionTimeout, None), |old(arbiter.candidates)|)]
      ensures arbiter.Valid() && arbiter.locked == old(arbiter.locked)
      ensures Louder(old(arbiter.candidates), arbiter.candidates)
    {
      now := *;
      if now >= deadlineMs {
        arbiter.Record(Candidate(TotalTimeout, deadlineMs, TotalExecutionTimeout, None));
      }
    }

    // ---------- Transitions, each of which is emitted ----------

    method TransitionRun(next: RunStatus)
      requires arbiter.Valid()
      requires next in RunTransitions(run.current)
      modifies this`aborted, this`timerFired, run, arbiter
      ensures run.current == next
      ensures arbiter.Valid() && arbiter.locked == old(arbiter.locked)
      ensures Louder(old(arbiter.candidates), arbiter.candidates)
    {
      var ok := run.Transition(next);
      assert ok;
      Interfere();
    }

    method TransitionStep(k: nat, next: StepStatus)
      requires Local(k)
      requires CanMove(steps.states, steps.runningStepId, workflow.steps[k].id, next)
      modifies this`records, this`aborted, this`timerFired, steps, arbiter
      ensures Local(k)
      ensures SameBut(k, old(records), records) && records[k] == old(records)[k].(status := next)
      ensures steps.states == old(steps.states)[workflow.steps[k].id := next]
      ensures steps.runningStepId ==
              if next.Running? then Some(workflow.steps[k].id)
              else if old(records)[k].status.Running? then None
              else old(steps.runningStepId)
      ensures arbiter.locked == old(arbiter.locked)
      ensures Louder(old(arbiter.candidates), arbiter.candidates)
    {
      var ok := steps.Transition(workflow.steps[k].id, next);
      assert ok;
      records := records[k := records[k].(status := next)];
      Interfere();
    }

    method BeginAttempt(k: nat, trigger: Trigger, repairRequestId: Option<string>) returns (a: Attempt)
      requires arbiter.Valid() && k < |records|
      requires AttemptsOk(records[k].attempts) && HasRoom(records[k].attempts, trigger)
      requires trigger.ManualAttempt? <==> repairRequestId.Some?
      modifies this`records, this`aborted, this`timerFired, arbiter
      ensures SameBut(k, old(records), records)
      ensures records[k] == old(records)[k].(attempts := old(records)[k].attempts + [a])
      ensures a.status.AttemptRunning? && a.trigger == trigger && a.repairRequestId == repairRequestId
      ensures AttemptsAccepted(records[k].attempts)
      ensures arbiter.Valid() && arbiter.locked == old(arbiter.locked)
      ensures Louder(old(arbiter.candidates), arbiter.candidates)
    {
      var now: int := *;
      a := Attempt(|records[k].attempts| + 1, trigger, AttemptRunning, now, None, None, UnknownEffect, repairRequestId);
      AttemptAdded(records[k].attempts, a);
      records := records[k := records[k].(attempts := records[k].attempts + [a])];
      Interfere();
    }

    method FinishAttempt(k: nat, status: AttemptStatus, certainty: Certainty, code: Option<ErrorCode>) returns (a: Attempt)
      requires arbiter.Valid() && k < |records| && !status.AttemptRunning?
      requires records[k].attempts != [] && AttemptsAccepted(records[k].attempts)
      modifies this`records, this`aborted, this`timerFired, arbiter
      ensures SameBut(k, old(records), records)
      ensures records[k] == old(records)[k].(attempts := records[k].attempts)
      ensures SameBut(|old(records)[k].attempts| - 1, old(records)[k].attempts, records[k].attempts)
      ensures records[k].attempts[|old(records)[k].attempts| - 1] == a
      ensures a == old(records)[k].attempts[|old(records)[k].attempts| - 1].(
                        status := status, finishedAt := a.finishedAt, certainty := certainty, errorCode := code)
      ensures AttemptsAccepted(records[k].attempts)
      ensures forall t :: TriggerCount(records[k].attempts, t, |records[k].attempts|)
                       == TriggerCount(old(records)[k].attempts, t, |records[k].attempts|)
      ensures arbiter.Valid() && arbiter.locked == old(arbiter.locked)
      ensures Louder(old(arbiter.candidates), arbiter.candidates)
    {
      var now: int := *;
      var attempts := records[k].attempts;
      a := attempts[|attempts| - 1].(status := status, finishedAt := Some(now), certainty := certainty, errorCode := code);
      LastAttemptReplaced(attempts, attempts[|attempts| - 1 := a]);
      records := records[k := records[k].(attempts := attempts[|attempts| - 1 := a])];
      Interfere();
    }

    // ---------- Attempts ----------

    // One call of the adapter, the checks on what it returns, and the storing of its output.
    method AskAdapter(k: nat) returns (answer: Answer, offered: Option<(ValueType, Value)>, refused: Option<ErrorCode>)
      requires k < |workflow.steps| && !workflow.steps[k].action.Approval? && Stores(k)
      modifies outputs
      ensures answer.Done? || answer.Threw?
      ensures CallFits(workflow, Call(k, answer, old(outputs.values), offered, refused))
      ensures Stores(if answer.Done? then k + 1 else k)
    {
      var action := workflow.steps[k].action;
      offered, refused := None, None;
      var exception: Option<(ErrorCode, Certainty)> := *;
      var produced: Option<(string, ValueType, Value)> := *;
      if exception.Some? {
        return Threw(exception.value.0, exception.value.1), offered, refused;
      }
      if !produced.Some? {
        answer := if action.Extract? then Threw(ExtractionValueUnavailable, ReadOnly) else Done;
        return;
      }
      var (name, outputType, value) := produced.value;
      if !action.Extract? {
        return Threw(InvalidWorkflow, UnknownEffect), offered, refused;
      }
      if name != action.outputName || Some(outputType) != OutputTypeOf(action.from) {
        return Threw(OutputTypeMismatch, UnknownEffect), offered, refused;
      }
      ghost var before := outputs.values;
      offered := Some((outputType, value));
      refused := outputs.Set(name, outputType, value);
      if refused.Some? {
        return Threw(refused.value, UnknownEffect), offered, refused;
      }
      OutputStored(workflow.steps, k, before, outputs.values, outputType, value);
      answer := Done;
    }

    // ---------- The arbiter ----------

    // The candidate that the arbiter has locked; by its validity it wins against all recorded.
    ghost predicate Chosen(p: Candidate)
      reads arbiter
    {
      arbiter.locked.Some? && arbiter.locked.value.candidate == p
    }

    // The winner of what has been recorded is locked, unless one was before.
    method ChoosePrimary() returns (primary: Option<Candidate>)
      requires arbiter.Valid()
      modifies arbiter
      ensures arbiter.Valid() && arbiter.candidates == old(arbiter.candidates)
      ensures primary.None? <==> arbiter.candidates == []
      ensures primary.Some? ==> Chosen(primary.value) && Wins(primary.value, arbiter.candidates)
      ensures primary.Some? ==> exists e :: e in arbiter.candidates && e.candidate == primary.value
    {
      primary := arbiter.LockWinner();
      assert primary.Some? ==> arbiter.locked.value in arbiter.candidates;
    }

    method RecordFor(k: nat, cause: Cause, code: ErrorCode)
      requires k < |workflow.steps| && arbiter.Valid()
      requires AllAdmitted(workflow, calls, repairs, k, arbiter.candidates)
      requires forall at, id :: Justified(Candidate(cause, at, code, id), AnswersOn(calls, k), k, repairs)
      requires arbiter.locked.Some? ==> arbiter.candidates != []
      modifies arbiter
      ensures arbiter.Valid() && AllAdmitted(workflow, calls, repairs, k, arbiter.candidates)
      ensures arbiter.candidates != []
    {
      var now: int := *;
      arbiter.Record(Candidate(cause, now, code, Some(workflow.steps[k].id)));
    }

    // ---------- Approval ----------

    // The request for an approval: the coordinator answers anything, or throws.
    method AskApproval(k: nat) returns (answer: Answer)
      requires Local(k) && UnderWay(k) && records[k].status.Running?
      modifies this`records, this`aborted, this`timerFired, run, steps, arbiter
      ensures Local(k) && UnderWay(k)
      ensures !answer.Done? && (records[k].status.WaitingForApproval? <==> !answer.NotAsked?)
      ensures answer.NotAsked? ==> records[k].status.Running? && !IsTimeout(answer.code)
      ensures SameBut(k, old(records), records) && records[k] == old(records)[k].(status := records[k].status)
      ensures steps.states == old(steps.states)[workflow.steps[k].id := records[k].status]
      ensures Louder(old(arbiter.candidates), arbiter.candidates)
    {
      if !approvalCoordinator {
        return NotAsked(ApprovalCoordinatorUnavailable);
      }
      var binding := Approvals.RequireApprovalBinding(workflow, workflow.steps[k].id, None);
      if binding.None? {
        return NotAsked(ApprovalRequestFailed);
      }
      TransitionStep(k, WaitingForApproval);
      TransitionRun(RunWaitingForApproval);
      var thrown: Option<ErrorCode> := *;
      var decision: ApprovalDecision := *;
      Interfere();
      answer := if thrown.Some? then Threw(thrown.value, UnknownEffect) else Decided(decision);
    }

    function ApprovalCause(d: ApprovalDecision): Cause
      requires !d.IsApproved?
    {
      match d
      case IsRejected => RejectedApproval
      case IsExpired => ExpiredApproval
      case IsInvalidated => InvalidatedApproval
      case IsCancelled => CancelledRun
    }

    function ApprovalError(d: ApprovalDecision): ErrorCode
      requires !d.IsApproved?
    {
      match d
      case IsRejected => ApprovalRejected
      case IsExpired => ApprovalExpired
      case IsInvalidated => ApprovalInvalidated
      case IsCancelled => ExecutionCancelled
    }

    // The only attempt of step k has been answered and finished.
    ghost predicate Answered(k: nat, answer: Answer)
      reads this
    {
      && k < |records| && |records[k].attempts| == 1 && AttemptsAccepted(records[k].attempts)
      && Fits(records[k].attempts[0].status, answer) && AnswersOn(calls, k) == [answer]
    }

    method RefuseApproval(k: nat, answer: Answer)
      requires arbiter.Valid() && k < |records| == |workflow.steps|
      requires |records[k].attempts| == 1 && AttemptsAccepted(records[k].attempts) && AnswersOn(calls, k) == [answer]
      requires answer.Decided? && !answer.decision.IsApproved?
      requires AllAdmitted(workflow, calls, repairs, k, arbiter.candidates)
      modifies this`records, this`aborted, this`timerFired, arbiter
      ensures arbiter.Valid() && Answered(k, answer)
      ensures SameBut(k, old(records), records) && records[k] == old(records)[k].(attempts := records[k].attempts)
      ensures AllAdmitted(workflow, calls, repairs, k, arbiter.candidates) && arbiter.candidates != []
    {
      RecordFor(k, ApprovalCause(answer.decision), ApprovalError(answer.decision));
      var status := match answer.decision
        case IsExpired => AttemptTimedOut
        case IsInvalidated => AttemptInterrupted
        case _ => AttemptCancelled;
      var a := FinishAttempt(k, status, ReadOnly, Some(ApprovalError(answer.decision)));
    }

    method ConcludeApproved(k: nat)
      requires Local(k) && UnderWay(k) && records[k].status.WaitingForApproval?
      requires records[k].startedAt.Some? && records[k].skippedReason.None? && records[k].error.None?
      requires |records[k].attempts| == 1 && AttemptsAccepted(records[k].attempts)
      modifies this`records, this`aborted, this`timerFired, run, steps, arbiter
      ensures Local(k) && Settled(records[k]) && |records[k].attempts| == 1
      ensures run.current.RunRunning? && steps.runningStepId.None?
      ensures SameBut(k, old(records), records)
      ensures steps.states == old(steps.states)[workflow.steps[k].id := records[k].status]
      ensures Louder(old(arbiter.candidates), arbiter.candidates)
    {
      TransitionRun(RunRunning);
      var now: int := *;
      records := records[k := records[k].(finishedAt := Some(now))];
      TransitionStep(k, Succeeded);
      var a := FinishAttempt(k, AttemptSucceeded, EffectCompleted, None);
    }

    // The verdict on a decision: an approval only counts while nothing has ended the run.
    method JudgeApproval(k: nat, decision: ApprovalDecision) returns (finished: bool)
      requires Local(k) && UnderWay(k) && records[k].status.WaitingForApproval?
      requires records[k].startedAt.Some? && records[k].skippedReason.None? && records[k].error.None?
      requires |records[k].attempts| == 1 && AttemptsAccepted(records[k].attempts) && records[k].attempts[0].status.AttemptRunning?
      requires AnswersOn(calls, k) == [Decided(decision)]
      requires OnlyEnvironment(arbiter.candidates)
      modifies this`records, this`aborted, this`timerFired, run, steps, arbiter
      ensures SameBut(k, old(records), records)
      ensures steps.states == old(steps.states)[workflow.steps[k].id := records[k].status]
      ensures Answered(k, Decided(decision))
      ensures finished ==>
                Local(k) && Settled(records[k])
                && run.current.RunRunning? && steps.runningStepId.None? && OnlyEnvironment(arbiter.candidates)
      ensures !finished ==>
                && InStep(k) && arbiter.candidates != []
                && AllAdmitted(workflow, calls, repairs, k, arbiter.candidates)
    {
      Interfere();
      var elapsed := RecordDeadlineIfElapsed();
      var primary := ChoosePrimary();
      if decision.IsApproved? && primary.None? {
        ConcludeApproved(k);
        return true;
      }
      if !decision.IsApproved? {
        RefuseApproval(k, Decided(decision));
      }
      finished := false;
    }

    // An approval that was not asked for, or whose request threw.
    method FailApproval(k: nat, answer: Answer)
      requires Local(k) && UnderWay(k)
      requires records[k].startedAt.Some? && records[k].skippedReason.None? && records[k].error.None?
      requires |records[k].attempts| == 1 && AttemptsAccepted(records[k].attempts)
      requires AnswersOn(calls, k) == [answer] && (answer.Threw? || answer.NotAsked?)
      requires OnlyEnvironment(arbiter.candidates)
      modifies this`records, this`aborted, this`timerFired, arbiter
      ensures SameBut(k, old(records), records) && records[k].status == old(records)[k].status
      ensures Concluded(k, Some(answer.code))
    {
      var a := FinishAttempt(k, StatusOfError(answer.code), UnknownEffect, Some(answer.code));
    }

    // The only attempt of an approval step, up to the answer of the coordinator.
    method RequestApproval(k: nat) returns (answer: Answer)
      requires InStep(k) && Stores(k) && OnlyEnvironment(arbiter.candidates)
      requires records[k].status.Running? && records[k].attempts == []
      modifies this`records, this`calls, this`aborted, this`timerFired, run, steps, arbiter
      ensures SameBut(k, old(records), records) && CalledOnly(workflow, k, old(calls), calls)
      ensures steps.states == old(steps.states)[workflow.steps[k].id := records[k].status]
      ensures Local(k) && UnderWay(k) && !answer.Done? && (records[k].status.WaitingForApproval? <==> !answer.NotAsked?)
      ensures records[k].startedAt.Some? && records[k].skippedReason.None? && records[k].error.None?
      ensures |records[k].attempts| == 1 && AttemptsAccepted(records[k].attempts) && records[k].attempts[0].status.AttemptRunning?
      ensures AnswersOn(calls, k) == [answer] && OnlyEnvironment(arbiter.candidates)
    {
      var running := BeginAttempt(k, InitialAttempt, None);
      answer := AskApproval(k);
      var c := Call(k, answer, outputs.values, None, None);
      CalledOnlyNext(workflow, k, calls, calls, c);
      calls := calls + [c];
    }

    // An approval step: it is done once the approval is given and nothing has ended the run.
    method RunApproval(k: nat) returns (finished: bool, stepError: Option<ErrorCode>)
      requires InStep(k) && Stores(k) && OnlyEnvironment(arbiter.candidates)
      requires records[k].status.Running? && records[k].attempts == []
      modifies this`records, this`calls, this`aborted, this`timerFired, run, steps, arbiter
      ensures SameBut(k, old(records), records) && CalledOnly(workflow, k, old(calls), calls)
      ensures steps.states == old(steps.states)[workflow.steps[k].id := records[k].status]
      ensures finished ==>
                && Local(k) && Settled(records[k]) && Mirrors(records[k].attempts, AnswersOn(calls, k))
                && run.current.RunRunning? && steps.runningStepId.None? && OnlyEnvironment(arbiter.candidates)
      ensures !finished ==> Concluded(k, stepError)
    {
      var answer := RequestApproval(k);
      if answer.Decided? {
        stepError := None;
        finished := JudgeApproval(k, answer.decision);
      } else {
        FailApproval(k, answer);
        finished, stepError := false, Some(answer.code);
      }
    }

    // ---------- Attempts and repairs ----------

    // One call of the adapter for step k, in a new attempt that is still running.
    method PerformAttempt(k: nat, trigger: Trigger, repairRequestId: Option<string>) returns (answer: Answer)
      requires InStep(k) && !workflow.steps[k].action.Approval? && Stores(k)
      requires HasRoom(records[k].attempts, trigger) && (trigger.ManualAttempt? <==> repairRequestId.Some?)
      modifies this`records, this`calls, this`aborted, this`timerFired, outputs, arbiter
      ensures arbiter.Valid() && SameBut(k, old(records), records) && CalledOnly(workflow, k, old(calls), calls)
      ensures |calls| == |old(calls)| + 1 && calls[|old(calls)|].step == k && calls[|old(calls)|].answer == answer
      ensures AnswersOn(calls, k) == AnswersOn(old(calls), k) + [answer]
      ensures |records[k].attempts| == |old(records)[k].attempts| + 1
      ensures forall i :: 0 <= i < |old(records)[k].attempts| ==> records[k].attempts[i] == old(records)[k].attempts[i]
      ensures records[k] == old(records)[k].(attempts := records[k].attempts) && AttemptsAccepted(records[k].attempts)
      ensures answer.Done? || answer.Threw?
      ensures Stores(if answer.Done? then k + 1 else k)
      ensures Louder(old(arbiter.candidates), arbiter.candidates)
    {
      var running := BeginAttempt(k, trigger, repairRequestId);
      var before := outputs.values;
      var offered, refused;
      answer, offered, refused := AskAdapter(k);
      var c := Call(k, answer, before, offered, refused);
      CalledOnlyNext(workflow, k, calls, calls, c);
      calls := calls + [c];
      Interfere();
    }

    function RetryQuestion(k: nat, code: ErrorCode, certainty: Certainty): RetryInput
      requires k < |records| == |workflow.steps|
      reads this`records
    {
      var attempts := records[k].attempts;
      RetryInput(
        Preflight.TypeOfStep(workflow.steps[k].action), code, certainty, options.mode,
        TriggerCount(attempts, AutomaticAttempt, |attempts|), TriggerCount(attempts, ManualAttempt, |attempts|),
        |attempts|, Approvals.IsApprovalGatedStep(workflow, k))
    }

    // What the retry policy says about a failed attempt of step k.
    function AskPolicy(k: nat, answer: Answer, c: Call): (disposition: Disposition)
      requires k < |records| == |workflow.steps| && records[k].attempts != []
      requires answer.Threw? && c.answer == answer && c.step == k
      reads this`records
      ensures Grants(records[k].attempts, disposition)
      ensures Repeats(disposition) ==> MayRepeat(workflow, c)
    {
      var question := RetryQuestion(k, answer.code, answer.certainty);
      GrantedRetriesFit(records[k].attempts, question);
      DecideRetry(question).disposition
    }

    // The running attempt of step k is finished as it was answered.
    method CloseAttempt(k: nat, answer: Answer)
      requires arbiter.Valid() && k < |records| && (answer.Done? || answer.Threw?)
      requires records[k].attempts != [] && AttemptsAccepted(records[k].attempts)
      modifies this`records, this`aborted, this`timerFired, arbiter
      ensures SameBut(k, old(records), records)
      ensures records[k] == old(records)[k].(attempts := records[k].attempts) && AttemptsAccepted(records[k].attempts)
      ensures SameBut(|old(records)[k].attempts| - 1, old(records)[k].attempts, records[k].attempts)
      ensures Fits(records[k].attempts[|old(records)[k].attempts| - 1].status, answer)
      ensures forall t :: TriggerCount(records[k].attempts, t, |records[k].attempts|)
                       == TriggerCount(old(records)[k].attempts, t, |records[k].attempts|)
      ensures arbiter.Valid() && arbiter.locked == old(arbiter.locked)
      ensures Louder(old(arbiter.candidates), arbiter.candidates)
    {
      var a;
      if answer.Done? {
        a := FinishAttempt(k, AttemptSucceeded, EffectCompleted, None);
      } else {
        a := FinishAttempt(k, StatusOfError(answer.code), answer.certainty, Some(answer.code));
      }
    }

    // One attempt of step k, and what the retry policy says about it if it failed.
    method MakeAttempt(k: nat, trigger: Trigger, repairRequestId: Option<string>) returns (answer: Answer, disposition: Disposition)
      requires InStep(k) && !workflow.steps[k].action.Approval? && records[k].status.Running? && Stores(k)
      requires HasRoom(records[k].attempts, trigger) && (trigger.ManualAttempt? <==> repairRequestId.Some?)
      modifies this`records, this`calls, this`aborted, this`timerFired, outputs, arbiter
      ensures InStep(k) && records[k].status.Running?
      ensures SameBut(k, old(records), records) && CalledOnly(workflow, k, old(calls), calls)
      ensures AnswersOn(calls, k) == AnswersOn(old(calls), k) + [answer]
      ensures |records[k].attempts| == |old(records)[k].attempts| + 1
      ensures answer.Done? || answer.Threw?
      ensures Stores(if answer.Done? then k + 1 else k)
      ensures |calls| == |old(calls)| + 1
      ensures answer.Threw? ==>
                Grants(records[k].attempts, disposition) && (Repeats(disposition) ==> MayRepeat(workflow, calls[|old(calls)|]))
      ensures Louder(old(arbiter.candidates), arbiter.candidates)
    {
      answer := PerformAttempt(k, trigger, repairRequestId);
      ghost var running := records[k].attempts;
      disposition := if answer.Threw? then AskPolicy(k, answer, calls[|calls| - 1]) else NoRecovery;
      CloseAttempt(k, answer);
      GrantsKept(running, records[k].attempts, disposition);
      AttemptFinished(old(records)[k].attempts, running, records[k].attempts, AnswersOn(old(calls), k), answer);
    }

    // The request for a repair: the coordinator answers anything, or throws.
    method AwaitRepair(k: nat) returns (decision: Option<(RepairDecision, string)>)
      requires Local(k) && UnderWay(k) && records[k].status.Running?
      modifies this`records, this`repairs, this`aborted, this`timerFired, run, steps, arbiter
      ensures Local(k) && UnderWay(k) && records[k].status.WaitingForRepair?
      ensures SameBut(k, old(records), records) && records[k] == old(records)[k].(status := WaitingForRepair)
      ensures steps.states == old(steps.states)[workflow.steps[k].id := WaitingForRepair]
      ensures decision.Some? ==> LastRepair(repairs, k, decision.value.0)
      ensures Louder(old(arbiter.candidates), arbiter.candidates)
    {
      TransitionStep(k, WaitingForRepair);
      TransitionRun(RunWaitingForRepair);
      decision := *;
      if decision.Some? {
        repairs := repairs + [(k, decision.value.0)];
      }
      Interfere();
    }

    function RepairCause(d: RepairDecision): Cause {
      match d
      case Abort => AbortedRepair
      case RepairExpiry => ExpiredRepair
      case RepairCancel => CancelledRun
      case RepairInvalidation => InvalidatedRepair
      case Retry => InvalidatedRepair
    }

    function RepairError(d: RepairDecision): ErrorCode {
      match d
      case Abort => RecoveryAborted
      case RepairExpiry => RecoveryExpired
      case RepairCancel => ExecutionCancelled
      case RepairInvalidation => RecoveryInvalidated
      case Retry => RecoveryInvalidated
    }

    // A retry is only made while nothing has ended the run, and never for a mere proposal.
    method JudgeRepair(k: nat, decision: RepairDecision, proposalOnly: bool) returns (retry: bool)
      requires Local(k) && UnderWay(k) && records[k].status.WaitingForRepair? && OnlyEnvironment(arbiter.candidates)
      requires LastRepair(repairs, k, decision) && EndsThrown(AnswersOn(calls, k))
      modifies this`records, this`aborted, this`timerFired, run, steps, arbiter
      ensures SameBut(k, old(records), records) && Local(k) && UnderWay(k)
      ensures records[k] == old(records)[k].(status := records[k].status)
      ensures steps.states == old(steps.states)[workflow.steps[k].id := records[k].status]
      ensures retry ==> records[k].status.Running? && OnlyEnvironment(arbiter.candidates) && !proposalOnly
      ensures !retry ==> AllAdmitted(workflow, calls, repairs, k, arbiter.candidates) && arbiter.candidates != []
    {
      Interfere();
      var elapsed := RecordDeadlineIfElapsed();
      var primary := ChoosePrimary();
      if !proposalOnly && decision.Retry? && primary.None? {
        TransitionRun(RunRunning);
        TransitionStep(k, Running);
        return true;
      }
      if !decision.Retry? || proposalOnly {
        RecordFor(k, RepairCause(decision), RepairError(decision));
      }
      retry := false;
    }

    method AskForRepair(k: nat, proposalOnly: bool) returns (retry: Option<string>, stepError: Option<ErrorCode>)
      requires Local(k) && UnderWay(k) && records[k].status.Running? && OnlyEnvironment(arbiter.candidates)
      requires EndsThrown(AnswersOn(calls, k))
      modifies this`records, this`repairs, this`aborted, this`timerFired, run, steps, arbiter
      ensures SameBut(k, old(records), records) && Local(k) && UnderWay(k)
      ensures records[k] == old(records)[k].(status := records[k].status)
      ensures steps.states == old(steps.states)[workflow.steps[k].id := records[k].status]
      ensures retry.Some? ==> records[k].status.Running? && OnlyEnvironment(arbiter.candidates) && !proposalOnly
      ensures retry.None? ==>
                && AllAdmitted(workflow, calls, repairs, k, arbiter.candidates)
                && (stepError.None? ==> arbiter.candidates != [])
                && (stepError.Some? ==> stepError.value == RecoveryCoordinatorUnavailable || stepError.value == RecoveryRequestFailed)
    {
      if !recoveryCoordinator {
        return None, Some(RecoveryCoordinatorUnavailable);
      }
      var decision := AwaitRepair(k);
      if !decision.Some? {
        return None, Some(RecoveryRequestFailed);
      }
      var granted := JudgeRepair(k, decision.value.0, proposalOnly);
      retry, stepError := if granted then Some(decision.value.1) else None, None;
    }

    // What follows a failed attempt: another one, or the verdict on the step.
    method Recover(k: nat, code: ErrorCode, disposition: Disposition) returns (next: Option<(Trigger, Option<string>)>, stepError: Option<ErrorCode>)
      requires Local(k) && UnderWay(k) && records[k].status.Running? && OnlyEnvironment(arbiter.candidates)
      requires EndsThrown(AnswersOn(calls, k)) && AnswersOn(calls, k)[|AnswersOn(calls, k)| - 1].code == code
      modifies this`records, this`repairs, this`aborted, this`timerFired, run, steps, arbiter
      ensures SameBut(k, old(records), records) && Local(k) && UnderWay(k)
      ensures records[k] == old(records)[k].(status := records[k].status)
      ensures steps.states == old(steps.states)[workflow.steps[k].id := records[k].status]
      ensures next.Some? ==>
                && records[k].status.Running? && OnlyEnvironment(arbiter.candidates)
                && ((next.value.0.AutomaticAttempt? && next.value.1.None? && disposition.AutomaticRetry?)
                    || (next.value.0.ManualAttempt? && next.value.1.Some? && disposition.ManualRepair?))
      ensures next.None? ==>
                && AllAdmitted(workflow, calls, repairs, k, arbiter.candidates)
                && (stepError.None? ==> arbiter.candidates != [])
                && (stepError.Some? ==> FailedWith(AnswersOn(calls, k), stepError.value))
    {
      match disposition {
        case AutomaticRetry => next, stepError := Some((AutomaticAttempt, None)), None;
        case NewRunRequired => next, stepError := None, Some(ApprovalGatedRetryRequiresNewRun);
        case NoRecovery => next, stepError := None, Some(code);
        case _ =>
          var retry;
          retry, stepError := AskForRepair(k, disposition.LocatorProposal?);
          next := if retry.Some? then Some((ManualAttempt, retry)) else None;
      }
    }

    // An attempt and what follows it.
    method TryStep(k: nat, trigger: Trigger, repairRequestId: Option<string>)
      returns (next: Option<(Trigger, Option<string>)>, stepError: Option<ErrorCode>)
      requires InStep(k) && !workflow.steps[k].action.Approval?
      requires records[k].status.Running? && Stores(k) && OnlyEnvironment(arbiter.candidates)
      requires HasRoom(records[k].attempts, trigger) && (trigger.ManualAttempt? <==> repairRequestId.Some?)
      modifies this`records, this`calls, this`repairs, this`aborted, this`timerFired, run, steps, arbiter, outputs
      ensures SameBut(k, old(records), records) && CalledOnly(workflow, k, old(calls), calls)
      ensures steps.states == old(steps.states)[workflow.steps[k].id := records[k].status]
      ensures |records[k].attempts| == |old(records)[k].attempts| + 1
      ensures next.None? ==> Concluded(k, stepError)
      ensures next.Some? ==> AllRepeatable(workflow, calls, |old(calls)|, |calls|)
      ensures next.Some? ==>
                && InStep(k) && records[k].status.Running? && Stores(k) && OnlyEnvironment(arbiter.candidates)
                && HasRoom(records[k].attempts, next.value.0) && (next.value.0.ManualAttempt? <==> next.value.1.Some?)
    {
      var answer, disposition := MakeAttempt(k, trigger, repairRequestId);
      if answer.Done? {
        return None, None;
      }
      next, stepError := Recover(k, answer.code, disposition);
    }

    // Attempts of step k until one succeeds, the policy gives up, or something ends the run.
    method RunAttempts(k: nat) returns (stepError: Option<ErrorCode>)
      requires InStep(k) && !workflow.steps[k].action.Approval? && Stores(k) && OnlyEnvironment(arbiter.candidates)
      requires records[k].status.Running? && records[k].attempts == []
      modifies this`records, this`calls, this`repairs, this`aborted, this`timerFired, run, steps, arbiter, outputs
      ensures SameBut(k, old(records), records) && CalledOnly(workflow, k, old(calls), calls)
      ensures steps.states == old(steps.states)[workflow.steps[k].id := records[k].status]
      ensures Concluded(k, stepError)
    {
      var trigger, repairRequestId: Option<string> := InitialAttempt, None;
      while true
        invariant InStep(k) && records[k].status.Running? && Stores(k) && OnlyEnvironment(arbiter.candidates)
        invariant HasRoom(records[k].attempts, trigger) && (trigger.ManualAttempt? <==> repairRequestId.Some?)
        invariant SameBut(k, old(records), records)
        invariant CalledOnly(workflow, k, old(calls), calls) && AllRepeatable(workflow, calls, |old(calls)|, |calls|)
        invariant steps.states == old(steps.states)[workflow.steps[k].id := records[k].status]
        decreases MAX_TOTAL_ATTEMPTS - |records[k].attempts|
      {
        var elapsed := RecordDeadlineIfElapsed();
        var primary := ChoosePrimary();
        if primary.Some? {
          return None;
        }
        label Attempt:
        var next;
        next, stepError := TryStep(k, trigger, repairRequestId);
        CalledOnlyChains(workflow, k, old(calls), old@Attempt(calls), calls);
        if next.None? {
          return;
        }
        trigger, repairRequestId := next.value.0, next.value.1;
      }
    }

    // ---------- Steps ----------

    // Step k succeeded, and the engine may go on.
    ghost predicate StepDone(k: nat)
      reads this, run, steps, arbiter, outputs
    {
      && Local(k) && Settled(records[k]) && Mirrors(records[k].attempts, AnswersOn(calls, k))
      && run.current.RunRunning? && steps.runningStepId.None? && OnlyEnvironment(arbiter.candidates)
      && Stores(k + 1)
    }

    // The run ends at step k, before or after the step was started.
    ghost predicate StepEnded(k: nat, p: Candidate)
      reads this, run, steps, arbiter
    {
      && Local(k) && steps.runningStepId.None?
      && (run.current.RunRunning? || run.current.RunWaitingForApproval? || run.current.RunWaitingForRepair?)
      && EndsAt(workflow, records[k], calls, repairs, k, p) && !p.cause.AdapterStartFailure?
      && Chosen(p)
    }

    // The last word on step k, from the cause that won or from none.
    method CloseStep(k: nat, primary: Option<Candidate>)
      requires InStep(k) && (primary.None? ==> records[k].status.Running?)
      modifies this`records, this`aborted, this`timerFired, steps, arbiter
      ensures Local(k) && steps.runningStepId.None?
      ensures SameBut(k, old(records), records)
      ensures steps.states == old(steps.states)[workflow.steps[k].id := records[k].status]
      ensures records[k].finishedAt.Some?
      ensures records[k] == old(records)[k].(
                              finishedAt := records[k].finishedAt,
                              error := if primary.Some? then Some(primary.value.code) else None,
                              status := if primary.Some? then StepStatusFor(primary.value.cause) else Succeeded)
      ensures Louder(old(arbiter.candidates), arbiter.candidates) && arbiter.locked == old(arbiter.locked)
    {
      var now: int := *;
      if primary.Some? {
        records := records[k := records[k].(finishedAt := Some(now), error := Some(primary.value.code))];
        TransitionStep(k, StepStatusFor(primary.value.cause));
      } else {
        records := records[k := records[k].(finishedAt := Some(now))];
        TransitionStep(k, Succeeded);
      }
    }

    method EndStep(k: nat, stepError: Option<ErrorCode>) returns (primary: Option<Candidate>)
      requires Concluded(k, stepError)
      modifies this`records, this`aborted, this`timerFired, steps, arbiter
      ensures SameBut(k, old(records), records)
      ensures steps.states == old(steps.states)[workflow.steps[k].id := records[k].status]
      ensures primary.None? ==> StepDone(k)
      ensures primary.Some? ==> StepEnded(k, primary.value)
    {
      var elapsed := RecordDeadlineIfElapsed();
      if stepError.Some? {
        RecordFor(k, if IsTimeout(stepError.value) then StepTimedOut else StepFailure, stepError.value);
      }
      primary := ChoosePrimary();
      CloseStep(k, primary);
    }

    method StartStep(k: nat) returns (primary: Option<Candidate>)
      requires Local(k) && Untouched(records[k]) && AnswersOn(calls, k) == []
      requires run.current.RunRunning? && steps.runningStepId.None? && OnlyEnvironment(arbiter.candidates)
      modifies this`records, this`aborted, this`timerFired, steps, arbiter
      ensures SameBut(k, old(records), records)
      ensures steps.states == old(steps.states)[workflow.steps[k].id := records[k].status]
      ensures primary.None? ==>
                && InStep(k) && records[k].status.Running? && records[k].attempts == []
                && OnlyEnvironment(arbiter.candidates)
      ensures primary.Some? ==> StepEnded(k, primary.value)
    {
      var elapsed := RecordDeadlineIfElapsed();
      primary := ChoosePrimary();
      if primary.Some? {
        return;
      }
      var now: int := *;
      if deadlineMs - now <= 0 {
        arbiter.Record(Candidate(TotalTimeout, deadlineMs, TotalExecutionTimeout, None));
        primary := ChoosePrimary();
        return;
      }
      records := records[k := records[k].(startedAt := Some(now))];
      TransitionStep(k, Running);
    }

    method AttemptStep(k: nat) returns (finished: bool, stepError: Option<ErrorCode>)
      requires InStep(k) && Stores(k) && OnlyEnvironment(arbiter.candidates)
      requires records[k].status.Running? && records[k].attempts == []
      modifies this`records, this`calls, this`repairs, this`aborted, this`timerFired, run, steps, arbiter, outputs
      ensures SameBut(k, old(records), records) && CalledOnly(workflow, k, old(calls), calls)
      ensures steps.states == old(steps.states)[workflow.steps[k].id := records[k].status]
      ensures finished ==> StepDone(k)
      ensures !finished ==> Concluded(k, stepError)
    {
      if workflow.steps[k].action.Approval? {
        finished, stepError := RunApproval(k);
        if finished {
          NothingProduced(workflow.steps, k, outputs.values);
        }
      } else {
        finished := false;
        stepError := RunAttempts(k);
      }
    }

    method RunStep(k: nat) returns (primary: Option<Candidate>)
      requires Local(k) && Untouched(records[k]) && AnswersOn(calls, k) == [] && Stores(k)
      requires run.current.RunRunning? && steps.runningStepId.None? && OnlyEnvironment(arbiter.candidates)
      modifies this`records, this`calls, this`repairs, this`aborted, this`timerFired, run, steps, arbiter, outputs
      ensures SameBut(k, old(records), records) && CalledOnly(workflow, k, old(calls), calls)
      ensures steps.states == old(steps.states)[workflow.steps[k].id := records[k].status]
      ensures primary.None? ==> StepDone(k)
      ensures primary.Some? ==> StepEnded(k, primary.value)
    {
      primary := StartStep(k);
      if primary.Some? {
        return;
      }
      var finished, stepError := AttemptStep(k);
      if !finished {
        primary := EndStep(k, stepError);
      }
    }

    // ---------- Runs ----------

    method Advance(k: nat) returns (primary: Option<Candidate>)
      requires AtStep(k) && k < |records|
      modifies this`records, this`calls, this`repairs, this`aborted, this`timerFired, run, steps, arbiter, outputs
      ensures Consistent()
      ensures primary.None? ==> AtStep(k + 1)
      ensures primary.Some? ==> Around(workflow, records, calls, k) && StepEnded(k, primary.value)
    {
      primary := RunStep(k);
      AroundGrown(workflow, old(records), old(calls), k, records, calls);
      SyncedMoved(workflow, old(records), old(steps.states), k, records, steps.states);
      if primary.None? {
        StepSettled(workflow, records, calls, k);
      }
    }

    // The steps in order, until something ends the run.
    method RunSteps() returns (primary: Option<Candidate>, reached: nat)
      requires AtStep(0)
      modifies this`records, this`calls, this`repairs, this`aborted, this`timerFired, run, steps, arbiter, outputs
      ensures Consistent() && reached <= |records|
      ensures primary.None? ==> reached == |records| && AtStep(reached)
      ensures primary.Some? ==> Around(workflow, records, calls, reached) && StepEnded(reached, primary.value)
    {
      primary, reached := None, 0;
      while reached < |records|
        invariant reached <= |records| && AtStep(reached)
      {
        primary := Advance(reached);
        if primary.Some? {
          return;
        }
        reached := reached + 1;
      }
      primary := None;
    }

    // Every step that has not been started is skipped.
    method SkipPending(reason: SkipReason)
      requires Consistent() && steps.runningStepId.None?
      modifies this`records, this`aborted, this`timerFired, steps, arbiter
      ensures Consistent() && |records| == |old(records)| && arbiter.locked == old(arbiter.locked)
      ensures forall i :: 0 <= i < |records| ==>
                if old(records)[i].status.Pending? then
                  && records[i].finishedAt.Some?
                  && records[i] == old(records)[i].(status := Skipped, skippedReason := Some(reason), finishedAt := records[i].finishedAt)
                else records[i] == old(records)[i]
    {
      for k := 0 to |records|
        invariant Consistent() && |records| == |old(records)| && steps.runningStepId.None? && arbiter.locked == old(arbiter.locked)
        invariant forall i :: k <= i < |records| ==> records[i] == old(records)[i]
        invariant forall i :: 0 <= i < k ==>
                    if old(records)[i].status.Pending? then
                      && records[i].finishedAt.Some?
                      && records[i] == old(records)[i].(status := Skipped, skippedReason := Some(reason), finishedAt := records[i].finishedAt)
                    else records[i] == old(records)[i]
      {
        if records[k].status.Pending? {
          label Step:
          var now: int := *;
          records := records[k := records[k].(skippedReason := Some(reason), finishedAt := Some(now))];
          TransitionStep(k, Skipped);
          SyncedMoved(workflow, old@Step(records), old@Step(steps.states), k, records, steps.states);
        }
      }
    }

    method StartAdapter() returns (primary: Option<Candidate>)
      requires arbiter.Valid() && arbiter.candidates == [] && run.current.Validating?
      modifies this`deadlineMs, this`starts, this`aborted, this`timerFired, run, arbiter
      ensures arbiter.Valid() && run.current.Starting? && starts == old(starts) + 1
      ensures primary.None? ==> arbiter.candidates == []
      ensures primary.Some? ==> StartsNothing(primary.value) && Chosen(primary.value)
    {
      var now: int := *;
      deadlineMs := now + options.totalTimeoutMs;
      Interfere();
      TransitionRun(Starting);
      starts := starts + 1;
      var exception: Option<ErrorCode> := *;
      Interfere();
      if exception.Some? {
        var failedAt: int := *;
        arbiter.Record(Candidate(AdapterStartFailure, failedAt, exception.value, None));
      }
      var elapsed := RecordDeadlineIfElapsed();
      primary := ChoosePrimary();
    }

    // The run has ended early: the rest is skipped and the run is on its way to its final state.
    method EndEarly(reached: nat, p: Candidate)
      requires Consistent() && steps.runningStepId.None?
      requires Around(workflow, records, calls, reached) && EndsAt(workflow, records[reached], calls, repairs, reached, p)
      requires run.current.Starting? ==> StartsNothing(p)
      requires run.current in {Starting, RunRunning, RunWaitingForApproval, RunWaitingForRepair}
      modifies this`records, this`aborted, this`timerFired, run, steps, arbiter
      ensures Consistent() && FailFast(workflow, records, calls, repairs, reached, p) && arbiter.locked == old(arbiter.locked)
      ensures run.current == if Cancels(p.cause) then Cancelling else TerminalStatusFor(p.cause)
    {
      SkipPending(SkipReasonFor(p.cause));
      SkippedRest(workflow, old(records), records, calls, repairs, reached, p);
      TransitionRun(if Cancels(p.cause) then Cancelling else TerminalStatusFor(p.cause));
    }

    // The start of the adapter: the first step is next, or the run has ended.
    method BeginRun() returns (primary: Option<Candidate>)
      requires Consistent() && Fresh() && run.current.Validating? && workflow.steps != []
      modifies this`aborted, this`timerFired, this`deadlineMs, this`starts, run, arbiter
      ensures Consistent() && starts == 1 && steps.runningStepId.None?
      ensures primary.None? ==> AtStep(0)
      ensures primary.Some? ==>
                && Around(workflow, records, calls, 0) && run.current.Starting?
                && EndsAt(workflow, records[0], calls, repairs, 0, primary.value) && StartsNothing(primary.value)
                && Chosen(primary.value)
    {
      NothingCalled(workflow, records);
      primary := StartAdapter();
      if primary.None? {
        TransitionRun(RunRunning);
      }
    }

    method RunStarted() returns (primary: Option<Candidate>, reached: nat)
      requires Consistent() && Fresh() && run.current.Validating? && workflow.steps != []
      modifies this`records, this`calls, this`repairs, this`aborted, this`timerFired, this`deadlineMs, this`starts
      modifies run, steps, arbiter, outputs
      ensures Consistent() && starts == 1 && steps.runningStepId.None?
      ensures primary.None? ==> reached == |records| && AtStep(reached)
      ensures primary.Some? ==>
                && Around(workflow, records, calls, reached)
                && EndsAt(workflow, records[reached], calls, repairs, reached, primary.value)
                && (run.current.Starting? ==> StartsNothing(primary.value)) && Chosen(primary.value)
                && run.current in {Starting, RunRunning, RunWaitingForApproval, RunWaitingForRepair}
    {
      reached := 0;
      primary := BeginRun();
      if primary.None? {
        primary, reached := RunSteps();
      }
    }

    method RunToEnd() returns (primary: Option<Candidate>, reached: nat)
      requires Consistent() && Fresh() && run.current.Validating? && workflow.steps != []
      modifies this`records, this`calls, this`repairs, this`aborted, this`timerFired, this`deadlineMs, this`starts
      modifies run, steps, arbiter, outputs
      ensures Consistent() && starts == 1 && CallsSafe(workflow, calls)
      ensures RunEnded(workflow, records, calls, repairs, reached, primary) && (primary.Some? ==> Chosen(primary.value))
      ensures primary.None? ==> forall d :: d in DefineOutputs(workflow) ==> d.name in outputs.values
      ensures run.current ==
              if primary.None? then RunRunning
              else if Cancels(primary.value.cause) then Cancelling
              else TerminalStatusFor(primary.value.cause)
    {
      primary, reached := RunStarted();
      if primary.Some? {
        EndEarly(reached, primary.value);
      } else {
        EveryOutputProduced(workflow, outputs.values);
      }
    }

    // The adapter is stopped whatever happened, and the outputs are forgotten.
    method StopAdapter() returns (cleanup: Option<ErrorCode>, summaries: seq<(OutputDefinition, bool)>)
      requires arbiter.Valid()
      modifies this`stops, this`aborted, this`timerFired, arbiter, outputs
      ensures arbiter.Valid() && arbiter.locked == old(arbiter.locked)
      ensures outputs.values == map[] && stops == old(stops) + 1
      ensures |summaries| == |outputs.definitions|
      ensures forall i :: 0 <= i < |summaries| ==>
                summaries[i].0 == outputs.definitions[i] && (summaries[i].1 <==> outputs.definitions[i].name in old(outputs.values))
    {
      stops := stops + 1;
      cleanup := *;
      Interfere();
      summaries := outputs.Summaries();
      outputs.Clear();
    }

    method FinishRun(primary: Option<Candidate>, cleanup: Option<ErrorCode>)
      requires arbiter.Valid()
      requires run.current ==
               if primary.None? then RunRunning
               else if Cancels(primary.value.cause) then Cancelling
               else TerminalStatusFor(primary.value.cause)
      modifies this`aborted, this`timerFired, run, arbiter
      ensures arbiter.Valid() && arbiter.locked == old(arbiter.locked)
      ensures run.current == FinalStatus(primary, cleanup) && IsFinal(run.current)
    {
      if primary.Some? {
        if Cancels(primary.value.cause) {
          TransitionRun(RunCancelled);
        }
      } else if cleanup.Some? {
        TransitionRun(RunFailed);
      } else {
        TransitionRun(RunSucceeded);
      }
    }

    method FinalResult(
      primary: Option<Candidate>, reached: nat, cleanup: Option<ErrorCode>, summaries: seq<(OutputDefinition, bool)>)
      returns (result: Option<RunResult>)
      requires RunEnded(workflow, records, calls, repairs, reached, primary) && run.current == FinalStatus(primary, cleanup)
      requires |summaries| == |DefineOutputs(workflow)|
      requires forall i :: 0 <= i < |summaries| ==>
                 summaries[i].0 == DefineOutputs(workflow)[i] && (primary.None? ==> summaries[i].1)
      ensures result.None? <==> primary.Some? && ClashesAt(calls, reached, primary.value)
      ensures result.Some? ==> ResultFits(workflow, records, primary, cleanup, result.value)
    {
      ResultRefused(workflow, records, calls, repairs, reached, primary);
      result := BuildResult(
        run.current, FinalCause(primary, cleanup), records, if primary.Some? then Some(primary.value.code) else cleanup,
        if primary.Some? then primary.value.stepId else None, summaries);
    }

    // The end of every prepared run: the adapter is stopped and the result is built.
    method Conclude(primary: Option<Candidate>, reached: nat) returns (result: Option<RunResult>, cleanup: Option<ErrorCode>)
      requires arbiter.Valid() && outputs.definitions == DefineOutputs(workflow)
      requires RunEnded(workflow, records, calls, repairs, reached, primary)
      requires primary.None? ==> forall d :: d in DefineOutputs(workflow) ==> d.name in outputs.values
      requires run.current ==
               if primary.None? then RunRunning
               else if Cancels(primary.value.cause) then Cancelling
               else TerminalStatusFor(primary.value.cause)
      modifies this`stops, this`aborted, this`timerFired, run, arbiter, outputs
      ensures stops == old(stops) + 1 && outputs.values == map[]
      ensures arbiter.Valid() && arbiter.locked == old(arbiter.locked)
      ensures run.current == FinalStatus(primary, cleanup) && IsFinal(run.current)
      ensures run.current.RunSucceeded? <==> cleanup.None? && forall r :: r in records ==> r.status.Succeeded?
      ensures result.None? <==> primary.Some? && ClashesAt(calls, reached, primary.value)
      ensures result.Some? ==> ResultFits(workflow, records, primary, cleanup, result.value)
    {
      var summaries;
      cleanup, summaries := StopAdapter();
      FinishRun(primary, cleanup);
      result := FinalResult(primary, reached, cleanup, summaries);
      SucceedsExactlyWhen(workflow, records, calls, repairs, reached, primary, cleanup);
    }

    // A prepared run, from the start of the adapter to its result. The run ends for the cause
    // that wins over all recorded before it was locked. No result is the exception of the
    // result schema.
    method ExecutePrepared() returns (result: Option<RunResult>, primary: Option<Candidate>, reached: nat, cleanup: Option<ErrorCode>)
      requires Consistent() && Fresh() && run.current.Validating? && workflow.steps != []
      modifies this`records, this`calls, this`repairs, this`aborted, this`timerFired, this`deadlineMs, this`starts, this`stops
      modifies run, steps, arbiter, outputs
      ensures CallsSafe(workflow, calls) && RunEnded(workflow, records, calls, repairs, reached, primary)
      ensures primary.Some? ==> Chosen(primary.value) && Wins(primary.value, arbiter.candidates)
      ensures starts == 1 && stops == 1 && outputs.values == map[]
      ensures run.current == FinalStatus(primary, cleanup) && IsFinal(run.current)
      ensures run.current.RunSucceeded? <==> cleanup.None? && forall r :: r in records ==> r.status.Succeeded?
      ensures result.None? <==> primary.Some? && ClashesAt(calls, reached, primary.value)
      ensures result.Some? ==> ResultFits(workflow, records, primary, cleanup, result.value)
    {
      primary, reached := RunToEnd();
      result, cleanup := Conclude(primary, reached);
    }

    // A run that ends before it is prepared: every step is skipped, nothing was started, and
    // every defined output is listed as not produced.
    method GiveUp(reason: SkipReason, final: RunStatus, cause: ResultCause, error: ErrorCode) returns (result: Option<RunResult>)
      requires Consistent() && Fresh()
      requires (final.RunCancelled? && (run.current.RunPending? || run.current.Validating?))
               || (final.RunFailed? && run.current.Validating?)
      modifies this`records, this`aborted, this`timerFired, run, steps, arbiter
      ensures run.current == final
      ensures forall r :: r in records ==> r.status.Skipped? && r.skippedReason == Some(reason)
      ensures result == Some(RunResult(final, cause, CountsOf(records), records, Some(error), None, NothingProducedBy(workflow)))
    {
      if final.RunCancelled? {
        TransitionRun(Cancelling);
      }
      SkipPending(reason);
      AllSkipped(old(records), records, reason);
      TransitionRun(final);
      result := BuildResult(final, cause, records, Some(error), None, NothingProducedBy(workflow));
    }

    // The whole of an execution, given what the preflight said. The signal may already be
    // aborted before the preflight, or after it.
    method Execute(refusal: Option<ErrorCode>)
      returns (result: Option<RunResult>, ghost primary: Option<Candidate>, ghost reached: nat, ghost cleanup: Option<ErrorCode>)
      requires Consistent() && Fresh() && run.current.RunPending? && (refusal.None? ==> workflow.steps != [])
      modifies this, run, steps, arbiter, outputs
      ensures CallsSafe(workflow, calls) && IsFinal(run.current)
      ensures starts <= 1 && stops == starts && outputs.values == map[]
      ensures refusal.Some? ==> starts == 0
      ensures starts == 0 ==>
                && calls == [] && result.Some? && run.current in {RunFailed, RunCancelled}
                && forall r :: r in records ==>
                     && r.status.Skipped?
                     && r.skippedReason == Some(if run.current.RunFailed? then SkipPreflightFailed else SkipRunCancelled)
      ensures starts == 0 && run.current.RunFailed? ==> refusal.Some? && result.value.error == refusal
      ensures starts == 0 ==> result.value.outputs == NothingProducedBy(workflow)
      ensures starts == 1 ==>
                && RunEnded(workflow, records, calls, repairs, reached, primary)
                && (primary.Some? ==> Wins(primary.value, arbiter.candidates))
                && run.current == FinalStatus(primary, cleanup)
                && (result.None? <==> primary.Some? && ClashesAt(calls, reached, primary.value))
                && (result.Some? ==> ResultFits(workflow, records, primary, cleanup, result.value))
      ensures result.Some? ==> result.value.status == run.current && result.value.counts == CountsOf(records)
      ensures run.current.RunSucceeded? <==> starts == 1 && cleanup.None? && forall r :: r in records ==> r.status.Succeeded?
    {
      primary, reached, cleanup := None, 0, None;
      var abortedBefore: bool := *;
      var abortedAfter: bool := *;
      if !abortedBefore {
        var ok := run.Transition(Validating);
        assert ok;
      }
      if abortedBefore || abortedAfter {
        result := GiveUp(SkipRunCancelled, RunCancelled, Terminated(CancelledRun), ExecutionCancelled);
      } else if refusal.Some? {
        result := GiveUp(SkipPreflightFailed, RunFailed, PreflightFailed, refusal.value);
      } else {
        result, primary, reached, cleanup := ExecutePrepared();
      }
    }
  }

  function NothingProducedBy(w: Workflow): (r: seq<(OutputDefinition, bool)>)
    ensures |r| == |DefineOutputs(w)| && forall i :: 0 <= i < |r| ==> r[i] == (DefineOutputs(w)[i], false)
  {
    seq(|DefineOutputs(w)|, i requires 0 <= i < |DefineOutputs(w)| => (DefineOutputs(w)[i], false))
  }

  lemma NothingProduced(steps: seq<Step>, k: nat, values: map<string, Stored>)
    requires k < |steps| && !steps[k].action.Extract? && Preflight.HoldsOutputsOf(values, steps, k)
    ensures Preflight.HoldsOutputsOf(values, steps, k + 1)
  {
    forall name | name in values ensures exists i: nat, t :: i < k + 1 && Produces(steps, i, name, t) {
      var i: nat, t :| i < k && Produces(steps, i, name, t);
      assert i < k + 1;
    }
  }

  // A stored output extends what the steps so far have produced.
  lemma OutputStored(
    steps: seq<Step>, k: nat, before: map<string, Stored>, after: map<string, Stored>, t: ValueType, v: Value)
    requires k < |steps| && steps[k].action.Extract? && Preflight.HoldsOutputsOf(before, steps, k)
    requires Produces(steps, k, steps[k].action.outputName, t) && TypeOf(v) == t
    requires steps[k].action.outputName !in before && after == before[steps[k].action.outputName := Stored(t, v)]
    ensures Preflight.HoldsOutputsOf(after, steps, k + 1)
  {
    var name := steps[k].action.outputName;
    forall other | other in after ensures exists i: nat, u :: i < k + 1 && Produces(steps, i, other, u) {
      if other == name {
        assert Produces(steps, k, name, t);
      } else {
        var i: nat, u :| i < k && Produces(steps, i, other, u);
        assert i < k + 1;
      }
    }
  }
}
