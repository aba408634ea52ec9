/** What the log of an execution proves about every run of an accepted workflow, and when a
    finished run is thrown away by the schema of its own result. */
module EngineSafety {
  import opened Outcomes
  import opened Workflows
  import opened InputAnalysis
  import opened Recovery
  import opened RuntimeValues
  import opened StateMachines
  import opened Results
  import opened Engine
  import Approvals
  import ExtractionAnalysis
  import Preflight

  // Checked workflows do not go wrong: at every call of every run, the source of the step
  // resolves to a value of an accepted type, and an offered output is new and declared.
  lemma AcceptedRunsDoNotGoWrong(s: Preflight.Surroundings, q: Preflight.Request, calls: seq<Call>, i: nat)
    requires Preflight.Admissible(s, q)
    requires CallsSafe(q.workflow.value, calls) && i < |calls|
    ensures calls[i].step < |q.workflow.value.steps|
    ensures var w, c := q.workflow.value, calls[i];
            && (StepSource(w.steps[c.step].action).Some? ==>
                  var (source, target) := StepSource(w.steps[c.step].action).value;
                  var r := ResolveWithOutputs(Preflight.EffectiveResolver(s, q.inputs.value), c.outputs, source, target);
                  r.Ok? && TypeOf(r.value) in VariableTypes(target))
            && (c.offered.Some? ==> c.refused == None || c.refused == Some(OutputTypeMismatch))
  {
    var w, c := q.workflow.value, calls[i];
    assert CallSafe(w, calls, i);
    if StepSource(w.steps[c.step].action).Some? {
      Preflight.AcceptedSourcesResolve(s, q, c.step, c.outputs);
    }
    if c.offered.Some? {
      Preflight.AcceptedOutputsAreNew(w, c.step, c.outputs, c.offered.value.0, c.offered.value.1);
    }
  }

  // What holds of a call in a run of an accepted request.
  ghost predicate DoesNotGoWrong(s: Preflight.Surroundings, q: Preflight.Request, c: Call) {
    && Preflight.Admissible(s, q) && c.step < |q.workflow.value.steps|
    && (StepSource(q.workflow.value.steps[c.step].action).Some? ==>
          var (source, target) := StepSource(q.workflow.value.steps[c.step].action).value;
          var r := ResolveWithOutputs(Preflight.EffectiveResolver(s, q.inputs.value), c.outputs, source, target);
          r.Ok? && TypeOf(r.value) in VariableTypes(target))
    && (c.offered.Some? ==> c.refused == None || c.refused == Some(OutputTypeMismatch))
  }

  // A request from the gate to its result: nothing is called, and the adapter is not started,
  // unless the request is admissible; then no call goes wrong, and the run ends as every run does.
  method ExecuteRequest(s: Preflight.Surroundings, q: Preflight.Request)
    returns (e: Execution, result: Option<RunResult>, ghost primary: Option<Candidate>, ghost reached: nat, ghost cleanup: Option<ErrorCode>)
    requires q.workflow.Some? ==> WellFormed(q.workflow.value)
    requires forall values, name :: name in s.sortedNames(values) <==> name in values
    ensures q.workflow.Some? ==> e.workflow == q.workflow.value
    ensures CallsSafe(e.workflow, e.calls) && e.starts <= 1 && e.stops == e.starts && e.outputs.values == map[]
    ensures e.starts == 1 || e.calls != [] ==> Preflight.Admissible(s, q)
    ensures forall c :: c in e.calls ==> DoesNotGoWrong(s, q, c)
    ensures e.starts == 0 ==>
              && e.calls == [] && result.Some? && e.run.current in {RunFailed, RunCancelled}
              && (forall r :: r in e.records ==> r.status.Skipped?)
              && result.value.outputs == NothingProducedBy(e.workflow)
              && (e.run.current.RunFailed? ==> !Preflight.Admissible(s, q))
    ensures e.starts == 1 ==>
              && RunEnded(e.workflow, e.records, e.calls, e.repairs, reached, primary)
              && (primary.Some? ==> Wins(primary.value, e.arbiter.candidates))
              && e.run.current == FinalStatus(primary, cleanup)
              && (result.None? <==> primary.Some? && ClashesAt(e.calls, reached, primary.value))
              && (result.Some? ==> ResultFits(e.workflow, e.records, primary, cleanup, result.value))
    ensures e.run.current.RunSucceeded? <==> e.starts == 1 && cleanup.None? && forall r :: r in e.records ==> r.status.Succeeded?
    ensures IsFinal(e.run.current) && (result.Some? ==> result.value.status == e.run.current)
  {
    var preflight := Preflight.PreflightWorkflowExecution(s, q);
    var w := if q.workflow.Some? then q.workflow.value else Workflow([], []);
    var options := if preflight.Accepted? then preflight.prepared.options else Preflight.Options(0, 0, SafeOnly);
    e := new Execution(w, options, s.approvalCoordinator, s.recoveryCoordinator);
    result, primary, reached, cleanup := e.Execute(if preflight.Accepted? then None else Some(preflight.code));
    forall c | c in e.calls ensures DoesNotGoWrong(s, q, c) {
      var i :| 0 <= i < |e.calls| && e.calls[i] == c;
      AcceptedRunsDoNotGoWrong(s, q, e.calls, i);
    }
  }

  // The data flow analysis is exact: it finds a producer for a reference to an output if and
  // only if, in whatever run, the reference resolves at a call of its step, and it is not the
  // address of a navigation, for which it admits none.
  lemma RejectedReferencesGoWrong(w: Workflow, calls: seq<Call>, i: nat, name: string, target: Target)
    requires CallsSafe(w, calls) && i < |calls| && calls[i].step < |w.steps|
    requires StepSource(w.steps[calls[i].step].action) == Some((FromOutput(name), target))
    ensures ExtractionAnalysis.ProducedBefore(w.steps, calls[i].step, name, target)
       <==> target != NavigateUrl && GetOutput(calls[i].outputs, name, VariableTypes(target)).Ok?
  {
    assert CallSafe(w, calls, i);
    Preflight.ReferenceResolvesExactlyWhen(w.steps, calls[i].step, name, target, calls[i].outputs);
  }

  // ---------- Gated steps ----------

  lemma {:induction false} ApprovalsAreDecided(w: Workflow, calls: seq<Call>, m: nat, n: nat)
    requires CallsSafe(w, calls) && n <= |calls| && m < |w.steps| && w.steps[m].action.Approval?
    ensures forall a :: a in AnswersUpTo(calls, m, n) ==> !a.Done?
  {
    if n > 0 {
      ApprovalsAreDecided(w, calls, m, n - 1);
      assert CallSafe(w, calls, n - 1);
    }
  }

  // A step that an approval gates is only ever called after that approval was given.
  lemma GatedCallsAreApproved(w: Workflow, calls: seq<Call>, i: nat)
    requires CallsSafe(w, calls) && i < |calls| && calls[i].step > 0
    requires Approvals.Gates(w.steps, calls[i].step - 1)
    ensures var answers := AnswersUpTo(calls, calls[i].step - 1, i);
            answers != [] && answers[|answers| - 1] == Decided(IsApproved)
  {
    assert CallSafe(w, calls, i);
    assert EndsWell(AnswersUpTo(calls, calls[i].step - 1, i));
    ApprovalsAreDecided(w, calls, calls[i].step - 1, i);
  }

  // A step is only ever repeated after an attempt that can have had no effect, and never a
  // step that an approval gates.
  lemma EffectsAreNotRepeated(w: Workflow, calls: seq<Call>, i: nat, j: nat)
    requires CallsSafe(w, calls) && i < j < |calls| && calls[i].step == calls[j].step
    ensures calls[i].answer.Threw? && (calls[i].answer.certainty.ReadOnly? || calls[i].answer.certainty.NotStarted?)
    ensures calls[i].step > 0 ==> !Approvals.Gates(w.steps, calls[i].step - 1)
  {
    assert CallSafe(w, calls, j);
    assert MayRepeat(w, calls[i]);
  }

  // ---------- Results that are thrown away ----------

  // When the run ends for whatever cause after the last attempt of the step under way came out
  // well, the caller never gets a result: none can be built from the records. So a result of a
  // run that ended early always tells of a step that was not called, or failed.
  lemma OvertakenSuccessIsRefused(
    w: Workflow, records: seq<StepRecord>, calls: seq<Call>, repairs: seq<(nat, RepairDecision)>, reached: nat, p: Candidate,
    status: RunStatus, cause: ResultCause, error: Option<ErrorCode>, failed: Option<string>, outputs: seq<(OutputDefinition, bool)>)
    requires FailFast(w, records, calls, repairs, reached, p)
    requires EndsWell(AnswersOn(calls, reached))
    ensures BuildResult(status, cause, records, error, failed, outputs) == None
  {
    RefusedExactlyWhenClashing(w, records, calls, repairs, reached, p);
    assert ClashesAt(calls, reached, p);
  }

  // One that failed clashes only if it failed by a timeout or a cancellation, and then with
  // every cause but those that end the step in the same way.
  lemma WhichErrorsClash(c: Cause, code: ErrorCode)
    ensures ErrorClashes(c, code) <==>
            || (IsTimeout(code) && TerminalStatusFor(c) != RunTimedOut && !c.StepTimedOut?)
            || (code == ExecutionCancelled && TerminalStatusFor(c) == RunFailed && !c.StepTimedOut?)
  {
    StatusesAgree(c, c);
  }

  // The log and the records of one click, whose deadline passes while the click completes: they
  // have every property that is proved of a run, and yet the result is refused. That every such
  // run is refused is OvertakenSuccessIsRefused; this shows what one looks like.
  lemma LateTimeoutIsRefused()
    ensures var w := Workflow([], [Step("a", Click)]);
            var calls := [Call(0, Done, map[], None, None)];
            var attempt := Attempt(1, InitialAttempt, AttemptSucceeded, 0, Some(5), None, EffectCompleted, None);
            var p := Candidate(TotalTimeout, 5, TotalExecutionTimeout, None);
            var records := [StepRecord(w.steps[0], TimedOut, Some(0), Some(5), None, Some(TotalExecutionTimeout), [attempt])];
            && CallsSafe(w, calls) && FailFast(w, records, calls, [], 0, p)
            && ClashesAt(calls, 0, p)
            && BuildResult(RunTimedOut, Terminated(TotalTimeout), records, Some(TotalExecutionTimeout), None, []) == None
  {
    var w := Workflow([], [Step("a", Click)]);
    var calls := [Call(0, Done, map[], None, None)];
    var attempt := Attempt(1, InitialAttempt, AttemptSucceeded, 0, Some(5), None, EffectCompleted, None);
    var p := Candidate(TotalTimeout, 5, TotalExecutionTimeout, None);
    var records := [StepRecord(w.steps[0], TimedOut, Some(0), Some(5), None, Some(TotalExecutionTimeout), [attempt])];
    assert AnswersUpTo(calls, 0, 0) == [];
    assert AnswersOn(calls, 0) == [Done];
    assert TriggerCount([attempt], AutomaticAttempt, 0) == 0 && TriggerCount([attempt], ManualAttempt, 0) == 0;
    assert AttemptsAccepted([attempt]);
    assert CallSafe(w, calls, 0);
    RefusedExactlyWhenClashing(w, records, calls, [], 0, p);
  }
}
