/** The state machines of a run and of its steps, and the arbiter between the causes that
    may end a run. */
module StateMachines {
  import opened Outcomes
  import opened Recovery
  import Sorting

  // ---------- Runs ----------

  datatype RunStatus =
    | RunPending | Validating | Starting | RunRunning | RunWaitingForApproval | RunWaitingForRepair | Cancelling
    | RunSucceeded | RunFailed | RunCancelled | RunTimedOut | RunInterrupted

  function RunTransitions(s: RunStatus): set<RunStatus> {
    match s
    case RunPending => {Validating, Cancelling}
    case Validating => {Starting, Cancelling, RunFailed}
    case Starting => {RunRunning, Cancelling, RunFailed, RunTimedOut}
    case RunRunning =>
      {RunWaitingForApproval, RunWaitingForRepair, Cancelling, RunSucceeded, RunFailed, RunTimedOut, RunInterrupted}
    case RunWaitingForApproval => {RunRunning, Cancelling, RunFailed, RunTimedOut, RunInterrupted}
    case RunWaitingForRepair => {RunRunning, Cancelling, RunFailed, RunTimedOut, RunInterrupted}
    case Cancelling => {RunCancelled}
    case _ => {}
  }

  predicate IsFinal(s: RunStatus) {
    s.RunSucceeded? || s.RunFailed? || s.RunCancelled? || s.RunTimedOut? || s.RunInterrupted?
  }

  // The final states are the states that a run never leaves.
  lemma FinalStatesAreAbsorbing(s: RunStatus)
    ensures RunTransitions(s) == {} <==> IsFinal(s)
  {
    match s {
      case RunPending => assert Validating in RunTransitions(s);
      case Validating => assert Starting in RunTransitions(s);
      case Starting => assert RunRunning in RunTransitions(s);
      case RunRunning => assert RunSucceeded in RunTransitions(s);
      case RunWaitingForApproval => assert RunRunning in RunTransitions(s);
      case RunWaitingForRepair => assert RunRunning in RunTransitions(s);
      case Cancelling => assert RunCancelled in RunTransitions(s);
      case _ =>
    }
  }

  class RunStateMachine {
    var current: RunStatus

    constructor ()
      ensures current == RunPending
    {
      current := RunPending;
    }

    // A transition outside the table throws and changes nothing.
    method Transition(next: RunStatus) returns (ok: bool)
      modifies this
      ensures ok <==> next in RunTransitions(old(current))
      ensures current == if ok then next else old(current)
    {
      ok := next in RunTransitions(current);
      if ok {
        current := next;
      }
    }
  }

  // ---------- Steps ----------

  datatype StepStatus =
    | Pending | Running | WaitingForApproval | WaitingForRepair
    | Succeeded | Failed | Cancelled | TimedOut | Skipped | Interrupted

  function StepTransitions(s: StepStatus): set<StepStatus> {
    match s
    case Pending => {Running, Skipped}
    case Running => {WaitingForApproval, WaitingForRepair, Succeeded, Failed, Cancelled, TimedOut, Interrupted}
    case WaitingForApproval => {Succeeded, Failed, Cancelled, TimedOut, Interrupted}
    case WaitingForRepair => {Running, Failed, Cancelled, TimedOut, Interrupted}
    case _ => {}
  }

  predicate CanMove(states: map<string, StepStatus>, running: Option<string>, id: string, next: StepStatus) {
    && id in states
    && next in StepTransitions(states[id])
    && (next.Running? ==> running == None || running == Some(id))
  }

  class StepStateMachine {
    var states: map<string, StepStatus>
    var runningStepId: Option<string>

    // The field names exactly the step that is running, so at most one step is.
    ghost predicate Valid()
      reads this
    {
      forall id :: id in states ==> (states[id].Running? <==> runningStepId == Some(id))
    }

    constructor (ids: seq<string>)
      ensures Valid() && runningStepId == None
      ensures states == map id | id in ids :: Pending
    {
      states := map id | id in ids :: Pending;
      runningStepId := None;
    }

    method Transition(id: string, next: StepStatus) returns (ok: bool)
      requires Valid()
      modifies this
      ensures Valid()
      ensures ok <==> CanMove(old(states), old(runningStepId), id, next)
      ensures states == if ok then old(states)[id := next] else old(states)
      ensures runningStepId ==
              if ok && next.Running? then Some(id)
              else if ok && old(states)[id].Running? then None
              else old(runningStepId)
    {
      if id !in states || next !in StepTransitions(states[id]) {
        return false;
      }
      var current := states[id];
      if next.Running? && runningStepId.Some? && runningStepId != Some(id) {
        return false;
      }
      if next.Running? {
        runningStepId := Some(id);
      } else if current.Running? {
        runningStepId := None;
      }
      states := states[id := next];
      ok := true;
    }
  }

  // ---------- Termination ----------

  datatype Cause =
    | AdapterStartFailure | StepFailure | StepTimedOut | CancelledRun | TotalTimeout
    | RejectedApproval | ExpiredApproval | InvalidatedApproval
    | AbortedRepair | ExpiredRepair | InvalidatedRepair

  datatype Candidate = Candidate(cause: Cause, atMs: int, code: ErrorCode, stepId: Option<string>)

  datatype Entry = Entry(candidate: Candidate, sequence: nat)

  function TiePriority(c: Cause): nat {
    match c
    case TotalTimeout => 0
    case CancelledRun => 1
    case _ => 2
  }

  // Earlier in time, then by priority, then as recorded.
  predicate Before(a: Entry, b: Entry) {
    if a.candidate.atMs != b.candidate.atMs then a.candidate.atMs < b.candidate.atMs
    else if TiePriority(a.candidate.cause) != TiePriority(b.candidate.cause) then
      TiePriority(a.candidate.cause) < TiePriority(b.candidate.cause)
    else a.sequence <= b.sequence
  }

  ghost predicate Wins(c: Candidate, entries: seq<Entry>) {
    exists e :: e in entries && e.candidate == c && forall other :: other in entries ==> Before(e, other)
  }

  // At most one candidate can win.
  lemma WinnerIsUnique(c: Candidate, d: Candidate, entries: seq<Entry>)
    requires forall i :: 0 <= i < |entries| ==> entries[i].sequence == i
    requires Wins(c, entries) && Wins(d, entries)
    ensures c == d
  {
    var e :| e in entries && e.candidate == c && forall other :: other in entries ==> Before(e, other);
    var g :| g in entries && g.candidate == d && forall other :: other in entries ==> Before(g, other);
    assert Before(e, g) && Before(g, e);
  }

  // When several causes strike at one instant, the total timeout ends the run, and otherwise
  // the cancellation does, whatever was recorded first.
  lemma SimultaneousCauses(c: Candidate, entries: seq<Entry>)
    requires Wins(c, entries)
    requires forall e :: e in entries ==> e.candidate.atMs == c.atMs
    ensures (exists e :: e in entries && e.candidate.cause.TotalTimeout?) ==> c.cause.TotalTimeout?
    ensures (exists e :: e in entries && e.candidate.cause.CancelledRun?) ==> c.cause.TotalTimeout? || c.cause.CancelledRun?
  {
    var w :| w in entries && w.candidate == c && forall other :: other in entries ==> Before(w, other);
    forall e | e in entries ensures TiePriority(c.cause) <= TiePriority(e.candidate.cause) {
      assert Before(w, e);
    }
  }

  lemma BeforeIsTotal()
    ensures Sorting.TotalPreorder(Before)
  {}

  class TerminationArbiter {
    var candidates: seq<Entry>
    var locked: Option<Entry>

    ghost predicate Valid()
      reads this
    {
      && (forall i :: 0 <= i < |candidates| ==> candidates[i].sequence == i)
      && (locked.Some? ==> locked.value in candidates && Wins(locked.value.candidate, candidates))
    }

    constructor ()
      ensures Valid() && candidates == [] && locked == None
    {
      candidates, locked := [], None;
    }

    // Once a winner is locked, nothing is recorded any more.
    method Record(c: Candidate)
      requires Valid()
      modifies this
      ensures Valid() && locked == old(locked)
      ensures candidates == if locked.Some? then old(candidates) else old(candidates) + [Entry(c, |old(candidates)|)]
    {
      if locked.Some? {
        return;
      }
      candidates := candidates + [Entry(c, |candidates|)];
    }

    // The first call locks the winner of what has been recorded; it stays the winner.
    method LockWinner() returns (winner: Option<Candidate>)
      requires Valid()
      modifies this
      ensures Valid() && candidates == old(candidates)
      ensures winner.None? <==> candidates == []
      ensures winner == if locked.Some? then Some(locked.value.candidate) else None
      ensures old(locked).Some? ==> locked == old(locked)
      ensures winner.Some? ==> Wins(winner.value, candidates)
    {
      if locked.Some? {
        return Some(locked.value.candidate);
      }
      var sorted := Sorting.Sort(Before, candidates);
      Sorting.SortPermutes(Before, candidates);
      Sorting.SortMembers(Before, candidates);
      if sorted == [] {
        return None;
      }
      BeforeIsTotal();
      Sorting.SortSorts(Before, candidates);
      assert sorted[0] in sorted;
      forall other | other in candidates ensures Before(sorted[0], other) {
        assert other in sorted;
      }
      locked := Some(sorted[0]);
      winner := Some(sorted[0].candidate);
    }
  }

  // ---------- What a cause means for the run, the step and the steps after it ----------

  datatype SkipReason =
    | SkipPreflightFailed | SkipAdapterStartFailed | SkipPriorStepFailed | SkipRunCancelled | SkipRunTimedOut
    | SkipApprovalRejected | SkipApprovalExpired | SkipApprovalInvalidated
    | SkipRepairAborted | SkipRepairExpired | SkipRepairInvalidated

  function SkipReasonFor(c: Cause): SkipReason {
    match c
    case AdapterStartFailure => SkipAdapterStartFailed
    case CancelledRun => SkipRunCancelled
    case TotalTimeout => SkipRunTimedOut
    case RejectedApproval => SkipApprovalRejected
    case ExpiredApproval => SkipApprovalExpired
    case InvalidatedApproval => SkipApprovalInvalidated
    case AbortedRepair => SkipRepairAborted
    case ExpiredRepair => SkipRepairExpired
    case InvalidatedRepair => SkipRepairInvalidated
    case StepFailure => SkipPriorStepFailed
    case StepTimedOut => SkipPriorStepFailed
  }

  function TerminalStatusFor(c: Cause): RunStatus {
    match c
    case CancelledRun => RunCancelled
    case TotalTimeout => RunTimedOut
    case RejectedApproval => RunCancelled
    case AbortedRepair => RunCancelled
    case ExpiredApproval => RunTimedOut
    case ExpiredRepair => RunTimedOut
    case InvalidatedApproval => RunInterrupted
    case InvalidatedRepair => RunInterrupted
    case AdapterStartFailure => RunFailed
    case StepFailure => RunFailed
    case StepTimedOut => RunFailed
  }

  // The status of the step that was under way.
  function StepStatusFor(c: Cause): StepStatus {
    if c.CancelledRun? || c.RejectedApproval? || c.AbortedRepair? then Cancelled
    else if c.TotalTimeout? || c.StepTimedOut? || c.ExpiredApproval? || c.ExpiredRepair? then TimedOut
    else if c.InvalidatedApproval? || c.InvalidatedRepair? then Interrupted
    else Failed
  }

  predicate Cancels(c: Cause) {
    c.CancelledRun? || c.RejectedApproval? || c.AbortedRepair?
  }

  // The step that is under way ends as the run does, except that a step timeout is a failed
  // run; the runs that pass through `cancelling` are exactly those that end cancelled; and
  // the skip reason tells every pair of causes apart but the two of a failed step.
  lemma StatusesAgree(c: Cause, d: Cause)
    ensures StepStatusFor(c).Cancelled? <==> TerminalStatusFor(c).RunCancelled?
    ensures StepStatusFor(c).Interrupted? <==> TerminalStatusFor(c).RunInterrupted?
    ensures StepStatusFor(c).TimedOut? <==> TerminalStatusFor(c).RunTimedOut? || c.StepTimedOut?
    ensures StepStatusFor(c).Failed? <==> TerminalStatusFor(c).RunFailed? && !c.StepTimedOut?
    ensures Cancels(c) <==> TerminalStatusFor(c).RunCancelled?
    ensures SkipReasonFor(c) == SkipReasonFor(d) ==> c == d || {c, d} == {StepFailure, StepTimedOut}
  {}
}
