# TaskTwin core models

TaskTwin records what a user does in a browser, turns the recording into a workflow, checks the
workflow, runs it on a local runner under human approval, keeps an audit trail, and notifies
people. This project models the deterministic core of that system in Dafny and proves what the
core promises, for every input, every run and every interleaving.

* **Workflows and their checker** (`Workflows`, `InputAnalysis`, `ExtractionAnalysis`,
  `Approvals`, `Preflight`, `RuntimeValues`): which sources a step may take, which outputs flow
  where, when a request to execute is admissible.
* **The workflow engine** (`StateMachines`, `Results`, `Recovery`, `Engine`, `EngineSafety`): the
  class `Execution` is the engine with its records, state machines, termination arbiter and
  output store. The adapter, the approval and repair coordinators, the clock and the abort signal
  are arbitrary choices at every wait. A call log lets properties speak about whole runs.
* **Redaction plans** (`Redaction`, with `Groups` and `Sorting`): merging rectangles to a fixpoint.
* **Recordings to workflows** (`Converter`, `Naming`, `Decimal`): the compiler and its replay
  equivalence.
* **The audit trail** (`CanonicalJson`, `AuditLog`, `AuditHash`): a printer over object graphs, the
  hash chain, and what the chain protects.
* **The notification outbox** (`Outbox`, `OutboxRuns`, `OutboxNotifications`, `OutboxOverlaps`,
  `OutboxRefinement`): a leased queue under crashing workers; its table statements are steps of the
  transition system.
* **Editing and supporting decisions** (`Renaming`, `LocatorRanking`, `RunnerUpdates`, `Retention`,
  `Acquisition`): renaming variables and outputs, ranking locators, updating the runner, keeping
  releases, resuming downloads.

## How to read it

Code that changes state step by step is a class or a method whose `ensures` ties the new state to
a specification function or says outright what holds; the laws are lemmas about that
specification. Modules follow the files of the repository; `Outcomes`, `Sorting`, `Groups` and
`Decimal` are shared.

Some properties that one might expect turn out to be false of the code. They are kept as they are
and delimited exactly:

* The engine can build a result that its own schema refuses, so that `execute` throws although
  the run came to a regular end: exactly when the last attempt of the step the run ended in
  clashes with the cause that won (`Engine.RefusedExactlyWhenClashing`, `Engine.Clash`; the log
  and records of one such run in `EngineSafety.LateTimeoutIsRefused`).
* Verification of the audit log does not notice a changed row identifier, creation time or
  spelling of a timestamp (`AuditHash.UnprotectedFields`); `AuditHash.VerifiesAlike` and
  `AuditHash.TamperEvidence` show that it is these and nothing else.
* A message of the outbox can be dead although its notification was written: in every run, exactly
  when one of its deliveries outlived its lease
  (`OutboxNotifications.DeadAndNotifiedExactlyWhen`; a concrete run in `OutboxRuns.DeadButNotified`).
* Without the assumption of one processing in flight per worker and message, a message can be stuck
  for good: in every course of events, exactly when a worker settles an earlier attempt as retryable
  while it holds the lease of the last one (`OutboxOverlaps.StuckExactlyWhen`; such a course in
  `OutboxOverlaps.AStuckMessage`), which needs an overlap (`OutboxOverlaps.StuckNeedsAnOverlap`).
  The code can break that assumption itself: when one processing of a slice rejects, `Promise.all`
  rejects with it (apps/notification-worker/src/worker.ts:31-36) while the others go on, and the loop of
  apps/notification-worker/src/index.ts:44-54 starts the next round under the same worker identifier.
* Renaming a variable to a name that a dangling reference already uses captures that reference;
  renaming back restores the workflow exactly when there is none (`Renaming.RenamingCaptures`; such a
  workflow in `Renaming.ACapturedReference`).
* Run inputs that fit are refused exactly when an optional variable goes without a value and has a
  name that every object inherits, such as `constructor`
  (`InputAnalysis.ValidateWorkflowRunInputs`, `InputAnalysis.InheritedNameIsRefused`).
* An allowed update of the runner can become impossible to roll back, exactly by creating a vault
  that the old release cannot use (`RunnerUpdates.RollbackStaysSafe`,
  `RunnerUpdates.CreatedVaultBlocksRollback`).

## Assumptions

* Redaction coordinates lie on the grid of thousandths that the code rounds to; arithmetic on the
  grid is exact. The collation of the locale is an arbitrary function `rank`, with which the source
  identifiers are compared; independence of order needs it to tell the identifiers apart.
* Values to be serialised have dense arrays and objects with plain data properties: an array with
  holes would be written without them, like another value. Numbers in JSON are given by their
  ECMAScript text.
* SHA-256, the parsing of timestamps, the heuristics on texts and identifiers, URL and origin
  handling and version comparison are arbitrary functions or given with the input, and so are the
  names that every object inherits.
* Values that the repository validates with schemas arrive parsed: step identifiers are unique, a
  workflow has a step, a recording has at most a thousand events.
* Outbox: the clock never runs backwards, worker identifiers are unique, transactions are atomic,
  and a worker has at most one processing of a message in flight. Where one message is told from
  another by alert and recipient, the table's unique key is assumed
  (packages/database/prisma/schema.prisma:531).
* Acquisition: one strong entity tag never stands for two representations (sections 8.8.1 and 8.8.3
  of RFC 9110), and a partial response tells its range truthfully (sections 14.4 and 15.3.7).

## Model

| member | source | states |
|---|---|---|
| `Workflows.FindsEverySource` | packages/workflow-inputs/src/value-source-usages.ts:15-105 | the list of located sources holds every value that a step takes, at its place, and nothing else |
| `Workflows.DefinesEveryOutput` | packages/workflow-extraction/src/output-definitions.ts:11-44 | output definitions are exactly the extractions of a supported kind |
| `InputAnalysis.BlockedExactlyWhenUnacceptable` | packages/workflow-inputs/src/analysis.ts:77-107 | a source is reported exactly when its property cannot take it, in a workflow with unique names |
| `InputAnalysis.AnalyzeWorkflowInputs` | packages/workflow-inputs/src/analysis.ts:120-219 | blocking exactly when some property cannot take its source; the usage of each variable, the secrets and the set of issues are exact |
| `InputAnalysis.ValidateWorkflowRunInputs` | packages/workflow-inputs/src/run-inputs.ts:36-108 | no issue exactly when every declared variable has a value of its kind or may go without, no value is unknown, and no variable with an inherited name goes without; every issue is one of those |
| `InputAnalysis.InheritedNameIsRefused` | packages/workflow-inputs/src/run-inputs.ts:58-69 | a workflow and fitting inputs that are refused, for an optional variable named `constructor` |
| `ExtractionAnalysis.UsesFindsUsage` | packages/workflow-extraction/src/analysis.ts:74-200 | an output counts as used exactly when some step reads it |
| `ExtractionAnalysis.BlocksExactlyWhen` | packages/workflow-extraction/src/analysis.ts:74-200 | the found issues block exactly when an extraction is unsupported, two outputs share a name, or a step reads what no earlier step produces with an accepted type |
| `ExtractionAnalysis.AnalyzeWorkflowExtraction` | packages/workflow-extraction/src/analysis.ts:74-200 | the loops and the sort report just the issues found, sorted, and block exactly when the data does not flow |
| `Approvals.AnalyzeWorkflowApprovals` | packages/workflow-approval/src/approval-analysis.ts:14-58 | each approval gates exactly the step after it; only an approval at the end is an orphan |
| `Approvals.FindsOwnBinding` | packages/workflow-approval/src/approval-analysis.ts:60-76 | with unique step identifiers an approval finds its own binding, and none exactly at the end or when the caller takes another step to be gated |
| `RuntimeValues.RuntimeOutputStore.Set` | packages/workflow-engine/src/runtime-output-store.ts:21-42 | write-once: unknown names, wrong types, other values and duplicates are refused and leave the store alone |
| `RuntimeValues.RuntimeOutputStore.Summaries` | packages/workflow-engine/src/runtime-output-store.ts:58-65 | one summary a definition, telling whether it has a value |
| `RuntimeValues.BuiltInResolvesTyped` | packages/workflow-engine/src/value-source-resolver.ts:22-92 | the built-in resolver only yields values of a type that the property takes |
| `RuntimeValues.BuiltInResolvesExactlyWhen` | packages/workflow-engine/src/value-source-resolver.ts:22-92 | exactly when the built-in resolver yields a value |
| `Preflight.CheckSteps` | packages/workflow-engine/src/preflight.ts:208-271 | the loop refuses the first step that has an error, and only that |
| `Preflight.CheckValues` | packages/workflow-engine/src/preflight.ts:153-184 | no error exactly when inputs fit or the resolver in use can give every variable and secret |
| `Preflight.PreflightWorkflowExecution` | packages/workflow-engine/src/preflight.ts:96-289 | a request is accepted exactly when it is admissible, and is then passed on unchanged |
| `Preflight.AcceptedSourcesResolve` | packages/workflow-engine/src/value-source-resolver.ts:33-126 | every source of a step of an accepted workflow resolves to a value of an accepted type, whenever the store holds the outputs of the steps before |
| `Preflight.ReferenceResolvesExactlyWhen` | packages/workflow-engine/src/runtime-output-store.ts:44-56 | an earlier step produces the output with an accepted type if and only if the reference resolves and is not the address of a navigation, for which none is accepted |
| `Preflight.AcceptedOutputsAreNew` | packages/workflow-engine/src/runtime-output-store.ts:21-42 | the extraction of an accepted workflow is never refused as unknown or duplicate; it is accepted exactly when its value has the declared type |
| `StateMachines.FinalStatesAreAbsorbing` | packages/workflow-engine/src/run-state-machine.ts:4-40 | the states without transitions are the final ones |
| `StateMachines.RunStateMachine.Transition` | packages/workflow-engine/src/run-state-machine.ts:42-58 | moves along the table, otherwise throws and changes nothing |
| `StateMachines.StepStateMachine.Transition` | packages/workflow-engine/src/step-state-machine.ts:48-84 | moves along the table with at most one step running, which it keeps track of; otherwise throws and changes nothing |
| `StateMachines.TerminationArbiter.Record` | packages/workflow-engine/src/termination-arbiter.ts:39-52 | appends with a fresh sequence number until a winner is locked |
| `StateMachines.TerminationArbiter.LockWinner` | packages/workflow-engine/src/termination-arbiter.ts:54-76 | locks the winner of all candidates, earliest first, then by priority, then by sequence; it stays the winner |
| `StateMachines.WinnerIsUnique` | packages/workflow-engine/src/termination-arbiter.ts:25-76 | at most one candidate can win |
| `StateMachines.SimultaneousCauses` | packages/workflow-engine/src/termination-arbiter.ts:25-37 | at one instant the total timeout wins over the cancellation, and both over the rest, whatever came first |
| `StateMachines.StatusesAgree` | packages/workflow-engine/src/workflow-engine.ts:100-148 | final run state, status of the step and skip reason agree for every cause; the skip reason tells all causes apart but two |
| `Results.CountsAddUp` | packages/workflow-engine/src/result-builder.ts:88-130 | the categorised counts sum to the number of steps |
| `Results.AllSucceededCount` | packages/workflow-engine/src/result-builder.ts:88-130 | the count of successes is the number of steps exactly when every step succeeded |
| `Recovery.RetriesAreSafe` | packages/workflow-recovery/src/retry-policy.ts:36-91 | a retry is only granted for an attempt without effect that no approval gates, within the limits, never for navigation, waiting or approvals |
| `Engine.GrantedRetriesFit` | packages/workflow-recovery/src/contracts.ts:150-188 | a granted retry keeps the list of attempts within the limits of its schema |
| `Engine.CallsSafeNext` | packages/workflow-engine/src/workflow-engine.ts:693-768 | a call keeps the whole log safe when the earlier steps came out well and the earlier attempts of its step may be repeated |
| `Engine.ClashExactlyWhenIncompatible` | packages/workflow-engine/src/contracts.ts:255-277 | the table of clashes is exactly the refinement of the step result |
| `Engine.RefusedExactlyWhenClashing` | packages/workflow-engine/src/contracts.ts:204-277 | in every run the result is refused by its schema exactly when the last attempt of the step reached clashes with the winning cause |
| `Engine.SucceedsExactlyWhen` | packages/workflow-engine/src/workflow-engine.ts:1020-1051 | a run succeeds exactly when every step succeeded and cleanup reported no error |
| `Engine.AroundGrown` | packages/workflow-engine/src/workflow-engine.ts:523-986 | whatever happens in one step leaves earlier steps succeeded, later steps untouched and the call log safe |
| `Engine.Execution.Interfere` | packages/workflow-engine/src/workflow-engine.ts:392-411 | the abort signal and the timer each fire at most once, and record nothing but their own cause |
| `Engine.Execution.RecordDeadlineIfElapsed` | packages/workflow-engine/src/workflow-engine.ts:418-427 | a timeout at the time of the deadline is recorded exactly when the clock has reached it and no winner is locked |
| `Engine.Execution.ChoosePrimary` | packages/workflow-engine/src/workflow-engine.ts:428-437 | there is a primary cause exactly when something was recorded, and it is the winner of all that was, locked from then on |
| `Engine.Execution.TransitionStep` | packages/workflow-engine/src/workflow-engine.ts:302-323 | moves one record and the step machine together; every call in the engine proves its transition is in the table |
| `Engine.Execution.BeginAttempt` | packages/workflow-engine/src/workflow-engine.ts:439-466 | appends one running attempt within the limits, and changes no other record |
| `Engine.Execution.FinishAttempt` | packages/workflow-engine/src/workflow-engine.ts:468-497 | finishes the last attempt, keeping its number, trigger and the attempts before it |
| `Engine.Execution.AskAdapter` | packages/workflow-engine/src/workflow-engine.ts:696-768 | the adapter may return or throw anything; the store gains exactly the step's output when it returns well |
| `Engine.Execution.AskApproval` | packages/workflow-engine/src/workflow-engine.ts:545-611 | the coordinator may answer or throw anything; the step waits exactly if it was asked |
| `Engine.Execution.JudgeApproval` | packages/workflow-engine/src/workflow-engine.ts:612-677 | an approval only counts while nothing has ended the run; every other decision ends it for its own cause |
| `Engine.Execution.RunApproval` | packages/workflow-engine/src/workflow-engine.ts:545-692 | an approval step is done with one attempt, or has concluded with a cause or an error of its own |
| `Engine.Execution.JudgeRepair` | packages/workflow-engine/src/workflow-engine.ts:876-928 | a retry is only made on a granted repair, never for a proposal, and only while nothing has ended the run |
| `Engine.Execution.TryStep` | packages/workflow-engine/src/workflow-engine.ts:693-935 | one attempt and its aftermath: another attempt only within the limits and after an attempt that may be repeated |
| `Engine.Execution.RunAttempts` | packages/workflow-engine/src/workflow-engine.ts:693-935 | the attempt loop ends, with the step concluded and all calls on this step |
| `Engine.Execution.EndStep` | packages/workflow-engine/src/workflow-engine.ts:937-985 | the winning cause decides the status of the step; without one it has succeeded and no candidate was lost |
| `Engine.Execution.RunStep` | packages/workflow-engine/src/workflow-engine.ts:523-986 | a step is done, or ended the run; no other record changes and the machine tracks the record |
| `Engine.Execution.RunSteps` | packages/workflow-engine/src/workflow-engine.ts:523-986 | the loop stops at the first step that ends the run, with all before succeeded and all after untouched |
| `Engine.Execution.SkipPending` | packages/workflow-engine/src/workflow-engine.ts:325-348 | skips exactly the pending records, for the given reason |
| `Engine.Execution.ExecutePrepared` | packages/workflow-engine/src/workflow-engine.ts:350-1086 | every prepared run, in any environment: a safe call log, fail-fast records, one start and one stop, an empty store, an end for the cause that wins over all recorded, a final state that agrees with it, and a result unless it clashes |
| `Engine.Execution.Execute` | packages/workflow-engine/src/workflow-engine.ts:160-276 | the same for every execution, with those that end before the adapter starts: all steps skipped, nothing called, every output listed as not produced, `stop` exactly if `start` |
| `EngineSafety.AcceptedRunsDoNotGoWrong` | packages/workflow-engine/src/workflow-engine.ts:696-768 | checked workflows do not go wrong: at every call of every run the source resolves to an accepted type, and an offered output is new and declared |
| `EngineSafety.ExecuteRequest` | packages/workflow-engine/src/workflow-engine.ts:160-276 | from the gate to the result: the adapter is only started for an admissible request; then no logged call goes wrong, the run is fail-fast and ends for the winning cause, and its result fits it unless it clashes; otherwise all is skipped |
| `EngineSafety.RejectedReferencesGoWrong` | packages/workflow-extraction/src/analysis.ts:118-175 | the analysis is exact: it finds a producer for a reference if and only if the reference resolves at any call of its step in any run and is not the address of a navigation, where the analysis refuses even references that would resolve |
| `EngineSafety.GatedCallsAreApproved` | packages/workflow-approval/src/approval-analysis.ts:29-50 | a gated step is only called after its approval was given |
| `EngineSafety.EffectsAreNotRepeated` | packages/workflow-recovery/src/approval-gating.ts:3-9 | a step is only called again after an attempt without effect, and never if an approval gates it |
| `EngineSafety.OvertakenSuccessIsRefused` | packages/workflow-engine/src/workflow-engine.ts:937-974 | when a run ends, for whatever cause, after the last attempt of the step under way came out well, no result can be built from its records and the caller gets an exception |
| `EngineSafety.WhichErrorsClash` | packages/workflow-engine/src/contracts.ts:255-277 | a failed attempt clashes exactly for timeouts and cancellations that another kind of cause overtakes |
| `EngineSafety.LateTimeoutIsRefused` | packages/workflow-engine/src/workflow-engine.ts:937-974 | the log and records of one click overtaken by its deadline have every property proved of a run, and their result is refused |
| `Redaction.NormalizeKeepsVisiblePart` | packages/privacy-engine/src/redaction-plan.ts:37-63 | a candidate is normalised exactly when some cell is visible, to a region inside the viewport with its reasons and identifier |
| `Redaction.ScanForOverlap` | packages/privacy-engine/src/redaction-plan.ts:142-174 | the inner loops find the first overlapping pair, or there is none |
| `Redaction.MergeRegions` | packages/privacy-engine/src/redaction-plan.ts:142-174 | the in-place loop with splice, sort and restart terminates and computes the fixpoint of merging first pairs |
| `Redaction.HullIsHull` | packages/privacy-engine/src/redaction-plan.ts:98-125 | repeated merging gives the smallest rectangle around the members, their strongest sensitivity and all their reasons and identifiers |
| `Redaction.MergePartitions` | packages/privacy-engine/src/redaction-plan.ts:142-174 | the merged regions are exactly the hulls of a partition of the original ones: nothing is lost, nothing is invented |
| `Redaction.MergeSeparates` | packages/privacy-engine/src/redaction-plan.ts:142-174 | no two merged regions overlap significantly, and they are sorted |
| `Redaction.BuildRedactionPlan` | packages/privacy-engine/src/redaction-plan.ts:176-209 | the loop computes the specified plan, or its error |
| `Redaction.PlanFailsExactlyWhen` | packages/privacy-engine/src/redaction-plan.ts:176-209 | planning fails exactly on too many candidates or one without a visible cell |
| `Redaction.PlanHidesEveryCandidate` | packages/privacy-engine/src/redaction-plan.ts:176-209 | the visible part of every candidate lies in a region with at least its sensitivity and its reasons, merged from it among others |
| `Redaction.IdentifiersAreSharedOut` | packages/privacy-engine/src/redaction-plan.ts:108-174 | with unique identifiers each belongs to exactly one merged region, and no region has another |
| `Redaction.PlanIsSeparated` | packages/privacy-engine/src/redaction-plan.ts:176-209 | no two published regions overlap significantly, and they are numbered from one |
| `Redaction.PlanIsWellFormed` | packages/privacy-engine/src/redaction-plan.ts:176-209 | every region is inside the viewport, of positive size, with one to sixteen reasons; identifiers differ |
| `Redaction.PlanIgnoresOrder` | packages/privacy-engine/src/redaction-plan.ts:127-209 | with identifiers that the collation tells apart, the plan does not depend on the order of the candidates |
| `CanonicalJson.UnquoteEscape` | packages/audit-trail/src/canonical-json.ts:7-20 | decoding a JSON string literal gives back the string, lone surrogates and control characters included |
| `CanonicalJson.WriteUnique` | packages/audit-trail/src/canonical-json.ts:7-53 | a tree can be read off any text that its writing starts, with the rest of that text |
| `CanonicalJson.SerializeInjective` | packages/audit-trail/src/canonical-json.ts:7-57 | two trees have the same canonical text exactly when they are equal up to key order |
| `CanonicalJson.SerializesExactlyFiniteTrees` | packages/audit-trail/src/canonical-json.ts:7-57 | over object graphs with sharing and cycles, serialising succeeds exactly on values that unfold to a finite tree, with that tree's text |
| `CanonicalJson.GraphTextsAgree` | packages/audit-trail/src/canonical-json.ts:7-57 | two graphs are written alike exactly when their trees agree up to key order |
| `AuditLog.VerifyAuditEventChain` | packages/audit-trail/src/verification.ts:46-97 | valid exactly when every event links and the head is the stored one; otherwise the count, the head so far and the first failure are exact |
| `AuditLog.ChainConcat` | packages/audit-trail/src/verification.ts:46-97 | verifying a concatenation is verifying the prefix, then the suffix from its head and next sequence |
| `AuditLog.AuditStore.AppendAuditEvent` | packages/audit-trail/src/appender.ts:58-118 | one transaction: it appends to the log of the workspace as specified, or changes nothing |
| `AuditLog.AppendKeepsSound` | packages/audit-trail/src/appender.ts:58-118 | an append keeps the log sound and adds one event exactly when the source is new |
| `AuditLog.KnownSourceOutcome` | packages/audit-trail/src/appender.ts:45-82 | a known source is answered with its event if type, entity and payload digest agree, and refused otherwise |
| `AuditLog.AppendTwice` | packages/audit-trail/src/appender.ts:58-82 | a repeated append returns the stored event and leaves the log alone |
| `AuditLog.AppendedLogVerifies` | packages/audit-trail/src/appender.ts:58-118 | any sequence of requests yields a log that verifies against its head, numbered from one without a gap, with unique sources, and never rewrites earlier events |
| `AuditHash.ContentTextInjective` | packages/audit-trail/src/hash-chain.ts:32-55 | the hashed text determines everything it was built from, timestamps up to their instant |
| `AuditHash.TamperEvidence` | packages/audit-trail/src/hash-chain.ts:32-62 | two logs that verify from genesis against one head agree event by event, or a collision or genesis preimage can be read off them |
| `AuditHash.VerifiesAlike` | packages/audit-trail/src/verification.ts:46-97 | logs that agree in the protected content verify alike: nothing more is protected |
| `AuditHash.UnprotectedFields` | packages/audit-trail/src/hash-chain.ts:10-55 | a changed row identifier, creation time or timestamp spelling of any event of any log changes neither whether the log verifies nor its head |
| `Outbox.RetryDelaySeconds` | apps/notification-worker/src/retry-policy.ts:1-9 | the delays of 15, 60, 300 and 900 seconds after the first four attempts, and none after any other |
| `Outbox.Store.ClaimDue` | apps/notification-worker/src/outbox-store.ts:19-49 | claims the earliest due messages that are not locked, at most a batch, each once; all other rows stay |
| `Outbox.Store.RetryOrDeadLetter` | apps/notification-worker/src/outbox-store.ts:51-122 | settles the row of a worker that still owns it, records a dead letter exactly when it dies, and touches no other row |
| `Outbox.Store.Deliver` | apps/notification-worker/src/in-app-delivery.provider.ts:16-148 | one transaction: result, row and notification as specified for every finding, with at most one notification for alert and recipient |
| `OutboxRuns.StepKeepsInv` | apps/notification-worker/src/worker.ts:46-71 | every step of any worker, of the clock or of a crash keeps the invariant |
| `OutboxRuns.EveryRunIsSafe` | apps/notification-worker/src/worker.ts:13-71 | over all interleavings: at most five attempts and five deliveries, no pending row used up, one notification for a delivered message, one record for a dead one, none dead of a lost lease |
| `OutboxRuns.SettledForGood` | apps/notification-worker/src/outbox-store.ts:51-122 | a delivered or dead message stays exactly as it is, in every run |
| `OutboxRuns.NothingIsStuck` | apps/notification-worker/src/outbox-store.ts:19-49 | a message that is not settled is due from a definite time on |
| `OutboxNotifications.NotifiedExactlyWhen` | apps/notification-worker/src/in-app-delivery.provider.ts:99-148 | after every run a recipient has a notification of an alert exactly when a message for them was delivered or had a delivery that outlived its lease |
| `OutboxNotifications.DeadAndNotifiedExactlyWhen` | apps/notification-worker/src/in-app-delivery.provider.ts:99-148 | after every run a dead message was notified exactly when one of its deliveries outlived its lease |
| `OutboxNotifications.PromptRunsNotifyTheDelivered` | apps/notification-worker/src/worker.ts:46-71 | in a run where no delivery outlives its lease, exactly the delivered messages are notified |
| `OutboxRefinement.ClaimsAreARun` | apps/notification-worker/src/outbox-store.ts:19-49 | claiming distinct due messages one by one is a run that claims each of them and changes nothing else |
| `OutboxRefinement.ClaimDueRefines` | apps/notification-worker/src/outbox-store.ts:19-49 | the batch statement is a run of claims of the transition system |
| `OutboxRefinement.DeliverRefines` | apps/notification-worker/src/in-app-delivery.provider.ts:16-148 | the delivery transaction is the delivery step, and its result is what is left to settle |
| `OutboxRefinement.SettleRefines` | apps/notification-worker/src/outbox-store.ts:51-122 | settling what a worker holds is the settlement step |
| `OutboxRuns.DeadButNotified` | apps/notification-worker/src/in-app-delivery.provider.ts:99-148 | one run in which a notified message ends up dead |
| `OutboxRuns.StuckAfterSettlement` | apps/notification-worker/src/outbox-store.ts:51-122 | exactly when a late settlement leaves a row that is never due again |
| `OutboxOverlaps.StuckExactlyWhen` | apps/notification-worker/src/outbox-store.ts:51-122 | when workers may hold a message more than once: in every course of events it is stuck in the end exactly when some settlement came too late |
| `OutboxOverlaps.StuckNeedsAnOverlap` | apps/notification-worker/src/worker.ts:13-71 | it never is when workers only take it with nothing of it in hand |
| `OutboxOverlaps.AStuckMessage` | apps/notification-worker/src/worker.ts:31-71 | a course from a queued message to a stuck one, by one worker |
| `Naming.SomeCandidateIsFree` | packages/recording-converter/src/naming.ts:96-116 | among the suffixes of one digit count some candidate is free, although truncated candidates of different counts may coincide |
| `Naming.AllocateIdentifier` | packages/recording-converter/src/naming.ts:96-116 | the loop terminates with a name not used before, at most eighty characters long, and adds it |
| `Converter.ConvertEvent` | packages/recording-converter/src/converter.ts:183-352 | an event becomes a step that means what the event did, with fresh names, or is refused for the stated reason and leaves the names alone |
| `Converter.ConvertRecordingArtifact` | packages/recording-converter/src/converter.ts:414-573 | one mapping an event, steps for the kept ones, duplicates pointing at the retained step, names apart, counts that add up, and publishable exactly when there are steps and every event was resolved |
| `Converter.RetainedHasSameKey` | packages/recording-converter/src/converter.ts:467-524 | a duplicate points to an earlier kept event with its key, with nothing but duplicates of it in between |
| `Converter.CountsAddUp` | packages/recording-converter/src/converter.ts:385-412 | steps, duplicates and unresolved events are all the events |
| `Converter.StepIdsDiffer` | packages/recording-converter/src/converter.ts:142-144 | step identifiers of different steps differ |
| `Converter.ReplaysEquivalently` | packages/recording-converter/src/converter.ts:414-524 | on any page where repeating a fill, select or check changes nothing and a locator finds the same element with its defaults filled in, running the kept steps is running all resolved events in order |
| `Converter.GeneratedStepsReplay` | packages/recording-converter/src/converter.ts:414-524 | the same of the steps that a conversion returns, from any state, with any inputs |
| `Renaming.RenamedVariableMeansTheSame` | packages/workflow-editor-core/src/variable-operations.ts:133-221 | renaming a variable of an accepted workflow keeps it accepted, makes the renamed inputs fit, and maps the located sources one by one so that each resolves as before |
| `Renaming.RenamedVariableStaysAcceptable` | packages/workflow-editor-core/src/variable-operations.ts:184-221 | without a reference to the new name, the input analysis accepts the renamed workflow exactly when it accepts the old one |
| `Renaming.RenamedVariableStillFlows` | packages/workflow-editor-core/src/variable-operations.ts:184-221 | renaming a variable leaves the data flow accepted |
| `Renaming.RenamingBackRestores` | packages/workflow-editor-core/src/variable-operations.ts:184-221 | renaming back restores the workflow |
| `Renaming.RenamingCaptures` | packages/workflow-editor-core/src/variable-operations.ts:184-221 | renaming back restores the workflow exactly when no reference to the new name was there before |
| `Renaming.ACapturedReference` | packages/workflow-editor-core/src/variable-operations.ts:184-221 | a workflow where one was |
| `Renaming.RenamingAcceptedWorkflows` | packages/workflow-editor-core/src/variable-operations.ts:184-221 | for accepted workflows renaming always keeps them accepted and can be undone |
| `Renaming.RenamedOutputStillFlows` | packages/workflow-editor-core/src/output-operations.ts:122-173 | renaming an output keeps the data flow accepted |
| `Renaming.RenamedOutputStaysAcceptable` | packages/workflow-editor-core/src/output-operations.ts:122-173 | the input analysis accepts the workflow with a renamed output exactly when it accepts the old one |
| `Renaming.RenamedOutputMeansTheSame` | packages/workflow-editor-core/src/output-operations.ts:31-173 | renaming an output of an accepted workflow keeps it accepted, makes the renamed store hold what its steps produce, and maps the located sources one by one so that each resolves as before, under any resolver |
| `Renaming.RenamingOutputBackRestores` | packages/workflow-editor-core/src/output-operations.ts:122-173 | renaming an output back restores the workflow |
| `LocatorRanking.ScoreLocatorObservation` | packages/locator-engine/src/scoring.ts:61-151 | a locator is scored exactly when it is unique and not likely sensitive; the score lies in 0 to 100, with at most twelve reasons, among them the two required |
| `LocatorRanking.RankLeOrders` | packages/locator-engine/src/ranking.ts:16-48 | the comparator is a total preorder and tells apart locators with different keys |
| `LocatorRanking.Deduplicate` | packages/locator-engine/src/ranking.ts:54-68 | the map holds, for each key seen, the best candidate with that key |
| `LocatorRanking.RankLocatorBundle` | packages/locator-engine/src/ranking.ts:50-90 | the bundle is the head of the ranking; it and its candidates satisfy the refinements of their schemas; there is none exactly when no observation is usable |
| `LocatorRanking.RankingIsUnique` | packages/locator-engine/src/ranking.ts:50-90 | the set of candidates has only one ranking |
| `LocatorRanking.RankingIgnoresOrder` | packages/locator-engine/src/ranking.ts:50-90 | the order of the observations makes no difference, up to the reasons |
| `RunnerUpdates.OnlyWayThere` | packages/runner-update/src/state-machine.ts:7-45 | the only way from idle to success is the complete update: prepare, drain, stage, switch, start and verify, in this order |
| `RunnerUpdates.UpdatesEnd` | packages/runner-update/src/state-machine.ts:7-45 | an update has at most ten states before it is idle again |
| `RunnerUpdates.RecoveryFollowsTheTable` | packages/runner-update/src/recovery.ts:117-190 | recovery only goes where allowed transitions lead, and completes or rolls back only when rollback is safe |
| `RunnerUpdates.RecoversExactlyWhen` | packages/runner-update/src/recovery.ts:117-190 | for each outcome of recovery, exactly which states and observations lead to it |
| `RunnerUpdates.CrashLoopsStandStill` | packages/runner-update/src/recovery.ts:117-190 | any number of crashes in a row that find the same leave the state of the first recovery |
| `RunnerUpdates.SwitchedBefore` | packages/runner-update/src/recovery.ts:117-190 | through any transitions, crashes and recoveries, no target is started, verified or completed without a switch |
| `RunnerUpdates.EvaluateUpgradePreflight` | packages/runner-release/src/preflight.ts:65-166 | compatible exactly when the release fits the persisted state; otherwise the first kind of obstacle decides, with all reasons of that kind |
| `RunnerUpdates.EvaluateRunnerUpdatePreflight` | packages/runner-update/src/compatibility.ts:156-209 | allowed exactly when the target is newer and fits, and the old release fits what the target may leave behind |
| `RunnerUpdates.RollbackStaysSafe` | packages/runner-update/src/compatibility.ts:211-228 | after an allowed update the rollback check answers safe, exactly unless the target created a vault the old release cannot use |
| `RunnerUpdates.EveryReleaseOfTheChainFits` | packages/runner-update/src/compatibility.ts:156-209 | at any point of any chain of allowed updates every release of it still fits what is persisted, which no update has changed |
| `RunnerUpdates.CreatedVaultBlocksRollback` | packages/runner-update/src/compatibility.ts:169-185 | such an update |
| `Retention.DecideReleaseRetention` | packages/runner-update/src/retention.ts:61-135 | refuses exactly inconsistent records; otherwise keeps and removes partition the installed releases as `Retains` demands, and nothing is removed under manual recovery |
| `Retention.FilledRetains` | packages/runner-update/src/retention.ts:103-134 | filling up newest first never removes a mandatory release, stays within the limit or the mandatory ones, removes nothing needlessly, and prefers newer releases |
| `Acquisition.ContentRangeRoundTrip` | packages/runner-acquisition/src/resume.ts:61-90 | a range is read back from its text exactly when it is satisfiable and safe |
| `Acquisition.RangeKeepsTrust` | packages/runner-acquisition/src/resume.ts:92-120 | a range request, however it ends, loses no byte and keeps what the record counts a prefix of the tagged content |
| `Acquisition.CompletedResumeIsWhole` | packages/runner-acquisition/src/resume.ts:92-120 | a completed resume has put together exactly the tagged content, of exactly the signed size |
| `Acquisition.EveryRunIsTrustworthy` | packages/runner-acquisition/src/resume.ts:20-59 | over any number of broken transfers and crashes the counted bytes stay a prefix of the tagged content |
| `Acquisition.OnlySignedIsPromoted` | apps/local-runner/src/release/acquisition/release-acquisition-service.ts:402-442 | whatever the server sends, only a file of the signed size and checksum is promoted |

## Left out

- Engine.Execution.Execute: the preflight's outcome is a parameter, which `EngineSafety.ExecuteRequest` fills in. Verification results, messages, progress payloads and the abort signal handed to the adapter are not modelled, and the output store is the default one.
- Engine.Execution.TransitionStep: illegal transitions are excluded by the precondition, which every caller proves, so the throw of the state machine is shown to be unreachable and has no path of its own.
- Engine.Execution.AskAdapter: the type and shape checks on a returned output are folded into the choice of an arbitrary answer; the store's own checks are modelled in full.
- Preflight.PreflightWorkflowExecution: states when a request is accepted, not which of several refusal codes is reported first; parsing of the request envelope is given.
- ExtractionAnalysis.AnalyzeWorkflowExtraction: the comparator of the issue sort is a parameter; paths and messages of issues are left out, as in the other analyses.
- EngineSafety.ExecuteRequest: does not state that the errors of a missing coordinator or binding cannot occur in an accepted run.
- Renaming.RenamedVariableMeansTheSame: renamed inputs fit, but a new name that every object inherits can have them refused, as `InputAnalysis.ValidateWorkflowRunInputs` says.
- EngineSafety.LateTimeoutIsRefused: a log and records that satisfy what is proved of runs; which environment produces them is not modelled.
- Redaction.PlanIgnoresOrder: identifiers that differ but compare as equal in the locale are not covered.
- LocatorRanking.RankLocatorBundle: the confidence is left out, since it depends on the lists of reasons, for which the order of observations can matter.
- LocatorRanking.ScoreLocatorObservation: the detection of generated identifiers, positions, depths and sensitive texts is given with the observation; each kind of risk occurs at most once.
- Converter.ConvertRecordingArtifact: step names and the normalisation of identifier characters are left out; deduplication keys are injective values instead of JSON text.
- OutboxRuns.EveryRunIsSafe: the batching and the counters of `runOnce` are left out; any interleaving of its steps is covered.
- Outbox.Store.Deliver: membership, alert and time lookups are findings that the transaction is given; their queries are left out.
- Renaming.RenamedVariableStaysAcceptable: adding, updating and removing variables and extraction steps are left out as easier.
- RunnerUpdates.EvaluateUpgradePreflight: version comparison is an arbitrary function; the parsing of manifests is left out.
- Acquisition.EveryRunIsTrustworthy: timeouts, redirects to other hosts, metadata downloads and the promotion to the cache directory are left out; a file is bytes, and a lost update of the record counts as a crash.
- The zod schemas, Unicode normalisation, SemVer, SHA-256, Ed25519, Prisma, HTTP, the file system, the CLI and the user interface are not modelled.
- Pairing, rollout, health and compliance tables, policy evaluation, scheduling and workflow verification would add only finite case checks.
