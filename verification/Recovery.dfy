/** Error codes of an execution, and the policy that decides whether a failed attempt of a
    step may be retried. */
module Recovery {

  datatype ErrorCode =
    | InvalidExecutionRequest | InvalidWorkflow | InvalidRuntimeInputs | InvalidExecutionTimeout
    | UnsupportedStepType | SecretResolutionUnavailable | InvalidNavigationUrl | UnsafeUrlScheme
    | OriginNotAllowed | PostNavigationOriginNotAllowed | UnsupportedLocator | UnsupportedRole
    | LocatorNotFound | LocatorNotUnique | BrowserLaunchFailed | BrowserContextFailed
    | AdapterStartFailed | NavigationTimeout | ActionTimeout | StepTimeout | TotalExecutionTimeout
    | ActionFailed | ExecutionCancelled | ResourceCleanupFailed | InvalidRunTransition
    | InvalidStepTransition | VerificationRuleInvalid | VerificationExpectationInvalid
    | VerificationNotMatched | VerificationTargetUnsupported | OutputNotAvailable
    | OutputTypeMismatch | DuplicateOutputProduction | ExtractionTargetUnsupported
    | ExtractionValueUnavailable | ApprovalCoordinatorUnavailable | ApprovalBindingInvalid
    | ApprovalRequestFailed | ApprovalRejected | ApprovalExpired | ApprovalInvalidated
    | RecoveryNotAllowed | RecoveryAttemptLimitReached | RecoveryCoordinatorUnavailable
    | RecoveryRequestFailed | RecoveryAborted | RecoveryExpired | RecoveryInvalidated
    | ApprovalGatedRetryRequiresNewRun

  predicate IsTimeout(code: ErrorCode) {
    code == ActionTimeout || code == NavigationTimeout || code == StepTimeout
  }

  datatype Category =
    | TransientRead | LocatorResolution | Validation | Policy | Cancellation | ApprovalFailure
    | OutputFailure | Infrastructure | NavigationFailure | ActionFailure | Unclassified

  function ClassifyFailure(code: ErrorCode): Category {
    match code
    case VerificationNotMatched | ExtractionValueUnavailable => TransientRead
    case LocatorNotFound | LocatorNotUnique => LocatorResolution
    case InvalidExecutionRequest | InvalidWorkflow | InvalidRuntimeInputs | InvalidExecutionTimeout
       | UnsupportedStepType | UnsupportedLocator | UnsupportedRole | VerificationRuleInvalid
       | VerificationExpectationInvalid | VerificationTargetUnsupported | ExtractionTargetUnsupported => Validation
    case SecretResolutionUnavailable | InvalidNavigationUrl | UnsafeUrlScheme | OriginNotAllowed
       | PostNavigationOriginNotAllowed => Policy
    case ExecutionCancelled | TotalExecutionTimeout => Cancellation
    case ApprovalCoordinatorUnavailable | ApprovalBindingInvalid | ApprovalRequestFailed | ApprovalRejected
       | ApprovalExpired | ApprovalInvalidated => ApprovalFailure
    case OutputNotAvailable | OutputTypeMismatch | DuplicateOutputProduction => OutputFailure
    case BrowserLaunchFailed | BrowserContextFailed | AdapterStartFailed | ResourceCleanupFailed => Infrastructure
    case NavigationTimeout => NavigationFailure
    case ActionTimeout | StepTimeout | ActionFailed => ActionFailure
    case _ => Unclassified
  }

  datatype Certainty = NotStarted | ReadOnly | SideEffectPossible | EffectCompleted | UnknownEffect

  datatype RecoveryMode = SafeOnly | SafeAndManual | SafeAndLocatorProposals

  datatype StepType =
    | NavigateType | ClickType | FillType | SelectType | SetCheckedType | WaitType | ExtractType | VerifyType | ApprovalType

  datatype Disposition = NoRecovery | AutomaticRetry | ManualRepair | LocatorProposal | NewRunRequired

  datatype RetryInput = RetryInput(
    stepType: StepType, errorCode: ErrorCode, certainty: Certainty, mode: RecoveryMode,
    automaticRetries: nat, manualRetries: nat, totalAttempts: nat, approvalGated: bool)

  datatype Decision = Decision(category: Category, disposition: Disposition, retryAllowed: bool)

  const MAX_AUTOMATIC_RETRIES := 1
  const MAX_MANUAL_RETRIES := 1
  const MAX_TOTAL_ATTEMPTS := 3

  predicate RetriesAutomatically(t: StepType, code: ErrorCode) {
    || (t == VerifyType && (code == VerificationNotMatched || code == LocatorNotFound))
    || (t == ExtractType && (code == ExtractionValueUnavailable || code == LocatorNotFound))
  }

  predicate ManuallyRepairable(t: StepType) {
    t == VerifyType || t == ExtractType || t == ClickType || t == FillType || t == SelectType || t == SetCheckedType
  }

  predicate BlocksManualRepair(c: Category) {
    c == Validation || c == Policy || c == Cancellation || c == ApprovalFailure || c == OutputFailure
    || c == Infrastructure || c == Unclassified
  }

  function DecideRetry(value: RetryInput): Decision {
    var category := ClassifyFailure(value.errorCode);
    if value.approvalGated then Decision(category, NewRunRequired, false)
    else if value.certainty.UnknownEffect? || value.certainty.SideEffectPossible? || value.certainty.EffectCompleted? then
      Decision(category, NoRecovery, false)
    else if value.totalAttempts >= MAX_TOTAL_ATTEMPTS then Decision(category, NoRecovery, false)
    else if value.certainty.ReadOnly? && RetriesAutomatically(value.stepType, value.errorCode)
            && value.automaticRetries < MAX_AUTOMATIC_RETRIES then
      Decision(category, AutomaticRetry, true)
    else
      var effectAllowed := value.certainty.ReadOnly? || value.certainty.NotStarted?;
      if value.mode.SafeAndManual? && effectAllowed && ManuallyRepairable(value.stepType)
         && !BlocksManualRepair(category) && value.manualRetries < MAX_MANUAL_RETRIES then
        Decision(category, ManualRepair, true)
      else if value.mode.SafeAndLocatorProposals? && category == LocatorResolution && effectAllowed
              && ManuallyRepairable(value.stepType) then
        Decision(category, LocatorProposal, false)
      else Decision(category, NoRecovery, false)
  }

  // No retry repeats a step that may have had an effect, that a human approval gates, or that
  // has used up its attempts; navigation and waiting are never retried at all.
  lemma RetriesAreSafe(value: RetryInput)
    requires DecideRetry(value).disposition.AutomaticRetry? || DecideRetry(value).disposition.ManualRepair?
    ensures !value.approvalGated && (value.certainty.ReadOnly? || value.certainty.NotStarted?)
    ensures value.totalAttempts < MAX_TOTAL_ATTEMPTS
    ensures !value.stepType.NavigateType? && !value.stepType.WaitType? && !value.stepType.ApprovalType?
    ensures DecideRetry(value).disposition.AutomaticRetry? ==>
              value.automaticRetries == 0 && !IsTimeout(value.errorCode) && value.errorCode != ExecutionCancelled
    ensures DecideRetry(value).disposition.ManualRepair? ==>
              value.manualRetries == 0 && value.errorCode != ExecutionCancelled && value.mode.SafeAndManual?
  {}
}
