/** The static gate in front of an execution, and what every accepted workflow can rely on
    while it runs. */
module Preflight {
  import opened Outcomes
  import opened Workflows
  import opened InputAnalysis
  import opened Recovery
  import opened RuntimeValues
  import ExtractionAnalysis
  import Approvals

  datatype Options = Options(totalTimeoutMs: nat, stepTimeoutMs: nat, mode: RecoveryMode)

  // The parts of a request, each parsed by its schema; None is a part that does not parse.
  datatype Request = Request(
    workflow: Option<Workflow>, options: Option<Options>,
    inputs: Option<map<string, Input>>, origins: Option<seq<string>>)

  // What the gate asks of the adapter, the coordinators, an external resolver, and of the
  // parts that are library code or heuristics.
  datatype Surroundings = Surroundings(
    safeAlias: string -> bool,
    verificationsValid: Workflow -> bool,
    resolver: Option<Resolver>,
    approvalCoordinator: bool,
    recoveryCoordinator: bool,
    supported: set<StepType>,
    validateStep: Step -> Option<ErrorCode>,
    normalizeOrigins: seq<string> -> Result<seq<string>, ErrorCode>,
    navigationError: (string, seq<string>) -> Option<ErrorCode>,
    validUrl: string -> bool,
    validText: string -> bool,
    issueOrder: (ExtractionAnalysis.Issue, ExtractionAnalysis.Issue) -> bool,
    sortedNames: map<string, Input> -> seq<string>,
    inheritedNames: set<string>)

  datatype Prepared = Prepared(workflow: Workflow, options: Options, inputs: map<string, Input>, resolver: Resolver, origins: seq<string>)

  datatype PreflightResult = Accepted(prepared: Prepared) | Refused(code: ErrorCode, workflow: Option<Workflow>)

  function TypeOfStep(a: Action): StepType {
    match a
    case Navigate(_) => NavigateType
    case Click => ClickType
    case Fill(_) => FillType
    case Select(_) => SelectType
    case SetChecked(_) => SetCheckedType
    case Wait => WaitType
    case Extract(_, _) => ExtractType
    case Verify(_) => VerifyType
    case Approval => ApprovalType
  }

  function ErrorOf<T>(r: Result<T, ErrorCode>): Option<ErrorCode> {
    match r
    case Ok(_) => None
    case Err(code) => Some(code)
  }

  function VerificationError(s: Surroundings, r: Resolver, expected: Source, target: Target): Option<ErrorCode> {
    if expected.FromOutput? then None
    else
      match r.resolve(expected, target)
      case Err(code) => Some(code)
      case Ok(v) =>
        match target
        case VerifyUrl => if v.Str? && s.validUrl(v.text) then None else Some(VerificationExpectationInvalid)
        case VerifyText => if v.Str? && s.validText(v.text) then None else Some(VerificationExpectationInvalid)
        case _ => None
  }

  // The exception that the check of one step throws, if any.
  function StepError(s: Surroundings, r: Resolver, origins: seq<string>, step: Step): Option<ErrorCode> {
    if step.action.Approval? then None
    else if TypeOfStep(step.action) !in s.supported then Some(UnsupportedStepType)
    else if s.validateStep(step).Some? then s.validateStep(step)
    else
      match step.action
      case Navigate(url) =>
        if url.FromOutput? then Some(InvalidWorkflow)
        else (match ResolveText(r, url, NavigateUrl)
              case Err(code) => Some(code)
              case Ok(text) => s.navigationError(text, origins))
      case Fill(value) => if value.FromOutput? then None else ErrorOf(ResolveText(r, value, FillValue))
      case Select(value) => if value.FromOutput? then None else ErrorOf(ResolveSelect(r, value))
      case Verify(TextIs(expected)) => VerificationError(s, r, expected, VerifyText)
      case Verify(ValueIs(expected)) => VerificationError(s, r, expected, VerifyValue)
      case Verify(UrlIs(expected)) => VerificationError(s, r, expected, VerifyUrl)
      case _ => None
  }

  // ---------- What an accepted request satisfies ----------

  ghost predicate UsesSecret(w: Workflow, name: string) {
    exists u :: Occurs(w.steps, Located(FromSecret(name), u))
  }

  ghost predicate UsesVariable(w: Workflow, name: string) {
    exists u :: Occurs(w.steps, Located(FromVariable(name), u))
  }

  // Without an external resolver no secret can be resolved and the inputs must fit.
  ghost predicate ValuesAvailable(w: Workflow, inputs: map<string, Input>, resolver: Option<Resolver>, inherited: set<string>) {
    match resolver
    case None => (forall name :: !UsesSecret(w, name)) && InputsFit(w, inputs) && NoneInherited(w, inputs, inherited)
    case Some(r) =>
      && (forall v :: v in w.variables && (v.required || UsesVariable(w, v.name)) ==> !v.valueType.FileType? && r.hasVariable(v.name, v.valueType))
      && (forall name :: UsesSecret(w, name) ==> r.hasSecret(name))
  }

  function EffectiveResolver(s: Surroundings, inputs: map<string, Input>): Resolver {
    match s.resolver
    case None => CreateRuntimeValueResolver(inputs)
    case Some(r) => r
  }

  // What the analyses of the definition alone establish.
  ghost predicate StaticallySound(s: Surroundings, w: Workflow) {
    && SourcesAcceptable(w, s.safeAlias)
    && s.verificationsValid(w)
    && ExtractionAnalysis.DataFlows(w)
    && !LastIsApproval(w)
    && ((exists k: nat :: Approvals.Gates(w.steps, k)) ==> s.approvalCoordinator)
  }

  ghost predicate Admissible(s: Surroundings, q: Request) {
    && q.workflow.Some? && q.options.Some? && q.inputs.Some? && q.origins.Some?
    && (q.options.value.mode.SafeOnly? || s.recoveryCoordinator)
    && StaticallySound(s, q.workflow.value)
    && ValuesAvailable(q.workflow.value, q.inputs.value, s.resolver, s.inheritedNames)
    && s.normalizeOrigins(q.origins.value).Ok?
    && (forall k :: 0 <= k < |q.workflow.value.steps| ==>
          StepError(s, EffectiveResolver(s, q.inputs.value), s.normalizeOrigins(q.origins.value).value, q.workflow.value.steps[k]).None?)
  }

  predicate LastIsApproval(w: Workflow) {
    w.steps != [] && w.steps[|w.steps| - 1].action.Approval?
  }

  // ---------- The gate ----------

  lemma SecretsListed(w: Workflow, secrets: map<string, seq<Usage>>, safeAlias: string -> bool)
    requires SecretsCollected(secrets, FindValueSources(w), safeAlias) && SourcesAcceptable(w, safeAlias)
    ensures forall name :: name in secrets <==> UsesSecret(w, name)
  {
    forall name ensures name in secrets <==> UsesSecret(w, name) {
      if name in secrets {
        var u := secrets[name][0];
        assert u in secrets[name];
        FindsEverySource(w, Located(FromSecret(name), u));
        assert Occurs(w.steps, Located(FromSecret(name), u));
      }
      if UsesSecret(w, name) {
        var u :| Occurs(w.steps, Located(FromSecret(name), u));
        FindsEverySource(w, Located(FromSecret(name), u));
        assert Acceptable(w, Located(FromSecret(name), u), safeAlias);
      }
    }
  }

  method CheckExternalResolver(w: Workflow, a: Analysis, r: Resolver) returns (error: Option<ErrorCode>)
    requires |a.variables| == |w.variables|
    requires forall i :: 0 <= i < |w.variables| ==>
               a.variables[i] == VariableAnalysis(w.variables[i], UsagesWhere(FindValueSources(w), FromVariable(w.variables[i].name)))
    requires forall name :: name in a.secretRequirements <==> UsesSecret(w, name)
    ensures error.None? <==> ValuesAvailable(w, map[], Some(r), {})
    ensures error.Some? ==> error.value == InvalidRuntimeInputs || error.value == SecretResolutionUnavailable
  {
    forall v: Variable
      ensures UsagesWhere(FindValueSources(w), FromVariable(v.name)) == [] <==> !UsesVariable(w, v.name)
    {
      UsagesEmpty(w, v.name);
    }
    for i := 0 to |w.variables|
      invariant forall j :: 0 <= j < i ==>
                  w.variables[j].required || UsesVariable(w, w.variables[j].name) ==>
                    !w.variables[j].valueType.FileType? && r.hasVariable(w.variables[j].name, w.variables[j].valueType)
    {
      var item := a.variables[i];
      if (item.variable.required || item.usages != [])
         && (item.variable.valueType.FileType? || !r.hasVariable(item.variable.name, item.variable.valueType)) {
        assert w.variables[i] in w.variables;
        return Some(InvalidRuntimeInputs);
      }
    }
    if exists name :: name in a.secretRequirements && !r.hasSecret(name) {
      return Some(SecretResolutionUnavailable);
    }
    error := None;
  }

  method CheckValues(w: Workflow, inputs: map<string, Input>, a: Analysis, s: Surroundings) returns (error: Option<ErrorCode>)
    requires WellFormed(w)
    requires |a.variables| == |w.variables|
    requires forall i :: 0 <= i < |w.variables| ==>
               a.variables[i] == VariableAnalysis(w.variables[i], UsagesWhere(FindValueSources(w), FromVariable(w.variables[i].name)))
    requires forall name :: name in a.secretRequirements <==> UsesSecret(w, name)
    requires forall values, name :: name in s.sortedNames(values) <==> name in values
    ensures error.None? <==> ValuesAvailable(w, inputs, s.resolver, s.inheritedNames)
    ensures error.Some? ==> error.value == InvalidRuntimeInputs || error.value == SecretResolutionUnavailable
  {
    match s.resolver {
      case Some(r) => error := CheckExternalResolver(w, a, r);
      case None =>
        if a.secretRequirements != map[] {
          return Some(SecretResolutionUnavailable);
        }
        var issues := ValidateWorkflowRunInputs(w, inputs, s.sortedNames(inputs), s.inheritedNames);
        error := if issues != [] then Some(InvalidRuntimeInputs) else None;
    }
  }

  method CheckSteps(s: Surroundings, r: Resolver, origins: seq<string>, w: Workflow) returns (error: Option<ErrorCode>)
    ensures error.None? <==> forall k :: 0 <= k < |w.steps| ==> StepError(s, r, origins, w.steps[k]).None?
    ensures error.Some? ==>
              exists k :: 0 <= k < |w.steps| && StepError(s, r, origins, w.steps[k]) == error
                          && forall j :: 0 <= j < k ==> StepError(s, r, origins, w.steps[j]).None?
  {
    for k := 0 to |w.steps|
      invariant forall j :: 0 <= j < k ==> StepError(s, r, origins, w.steps[j]).None?
    {
      error := StepError(s, r, origins, w.steps[k]);
      if error.Some? {
        return;
      }
    }
    error := None;
  }

  method CheckDefinition(s: Surroundings, w: Workflow) returns (error: Option<ErrorCode>, analysis: Analysis)
    requires WellFormed(w)
    ensures error.None? <==> StaticallySound(s, w)
    ensures |analysis.variables| == |w.variables|
    ensures forall i :: 0 <= i < |w.variables| ==>
              analysis.variables[i]
              == VariableAnalysis(w.variables[i], UsagesWhere(FindValueSources(w), FromVariable(w.variables[i].name)))
    ensures error.None? ==> forall name :: name in analysis.secretRequirements <==> UsesSecret(w, name)
  {
    analysis := AnalyzeWorkflowInputs(w, s.safeAlias);
    if analysis.hasBlockingIssues {
      return Some(InvalidWorkflow), analysis;
    }
    if !s.verificationsValid(w) {
      return Some(VerificationRuleInvalid), analysis;
    }
    var extraction := ExtractionAnalysis.AnalyzeWorkflowExtraction(w, s.issueOrder);
    if extraction.hasBlockingIssues {
      return Some(InvalidWorkflow), analysis;
    }
    var bindings, orphans := Approvals.AnalyzeWorkflowApprovals(w);
    if orphans != [] {
      return Some(ApprovalBindingInvalid), analysis;
    }
    if bindings != [] && !s.approvalCoordinator {
      return Some(ApprovalCoordinatorUnavailable), analysis;
    }
    SecretsListed(w, analysis.secretRequirements, s.safeAlias);
    error := None;
  }

  // A request is accepted exactly when it is admissible, and is then passed on unchanged.
  method PreflightWorkflowExecution(s: Surroundings, q: Request) returns (r: PreflightResult)
    requires q.workflow.Some? ==> WellFormed(q.workflow.value)
    requires forall values, name :: name in s.sortedNames(values) <==> name in values
    ensures r.Accepted? <==> Admissible(s, q)
    ensures r.Accepted? ==> r.prepared == Prepared(
                              q.workflow.value, q.options.value, q.inputs.value, EffectiveResolver(s, q.inputs.value),
                              s.normalizeOrigins(q.origins.value).value)
    ensures r.Refused? ==> r.workflow == q.workflow
  {
    if q.workflow.None? {
      return Refused(InvalidWorkflow, None);
    }
    var w := q.workflow.value;
    if q.options.None? {
      return Refused(InvalidExecutionTimeout, Some(w));
    }
    if !q.options.value.mode.SafeOnly? && !s.recoveryCoordinator {
      return Refused(RecoveryCoordinatorUnavailable, Some(w));
    }
    if q.inputs.None? {
      return Refused(InvalidRuntimeInputs, Some(w));
    }
    var definition, analysis := CheckDefinition(s, w);
    if definition.Some? {
      return Refused(definition.value, Some(w));
    }
    var values := CheckValues(w, q.inputs.value, analysis, s);
    if values.Some? {
      return Refused(values.value, Some(w));
    }
    if q.origins.None? {
      return Refused(InvalidExecutionRequest, Some(w));
    }
    var origins := s.normalizeOrigins(q.origins.value);
    if origins.Err? {
      return Refused(origins.error, Some(w));
    }
    var resolver := EffectiveResolver(s, q.inputs.value);
    var error := CheckSteps(s, resolver, origins.value, w);
    if error.Some? {
      return Refused(error.value, Some(w));
    }
    r := Accepted(Prepared(w, q.options.value, q.inputs.value, resolver, origins.value));
  }

  // ---------- Checked workflows do not go wrong ----------

  // The outputs in the store are the ones that the first k steps produce, with their types.
  ghost predicate HoldsOutputsOf(values: map<string, Stored>, steps: seq<Step>, k: nat)
    requires k <= |steps|
  {
    && (forall i: nat, name, t :: i < k && Produces(steps, i, name, t) ==>
          name in values && values[name].valueType == t && TypeOf(values[name].value) == t)
    && (forall name :: name in values ==> exists i: nat, t :: i < k && Produces(steps, i, name, t))
  }

  // Any source of a step of an accepted workflow resolves, to a value of a type that the
  // property takes, whenever the store holds the outputs of the steps before it.
  lemma AcceptedSourcesResolve(s: Surroundings, q: Request, k: nat, outputs: map<string, Stored>)
    requires Admissible(s, q) && k < |q.workflow.value.steps|
    requires HoldsOutputsOf(outputs, q.workflow.value.steps, k)
    requires StepSource(q.workflow.value.steps[k].action).Some?
    ensures var (source, target) := StepSource(q.workflow.value.steps[k].action).value;
            var r := ResolveWithOutputs(EffectiveResolver(s, q.inputs.value), outputs, source, target);
            r.Ok? && TypeOf(r.value) in VariableTypes(target)
  {
    var w := q.workflow.value;
    var (source, target) := StepSource(w.steps[k].action).value;
    if source.FromOutput? {
      OutputReferenceResolves(w, k, source.name, target, outputs);
    } else {
      var origins := s.normalizeOrigins(q.origins.value).value;
      CheckedSourceResolves(s, EffectiveResolver(s, q.inputs.value), origins, w.steps[k]);
    }
  }

  lemma CheckedSourceResolves(s: Surroundings, r: Resolver, origins: seq<string>, step: Step)
    requires StepError(s, r, origins, step).None?
    requires StepSource(step.action).Some? && !StepSource(step.action).value.0.FromOutput?
    ensures var (source, target) := StepSource(step.action).value;
            r.resolve(source, target).Ok? && TypeOf(r.resolve(source, target).value) in VariableTypes(target)
  {}

  lemma OutputReferenceResolves(w: Workflow, k: nat, name: string, target: Target, outputs: map<string, Stored>)
    requires ExtractionAnalysis.DataFlows(w) && k < |w.steps|
    requires StepSource(w.steps[k].action) == Some((FromOutput(name), target))
    requires HoldsOutputsOf(outputs, w.steps, k)
    ensures var r := GetOutput(outputs, name, VariableTypes(target));
            r.Ok? && TypeOf(r.value) in VariableTypes(target)
  {
    var l := Located(FromOutput(name), Usage(k, w.steps[k].id, target));
    assert Occurs(w.steps, l);
    var p: nat, t :| Produces(w.steps, p, name, t) && p < k && ExtractionAnalysis.IsOutputTypeCompatible(target, t);
  }

  // The data flow check is exact: an earlier step produces the output with a type that the
  // property takes if and only if the reference resolves at its step, and it is not the address
  // of a navigation, for which the check admits none.
  lemma ReferenceResolvesExactlyWhen(steps: seq<Step>, k: nat, name: string, target: Target, outputs: map<string, Stored>)
    requires k < |steps| && HoldsOutputsOf(outputs, steps, k)
    ensures ExtractionAnalysis.ProducedBefore(steps, k, name, target)
       <==> target != NavigateUrl && GetOutput(outputs, name, VariableTypes(target)).Ok?
  {
    if name in outputs {
      var i: nat, t :| i < k && Produces(steps, i, name, t);
      forall p: nat, u | p < k && Produces(steps, p, name, u) ensures u == t {
        assert outputs[name].valueType == u;
      }
      if target != NavigateUrl && outputs[name].valueType in VariableTypes(target) {
        assert Produces(steps, i, name, t) && ExtractionAnalysis.IsOutputTypeCompatible(target, t);
      }
    }
  }

  // The extraction of an accepted workflow is never refused as unknown or as a duplicate:
  // only a value of the wrong type can be.
  lemma AcceptedOutputsAreNew(w: Workflow, k: nat, outputs: map<string, Stored>, t: ValueType, v: Value)
    requires ExtractionAnalysis.DataFlows(w) && k < |w.steps| && w.steps[k].action.Extract?
    requires HoldsOutputsOf(outputs, w.steps, k)
    ensures var error := SetOutcome(DefineOutputs(w), outputs, w.steps[k].action.outputName, t, v);
            && (error == None || error == Some(OutputTypeMismatch))
            && (error == None <==> Some(t) == OutputTypeOf(w.steps[k].action.from) && TypeOf(v) == t)
  {
    var name, own := w.steps[k].action.outputName, OutputTypeOf(w.steps[k].action.from).value;
    assert Produces(w.steps, k, name, own);
    DefinesEveryOutput(w, OutputDefinition(name, own, k));
    var d := FindDefinition(DefineOutputs(w), name);
    if d.Some? {
      DefinesEveryOutput(w, d.value);
      ExtractionAnalysis.OnlyProducer(w.steps, OutputDefinition(name, own, k));
    }
    ExtractionAnalysis.OnlyProducer(w.steps, OutputDefinition(name, own, k));
  }
}
