/** Which sources each step property takes, the static check of the sources of a workflow,
    and the check of the inputs submitted for a run. */
module InputAnalysis {
  import opened Outcomes
  import opened Workflows

  function VariableTypes(t: Target): set<ValueType> {
    match t
    case NavigateUrl => {StringType}
    case FillValue => {StringType}
    case SelectValue => {StringType, NumberType}
    case VerifyText => {StringType}
    case VerifyValue => {StringType, NumberType, BooleanType}
    case VerifyUrl => {StringType}
  }

  function LiteralTypes(t: Target): set<ValueType> {
    match t
    case NavigateUrl => {StringType}
    case FillValue => {StringType}
    case SelectValue => {StringType, NumberType}
    case VerifyText => {StringType}
    case VerifyValue => {StringType, NumberType, BooleanType}
    case VerifyUrl => {StringType}
  }

  predicate AllowsSecret(t: Target) {
    t == FillValue
  }

  datatype IssueCode =
    | UnknownVariableReference | IncompatibleVariableType | IncompatibleLiteral
    | SecretSourceNotAllowed | UnsafeSecretReference

  datatype Issue =
    | Blocking(code: IssueCode, usage: Usage, variableName: Option<string>)
    | UnusedVariable(index: nat, name: string)

  datatype VariableAnalysis = VariableAnalysis(variable: Variable, usages: seq<Usage>)

  datatype Analysis = Analysis(
    variables: seq<VariableAnalysis>,
    secretRequirements: map<string, seq<Usage>>,
    issues: seq<Issue>,
    hasBlockingIssues: bool)

  // ---------- What the analysis promises ----------

  ghost predicate Declares(w: Workflow, name: string, types: set<ValueType>) {
    exists v :: v in w.variables && v.name == name && v.valueType in types
  }

  // The property that carries the source can take it.
  ghost predicate Acceptable(w: Workflow, l: Located, safeAlias: string -> bool) {
    match l.source
    case Literal(v) => TypeOf(v) in LiteralTypes(l.usage.target)
    case FromVariable(name) => Declares(w, name, VariableTypes(l.usage.target))
    case FromSecret(name) => safeAlias(name) && AllowsSecret(l.usage.target)
    case FromOutput(_) => true
  }

  ghost predicate SourcesAcceptable(w: Workflow, safeAlias: string -> bool) {
    forall l :: Occurs(w.steps, l) ==> Acceptable(w, l, safeAlias)
  }

  // The uses of a source among the first n.
  function UsagesUpTo(sources: seq<Located>, source: Source, n: nat): seq<Usage>
    requires n <= |sources|
  {
    if n == 0 then []
    else UsagesUpTo(sources, source, n - 1) + if sources[n - 1].source == source then [sources[n - 1].usage] else []
  }

  function UsagesWhere(sources: seq<Located>, source: Source): seq<Usage> {
    UsagesUpTo(sources, source, |sources|)
  }

  lemma {:induction false} UsagesUpToMembers(sources: seq<Located>, source: Source, n: nat, u: Usage)
    requires n <= |sources|
    ensures u in UsagesUpTo(sources, source, n) <==> exists i :: 0 <= i < n && sources[i] == Located(source, u)
  {
    if n > 0 {
      UsagesUpToMembers(sources, source, n - 1, u);
    }
  }

  lemma UsagesWhereMembers(sources: seq<Located>, source: Source, u: Usage)
    ensures u in UsagesWhere(sources, source) <==> Located(source, u) in sources
  {
    UsagesUpToMembers(sources, source, |sources|, u);
  }

  // ---------- Static analysis ----------

  function FindVariable(variables: seq<Variable>, name: string): (r: Option<Variable>)
    ensures r.None? <==> forall v :: v in variables ==> v.name != name
    ensures r.Some? ==> r.value in variables && r.value.name == name
  {
    if variables == [] then None
    else if variables[0].name == name then Some(variables[0])
    else
      assert variables == [variables[0]] + variables[1..];
      FindVariable(variables[1..], name)
  }

  lemma DeclaredOnce(w: Workflow, v: Variable, name: string, types: set<ValueType>)
    requires WellFormed(w) && v in w.variables && v.name == name
    ensures Declares(w, name, types) <==> v.valueType in types
  {
    forall u | u in w.variables && u.name == name ensures u == v {
      var i :| 0 <= i < |w.variables| && w.variables[i] == u;
      var j :| 0 <= j < |w.variables| && w.variables[j] == v;
      assert !(i < j) && !(j < i);
    }
  }

  function BlockingIssue(w: Workflow, l: Located, safeAlias: string -> bool): Option<Issue> {
    match l.source
    case FromVariable(name) =>
      (match FindVariable(w.variables, name)
       case None => Some(Blocking(UnknownVariableReference, l.usage, Some(name)))
       case Some(v) =>
         if v.valueType in VariableTypes(l.usage.target) then None
         else Some(Blocking(IncompatibleVariableType, l.usage, Some(name))))
    case Literal(v) =>
      if TypeOf(v) in LiteralTypes(l.usage.target) then None else Some(Blocking(IncompatibleLiteral, l.usage, None))
    case FromOutput(_) => None
    case FromSecret(name) =>
      if !safeAlias(name) then Some(Blocking(UnsafeSecretReference, l.usage, None))
      else if !AllowsSecret(l.usage.target) then Some(Blocking(SecretSourceNotAllowed, l.usage, None))
      else None
  }

  lemma BlockedExactlyWhenUnacceptable(w: Workflow, l: Located, safeAlias: string -> bool)
    requires WellFormed(w)
    ensures BlockingIssue(w, l, safeAlias).None? <==> Acceptable(w, l, safeAlias)
  {
    if l.source.FromVariable? {
      match FindVariable(w.variables, l.source.name)
      case None =>
      case Some(v) => DeclaredOnce(w, v, l.source.name, VariableTypes(l.usage.target));
    }
  }

  // A secret that the analysis accepts as a requirement of the run.
  predicate Required(l: Located, name: string, safeAlias: string -> bool) {
    l.source == FromSecret(name) && safeAlias(name) && AllowsSecret(l.usage.target)
  }

  ghost predicate SecretsCollected(
    secrets: map<string, seq<Usage>>, sources: seq<Located>, safeAlias: string -> bool)
  {
    && (forall name, u :: name in secrets && u in secrets[name] ==>
          Located(FromSecret(name), u) in sources && Required(Located(FromSecret(name), u), name, safeAlias))
    && (forall name, u :: Located(FromSecret(name), u) in sources && Required(Located(FromSecret(name), u), name, safeAlias)
          ==> name in secrets && u in secrets[name])
    && (forall name :: name in secrets ==> secrets[name] != [])
  }

  // ---------- The analysis, source by source ----------

  function AddSecret(secrets: map<string, seq<Usage>>, l: Located, safeAlias: string -> bool): map<string, seq<Usage>> {
    if l.source.FromSecret? && Required(l, l.source.name, safeAlias) then
      var before := if l.source.name in secrets then secrets[l.source.name] else [];
      secrets[l.source.name := before + [l.usage]]
    else secrets
  }

  function AddUsage(usages: map<string, seq<Usage>>, l: Located): map<string, seq<Usage>> {
    if l.source.FromVariable? && l.source.name in usages then usages[l.source.name := usages[l.source.name] + [l.usage]]
    else usages
  }

  ghost predicate CountsUsages(usages: map<string, seq<Usage>>, sources: seq<Located>, n: nat)
    requires n <= |sources|
  {
    forall name :: name in usages ==> usages[name] == UsagesUpTo(sources, FromVariable(name), n)
  }

  lemma UsageAdded(usages: map<string, seq<Usage>>, sources: seq<Located>, n: nat)
    requires n < |sources| && CountsUsages(usages, sources, n)
    ensures CountsUsages(AddUsage(usages, sources[n]), sources, n + 1)
    ensures AddUsage(usages, sources[n]).Keys == usages.Keys
  {}

  ghost function SecretsOf(sources: seq<Located>, safeAlias: string -> bool, n: nat): map<string, seq<Usage>>
    requires n <= |sources|
  {
    if n == 0 then map[] else AddSecret(SecretsOf(sources, safeAlias, n - 1), sources[n - 1], safeAlias)
  }

  lemma {:induction false} SecretsOfCollected(sources: seq<Located>, safeAlias: string -> bool, n: nat)
    requires n <= |sources|
    ensures SecretsCollected(SecretsOf(sources, safeAlias, n), sources[..n], safeAlias)
  {
    if n > 0 {
      assert sources[..n] == sources[..n - 1] + [sources[n - 1]];
      SecretsOfCollected(sources, safeAlias, n - 1);
    }
  }

  ghost function BlockingIssues(w: Workflow, sources: seq<Located>, safeAlias: string -> bool, n: nat): seq<Issue>
    requires n <= |sources|
  {
    if n == 0 then []
    else BlockingIssues(w, sources, safeAlias, n - 1) + Reported(BlockingIssue(w, sources[n - 1], safeAlias))
  }

  function Reported(x: Option<Issue>): seq<Issue> {
    if x.Some? then [x.value] else []
  }

  lemma {:induction false} BlockingIssuesMembers(w: Workflow, sources: seq<Located>, safeAlias: string -> bool, n: nat)
    requires n <= |sources|
    ensures forall x :: x in BlockingIssues(w, sources, safeAlias, n) <==>
              exists i :: 0 <= i < n && BlockingIssue(w, sources[i], safeAlias) == Some(x)
  {
    if n > 0 {
      BlockingIssuesMembers(w, sources, safeAlias, n - 1);
    }
  }

  lemma BlockingIssuesOf(w: Workflow, sources: seq<Located>, safeAlias: string -> bool, x: Issue)
    ensures x in BlockingIssues(w, sources, safeAlias, |sources|) <==>
            exists l :: l in sources && BlockingIssue(w, l, safeAlias) == Some(x)
  {
    BlockingIssuesMembers(w, sources, safeAlias, |sources|);
    if x in BlockingIssues(w, sources, safeAlias, |sources|) {
      var i :| 0 <= i < |sources| && BlockingIssue(w, sources[i], safeAlias) == Some(x);
      assert sources[i] in sources;
    }
  }

  ghost function UnusedVariables(w: Workflow, sources: seq<Located>, n: nat): seq<Issue>
    requires n <= |w.variables|
  {
    if n == 0 then []
    else
      var v := w.variables[n - 1];
      UnusedVariables(w, sources, n - 1)
      + if UsagesWhere(sources, FromVariable(v.name)) == [] then [UnusedVariable(n - 1, v.name)] else []
  }

  lemma {:induction false} UnusedVariablesMembers(w: Workflow, sources: seq<Located>, n: nat, x: Issue)
    requires n <= |w.variables|
    ensures x in UnusedVariables(w, sources, n) <==>
            x.UnusedVariable? && x.index < n && w.variables[x.index].name == x.name
            && UsagesWhere(sources, FromVariable(x.name)) == []
  {
    if n > 0 {
      UnusedVariablesMembers(w, sources, n - 1, x);
    }
  }

  // A source that its property cannot take is reported, with the reason.
  ghost predicate ReportsSource(w: Workflow, safeAlias: string -> bool, x: Issue) {
    exists l :: Occurs(w.steps, l) && BlockingIssue(w, l, safeAlias) == Some(x)
  }

  // A variable that no step uses is reported.
  ghost predicate ReportsUnused(w: Workflow, x: Issue) {
    && x.UnusedVariable?
    && x.index < |w.variables|
    && w.variables[x.index].name == x.name
    && forall u :: !Occurs(w.steps, Located(FromVariable(x.name), u))
  }

  lemma IssuesReported(w: Workflow, safeAlias: string -> bool, x: Issue)
    ensures x in BlockingIssues(w, FindValueSources(w), safeAlias, |FindValueSources(w)|) <==> ReportsSource(w, safeAlias, x)
    ensures x in UnusedVariables(w, FindValueSources(w), |w.variables|) <==> ReportsUnused(w, x)
  {
    BlockingIssuesOf(w, FindValueSources(w), safeAlias, x);
    forall l ensures l in FindValueSources(w) <==> Occurs(w.steps, l) {
      FindsEverySource(w, l);
    }
    UnusedVariablesMembers(w, FindValueSources(w), |w.variables|, x);
    if x.UnusedVariable? {
      UsagesEmpty(w, x.name);
    }
  }

  lemma BlockedExactlyWhen(w: Workflow, sources: seq<Located>, safeAlias: string -> bool)
    requires WellFormed(w) && sources == FindValueSources(w)
    ensures BlockingIssues(w, sources, safeAlias, |sources|) == [] <==> SourcesAcceptable(w, safeAlias)
  {
    var blocking := BlockingIssues(w, sources, safeAlias, |sources|);
    forall l ensures l in sources <==> Occurs(w.steps, l) {
      FindsEverySource(w, l);
    }
    forall l ensures BlockingIssue(w, l, safeAlias).None? <==> Acceptable(w, l, safeAlias) {
      BlockedExactlyWhenUnacceptable(w, l, safeAlias);
    }
    if blocking != [] {
      BlockingIssuesOf(w, sources, safeAlias, blocking[0]);
    } else {
      forall l | l in sources ensures BlockingIssue(w, l, safeAlias).None? {
        forall x ensures BlockingIssue(w, l, safeAlias) != Some(x) {
          BlockingIssuesOf(w, sources, safeAlias, x);
        }
      }
    }
  }

  method ListVariables(w: Workflow, sources: seq<Located>, usagesByVariable: map<string, seq<Usage>>)
    returns (variables: seq<VariableAnalysis>, unused: seq<Issue>)
    requires forall v :: v in w.variables ==> v.name in usagesByVariable
    requires forall name :: name in usagesByVariable ==> usagesByVariable[name] == UsagesWhere(sources, FromVariable(name))
    ensures |variables| == |w.variables|
    ensures forall i :: 0 <= i < |w.variables| ==>
              variables[i] == VariableAnalysis(w.variables[i], UsagesWhere(sources, FromVariable(w.variables[i].name)))
    ensures unused == UnusedVariables(w, sources, |w.variables|)
  {
    variables, unused := [], [];
    for i := 0 to |w.variables|
      invariant |variables| == i
      invariant forall j :: 0 <= j < i ==>
                  variables[j] == VariableAnalysis(w.variables[j], UsagesWhere(sources, FromVariable(w.variables[j].name)))
      invariant unused == UnusedVariables(w, sources, i)
    {
      var v := w.variables[i];
      var usages := usagesByVariable[v.name];
      if usages == [] {
        unused := unused + [UnusedVariable(i, v.name)];
      }
      variables := variables + [VariableAnalysis(v, usages)];
    }
  }

  method CollectUsages(w: Workflow, sources: seq<Located>, safeAlias: string -> bool)
    returns (usagesByVariable: map<string, seq<Usage>>, secrets: map<string, seq<Usage>>, issues: seq<Issue>)
    ensures forall v :: v in w.variables ==> v.name in usagesByVariable
    ensures CountsUsages(usagesByVariable, sources, |sources|)
    ensures secrets == SecretsOf(sources, safeAlias, |sources|)
    ensures issues == BlockingIssues(w, sources, safeAlias, |sources|)
  {
    usagesByVariable, secrets, issues := map v | v in w.variables :: v.name := [], map[], [];
    ghost var names := usagesByVariable.Keys;
    for i := 0 to |sources|
      invariant usagesByVariable.Keys == names && CountsUsages(usagesByVariable, sources, i)
      invariant secrets == SecretsOf(sources, safeAlias, i)
      invariant issues == BlockingIssues(w, sources, safeAlias, i)
    {
      UsageAdded(usagesByVariable, sources, i);
      issues := issues + Reported(BlockingIssue(w, sources[i], safeAlias));
      usagesByVariable := AddUsage(usagesByVariable, sources[i]);
      secrets := AddSecret(secrets, sources[i], safeAlias);
    }
  }

  // The analysis blocks a workflow exactly when some step property cannot take its source;
  // it reports each such source, counts the uses of each variable, and lists the secrets.
  method AnalyzeWorkflowInputs(w: Workflow, safeAlias: string -> bool) returns (a: Analysis)
    requires WellFormed(w)
    ensures a.hasBlockingIssues <==> !SourcesAcceptable(w, safeAlias)
    ensures |a.variables| == |w.variables|
    ensures forall i :: 0 <= i < |w.variables| ==>
              a.variables[i] == VariableAnalysis(w.variables[i], UsagesWhere(FindValueSources(w), FromVariable(w.variables[i].name)))
    ensures SecretsCollected(a.secretRequirements, FindValueSources(w), safeAlias)
    ensures forall x :: x in a.issues <==> ReportsSource(w, safeAlias, x) || ReportsUnused(w, x)
  {
    var sources := FindValueSources(w);
    var usagesByVariable, secrets, blocking := CollectUsages(w, sources, safeAlias);
    var variables, unused := ListVariables(w, sources, usagesByVariable);
    a := Analysis(variables, secrets, blocking + unused, blocking != []);
    SecretsOfCollected(sources, safeAlias, |sources|);
    assert sources[..|sources|] == sources;
    forall x ensures x in blocking + unused <==> ReportsSource(w, safeAlias, x) || ReportsUnused(w, x) {
      IssuesReported(w, safeAlias, x);
    }
    BlockedExactlyWhen(w, sources, safeAlias);
  }

  lemma UsagesEmpty(w: Workflow, name: string)
    ensures UsagesWhere(FindValueSources(w), FromVariable(name)) == [] <==>
            forall u :: !Occurs(w.steps, Located(FromVariable(name), u))
  {
    var sources := FindValueSources(w);
    var usages := UsagesWhere(sources, FromVariable(name));
    forall u ensures u in usages <==> Occurs(w.steps, Located(FromVariable(name), u)) {
      UsagesWhereMembers(sources, FromVariable(name), u);
      FindsEverySource(w, Located(FromVariable(name), u));
    }
    if usages != [] {
      assert usages[0] in usages;
    }
  }

  // ---------- Submitted inputs ----------

  datatype Input = Given(value: Value) | Date(day: string) | File(fileName: string)

  function KindOf(i: Input): ValueType {
    match i
    case Given(v) => TypeOf(v)
    case Date(_) => DateType
    case File(_) => FileType
  }

  datatype RunInputIssue = MissingRequiredInput(name: string) | InputTypeMismatch(name: string) | UnknownInput(name: string)

  // Every required variable is given, every given value has its variable's type, and
  // nothing else is given.
  ghost predicate InputsFit(w: Workflow, values: map<string, Input>) {
    && (forall v :: v in w.variables && v.required ==> v.name in values)
    && (forall v :: v in w.variables && v.name in values ==> KindOf(values[v.name]) == v.valueType)
    && (forall name :: name in values ==> exists v :: v in w.variables && v.name == name)
  }

  // The values are looked up on a plain object: a name that is not given but that every object
  // inherits, such as `constructor`, is found to be something that is no value of any kind.
  function VariableIssue(v: Variable, values: map<string, Input>, inherited: set<string>): Option<RunInputIssue> {
    if v.name !in values && v.name in inherited then Some(InputTypeMismatch(v.name))
    else if v.name !in values then (if v.required then Some(MissingRequiredInput(v.name)) else None)
    else if KindOf(values[v.name]) != v.valueType then Some(InputTypeMismatch(v.name))
    else None
  }

  // No variable with an inherited name goes without a value.
  ghost predicate NoneInherited(w: Workflow, values: map<string, Input>, inherited: set<string>) {
    forall v :: v in w.variables && v.name in inherited ==> v.name in values
  }

  // Inputs that fit are refused exactly when some optional variable with an inherited name goes
  // without a value: this one, for example.
  lemma InheritedNameIsRefused()
    ensures var w := Workflow([Variable("constructor", StringType, false)], [Step("s", Click)]);
            && WellFormed(w) && InputsFit(w, map[]) && !NoneInherited(w, map[], {"constructor", "toString"})
            && VariableIssue(w.variables[0], map[], {"constructor", "toString"}) == Some(InputTypeMismatch("constructor"))
  {
    var v := Variable("constructor", StringType, false);
    assert v in [v] && "constructor" in {"constructor", "toString"};
  }

  // The names of the values arrive in sorted order; any order reports the same issues.
  method ValidateWorkflowRunInputs(
    w: Workflow, values: map<string, Input>, sortedNames: seq<string>, inherited: set<string>)
    returns (issues: seq<RunInputIssue>)
    requires WellFormed(w) && forall name :: name in sortedNames <==> name in values
    ensures issues == [] <==> InputsFit(w, values) && NoneInherited(w, values, inherited)
    ensures forall x :: x in issues <==>
              || (exists v :: v in w.variables && VariableIssue(v, values, inherited) == Some(x))
              || (x.UnknownInput? && x.name in values && forall v :: v in w.variables ==> v.name != x.name)
  {
    issues := [];
    for i := 0 to |w.variables|
      invariant forall x :: x in issues <==> exists v :: v in w.variables[..i] && VariableIssue(v, values, inherited) == Some(x)
    {
      assert w.variables[..i + 1] == w.variables[..i] + [w.variables[i]];
      match VariableIssue(w.variables[i], values, inherited) {
        case Some(x) => issues := issues + [x];
        case None =>
      }
    }
    assert w.variables[..|w.variables|] == w.variables;
    for i := 0 to |sortedNames|
      invariant forall x :: x in issues <==>
                  || (exists v :: v in w.variables && VariableIssue(v, values, inherited) == Some(x))
                  || (x.UnknownInput? && x.name in sortedNames[..i] && forall v :: v in w.variables ==> v.name != x.name)
    {
      assert sortedNames[..i + 1] == sortedNames[..i] + [sortedNames[i]];
      if FindVariable(w.variables, sortedNames[i]).None? {
        issues := issues + [UnknownInput(sortedNames[i])];
      }
    }
    assert sortedNames[..|sortedNames|] == sortedNames;
    if issues != [] {
      assert issues[0] in issues;
    } else {
      forall v | v in w.variables ensures VariableIssue(v, values, inherited).None? {
        assert forall x :: VariableIssue(v, values, inherited) == Some(x) ==> x in issues;
      }
      forall name | name in values ensures exists v :: v in w.variables && v.name == name {
        assert UnknownInput(name) !in issues;
      }
    }
  }
}
