/** Renaming a variable or an output of a workflow, and what it leaves as it was. */
module Renaming {
  import opened Outcomes
  import opened Workflows
  import opened InputAnalysis
  import opened Recovery
  import opened RuntimeValues
  import opened ExtractionAnalysis
  import Preflight

  datatype RenameError = NotFound | InvalidName | NameCollision

  // ---------- Sources ----------

  function MapAssertion(a: Assertion, f: Source -> Source): Assertion {
    match a
    case TextIs(expected) => TextIs(f(expected))
    case ValueIs(expected) => ValueIs(f(expected))
    case UrlIs(expected) => UrlIs(f(expected))
    case _ => a
  }

  function MapAction(a: Action, f: Source -> Source): Action {
    match a
    case Navigate(url) => Navigate(f(url))
    case Fill(value) => Fill(f(value))
    case Select(value) => Select(f(value))
    case Verify(assertion) => Verify(MapAssertion(assertion, f))
    case _ => a
  }

  lemma MapActionMapsSource(a: Action, f: Source -> Source)
    ensures StepSource(MapAction(a, f))
         == match StepSource(a) case None => None case Some((source, target)) => Some((f(source), target))
    ensures MapAction(a, f).Extract? <==> a.Extract?
    ensures a.Extract? ==> MapAction(a, f) == a
  {}

  function RenameVariableSource(from: string, to: string): Source -> Source {
    (s: Source) => if s == FromVariable(from) then FromVariable(to) else s
  }

  function RenameOutputSource(from: string, to: string): Source -> Source {
    (s: Source) => if s == FromOutput(from) then FromOutput(to) else s
  }

  // Steps that differ from others only in their sources.
  ghost predicate SourcesMapped(steps: seq<Step>, mapped: seq<Step>, f: Source -> Source) {
    && |mapped| == |steps|
    && forall k :: 0 <= k < |steps| ==>
         mapped[k].id == steps[k].id
         && StepSource(mapped[k].action)
         == match StepSource(steps[k].action) case None => None case Some((source, target)) => Some((f(source), target))
  }

  // The located sources are mapped one by one, at the same places.
  lemma {:induction false} SourcesMapPointwise(steps: seq<Step>, mapped: seq<Step>, f: Source -> Source, n: nat)
    requires SourcesMapped(steps, mapped, f) && n <= |steps|
    ensures |SourcesUpTo(mapped, n)| == |SourcesUpTo(steps, n)|
    ensures forall i :: 0 <= i < |SourcesUpTo(steps, n)| ==>
              SourcesUpTo(mapped, n)[i] == Located(f(SourcesUpTo(steps, n)[i].source), SourcesUpTo(steps, n)[i].usage)
  {
    if n > 0 {
      SourcesMapPointwise(steps, mapped, f, n - 1);
    }
  }

  lemma MappedSourceOccurs(steps: seq<Step>, mapped: seq<Step>, f: Source -> Source, l: Located)
    requires SourcesMapped(steps, mapped, f)
    ensures Occurs(mapped, l) <==> exists source :: Occurs(steps, Located(source, l.usage)) && l.source == f(source)
  {
    var k := l.usage.stepIndex;
    if Occurs(mapped, l) {
      var (source, target) := StepSource(steps[k].action).value;
      assert Occurs(steps, Located(source, l.usage)) && l.source == f(source);
    }
  }

  // ---------- Variables ----------

  function IndexOf(variables: seq<Variable>, name: string): (r: Option<nat>)
    ensures r.None? <==> forall v :: v in variables ==> v.name != name
    ensures r.Some? ==> r.value < |variables| && variables[r.value].name == name
  {
    if variables == [] then None
    else if variables[0].name == name then Some(0)
    else
      assert variables == [variables[0]] + variables[1..];
      match IndexOf(variables[1..], name)
      case None => None
      case Some(i) => Some(i + 1)
  }

  function MapSteps(steps: seq<Step>, f: Source -> Source): (r: seq<Step>)
    ensures |r| == |steps| && forall k :: 0 <= k < |r| ==> r[k] == Step(steps[k].id, MapAction(steps[k].action, f))
  {
    seq(|steps|, k requires 0 <= k < |steps| => Step(steps[k].id, MapAction(steps[k].action, f)))
  }

  lemma MapStepsMapsSources(steps: seq<Step>, f: Source -> Source)
    ensures SourcesMapped(steps, MapSteps(steps, f), f)
  {
    forall k | 0 <= k < |steps|
      ensures StepSource(MapSteps(steps, f)[k].action)
           == match StepSource(steps[k].action) case None => None case Some((source, target)) => Some((f(source), target))
    {
      MapActionMapsSource(steps[k].action, f);
    }
  }

  function RenameVariable(w: Workflow, from: string, to: string, isIdentifier: string -> bool): Result<Workflow, RenameError> {
    match IndexOf(w.variables, from)
    case None => Err(NotFound)
    case Some(i) =>
      if !isIdentifier(to) then Err(InvalidName)
      else if from != to && IndexOf(w.variables, to).Some? then Err(NameCollision)
      else if from == to then Ok(w)
      else Ok(Workflow(w.variables[i := w.variables[i].(name := to)], MapSteps(w.steps, RenameVariableSource(from, to))))
  }

  // Some step takes its value from the source.
  ghost predicate Refers(w: Workflow, source: Source) {
    exists u :: Occurs(w.steps, Located(source, u))
  }

  lemma StepRefers(w: Workflow, k: nat)
    requires k < |w.steps|
    ensures StepSource(w.steps[k].action).Some? ==> Refers(w, StepSource(w.steps[k].action).value.0)
  {
    if StepSource(w.steps[k].action).Some? {
      var (source, target) := StepSource(w.steps[k].action).value;
      assert Occurs(w.steps, Located(source, Usage(k, w.steps[k].id, target)));
    }
  }

  function RenameInput(inputs: map<string, Input>, from: string, to: string): map<string, Input> {
    if from in inputs then (inputs - {from})[to := inputs[from]] else inputs
  }

  lemma RenamedDeclares(w: Workflow, from: string, to: string, isIdentifier: string -> bool, name: string, types: set<ValueType>)
    requires WellFormed(w) && RenameVariable(w, from, to, isIdentifier).Ok? && name != to
    ensures Declares(RenameVariable(w, from, to, isIdentifier).value, if name == from then to else name, types)
       <==> Declares(w, name, types)
  {
    var r := RenameVariable(w, from, to, isIdentifier).value;
    var i := IndexOf(w.variables, from).value;
    var renamed := if name == from then to else name;
    if from != to {
      assert forall j :: 0 <= j < |w.variables| && j != i ==> w.variables[j].name != from && w.variables[j].name != to;
      if Declares(w, name, types) {
        var v :| v in w.variables && v.name == name && v.valueType in types;
        var j :| 0 <= j < |w.variables| && w.variables[j] == v;
        assert r.variables[j] in r.variables;
      }
      if Declares(r, renamed, types) {
        var v :| v in r.variables && v.name == renamed && v.valueType in types;
        var j :| 0 <= j < |r.variables| && r.variables[j] == v;
        assert w.variables[j] in w.variables;
      }
    }
  }

  // A workflow without a reference to the new name keeps being accepted, or rejected; so
  // does the flow of its outputs; and it stays well formed.
  lemma RenamedVariableStaysAcceptable(w: Workflow, from: string, to: string, isIdentifier: string -> bool, safeAlias: string -> bool)
    requires WellFormed(w) && RenameVariable(w, from, to, isIdentifier).Ok? && !Refers(w, FromVariable(to))
    requires from != to
    ensures var r := RenameVariable(w, from, to, isIdentifier).value;
            WellFormed(r) && (SourcesAcceptable(r, safeAlias) <==> SourcesAcceptable(w, safeAlias))
  {
    var r, f := RenameVariable(w, from, to, isIdentifier).value, RenameVariableSource(from, to);
    MapStepsMapsSources(w.steps, f);
    RenamedStaysWellFormed(w, from, to, isIdentifier);
    forall source, u | Occurs(w.steps, Located(source, u))
      ensures Occurs(r.steps, Located(f(source), u))
      ensures Acceptable(r, Located(f(source), u), safeAlias) <==> Acceptable(w, Located(source, u), safeAlias)
    {
      MappedSourceOccurs(w.steps, r.steps, f, Located(f(source), u));
      if source.FromVariable? {
        RenamedDeclares(w, from, to, isIdentifier, source.name, VariableTypes(u.target));
      }
    }
    forall l | Occurs(r.steps, l) ensures exists source :: Occurs(w.steps, Located(source, l.usage)) && l.source == f(source) {
      MappedSourceOccurs(w.steps, r.steps, f, l);
    }
  }

  lemma RenamedStaysWellFormed(w: Workflow, from: string, to: string, isIdentifier: string -> bool)
    requires WellFormed(w) && RenameVariable(w, from, to, isIdentifier).Ok?
    ensures WellFormed(RenameVariable(w, from, to, isIdentifier).value)
  {
    var r := RenameVariable(w, from, to, isIdentifier).value;
    assert forall k :: 0 <= k < |r.steps| ==> r.steps[k].id == w.steps[k].id;
  }

  // Renaming keeps every resolution under renamed inputs, as long as the inputs do not use
  // the new name.
  lemma RenamedVariableResolves(from: string, to: string, source: Source, target: Target, inputs: map<string, Input>)
    requires to !in inputs && source != FromVariable(to)
    ensures ResolveValueSource(RenameVariableSource(from, to)(source), target, RenameInput(inputs, from, to))
         == ResolveValueSource(source, target, inputs)
  {}

  lemma RestoredAction(a: Action, from: string, to: string)
    requires StepSource(a).Some? ==> StepSource(a).value.0 != FromVariable(to)
    ensures MapAction(MapAction(a, RenameVariableSource(from, to)), RenameVariableSource(to, from)) == a
  {}

  lemma RestoredVariables(variables: seq<Variable>, i: nat, from: string, to: string)
    requires i < |variables| && variables[i].name == from && from != to
    requires forall j :: 0 <= j < |variables| && j != i ==> variables[j].name != from && variables[j].name != to
    ensures var renamed := variables[i := variables[i].(name := to)];
            && IndexOf(renamed, to) == Some(i) && IndexOf(renamed, from).None?
            && renamed[i := renamed[i].(name := from)] == variables
  {
    var renamed := variables[i := variables[i].(name := to)];
    assert renamed[i] in renamed;
    assert renamed[i].(name := from) == variables[i];
  }

  // Renaming back restores the workflow.
  lemma RenamingBackRestores(w: Workflow, from: string, to: string, isIdentifier: string -> bool)
    requires WellFormed(w) && RenameVariable(w, from, to, isIdentifier).Ok? && isIdentifier(from)
    requires from != to && !Refers(w, FromVariable(to))
    ensures RenameVariable(RenameVariable(w, from, to, isIdentifier).value, to, from, isIdentifier) == Ok(w)
  {
    var r := RenameVariable(w, from, to, isIdentifier).value;
    var i := IndexOf(w.variables, from).value;
    assert forall j :: 0 <= j < |w.variables| && j != i ==> w.variables[j].name != from && w.variables[j].name != to;
    RestoredVariables(w.variables, i, from, to);
    var back := MapSteps(r.steps, RenameVariableSource(to, from));
    forall k | 0 <= k < |w.steps| ensures back[k] == w.steps[k] {
      StepRefers(w, k);
      RestoredAction(w.steps[k].action, from, to);
    }
    assert back == w.steps;
  }

  // The condition is needed: a reference to the new name, which no variable had, is captured,
  // and renaming back restores the workflow exactly when there is none.
  lemma RenamingCaptures(w: Workflow, from: string, to: string, isIdentifier: string -> bool)
    requires WellFormed(w) && RenameVariable(w, from, to, isIdentifier).Ok? && isIdentifier(from) && from != to
    ensures RenameVariable(RenameVariable(w, from, to, isIdentifier).value, to, from, isIdentifier) == Ok(w)
       <==> !Refers(w, FromVariable(to))
  {
    if !Refers(w, FromVariable(to)) {
      RenamingBackRestores(w, from, to, isIdentifier);
    } else {
      var r := RenameVariable(w, from, to, isIdentifier).value;
      var u :| Occurs(w.steps, Located(FromVariable(to), u));
      var k := u.stepIndex;
      MapActionMapsSource(w.steps[k].action, RenameVariableSource(from, to));
      assert StepSource(r.steps[k].action) == Some((FromVariable(to), u.target));
      match RenameVariable(r, to, from, isIdentifier) {
        case Err(_) =>
        case Ok(back) =>
          MapActionMapsSource(r.steps[k].action, RenameVariableSource(to, from));
          assert StepSource(back.steps[k].action) == Some((FromVariable(from), u.target));
      }
    }
  }

  // Such a workflow: it declares `a`, and fills in the value of `b`, which it does not declare.
  lemma ACapturedReference(isIdentifier: string -> bool)
    requires isIdentifier("a") && isIdentifier("b")
    ensures var w := Workflow([Variable("a", StringType, true)], [Step("s", Fill(FromVariable("b")))]);
            && WellFormed(w) && Refers(w, FromVariable("b"))
            && RenameVariable(w, "a", "b", isIdentifier)
            == Ok(Workflow([Variable("b", StringType, true)], [Step("s", Fill(FromVariable("b")))]))
            && RenameVariable(RenameVariable(w, "a", "b", isIdentifier).value, "b", "a", isIdentifier) != Ok(w)
  {
    var w := Workflow([Variable("a", StringType, true)], [Step("s", Fill(FromVariable("b")))]);
    assert Occurs(w.steps, Located(FromVariable("b"), Usage(0, "s", FillValue)));
    assert "a"[0] != "b"[0];
    assert w.variables[0] in w.variables;
    var r := RenameVariable(w, "a", "b", isIdentifier).value;
    assert r.variables == [Variable("b", StringType, true)];
    assert r.steps == [Step("s", Fill(FromVariable("b")))];
    RenamingCaptures(w, "a", "b", isIdentifier);
  }

  // A workflow that the input analysis accepts has no such reference.
  lemma AcceptedRefersToDeclared(w: Workflow, safeAlias: string -> bool, name: string)
    requires SourcesAcceptable(w, safeAlias) && IndexOf(w.variables, name).None?
    ensures !Refers(w, FromVariable(name))
  {
    forall u ensures !Occurs(w.steps, Located(FromVariable(name), u)) {
      assert Occurs(w.steps, Located(FromVariable(name), u)) ==> Acceptable(w, Located(FromVariable(name), u), safeAlias);
    }
  }

  // So renaming a variable of an accepted workflow gives an accepted workflow, and renaming
  // it back restores the first.
  lemma RenamingAcceptedWorkflows(w: Workflow, from: string, to: string, isIdentifier: string -> bool, safeAlias: string -> bool)
    requires WellFormed(w) && SourcesAcceptable(w, safeAlias)
    requires RenameVariable(w, from, to, isIdentifier).Ok? && isIdentifier(from)
    ensures var r := RenameVariable(w, from, to, isIdentifier).value;
            && WellFormed(r) && SourcesAcceptable(r, safeAlias)
            && RenameVariable(r, to, from, isIdentifier) == Ok(w)
  {
    if from != to {
      AcceptedRefersToDeclared(w, safeAlias, to);
      RenamedVariableStaysAcceptable(w, from, to, isIdentifier, safeAlias);
      RenamingBackRestores(w, from, to, isIdentifier);
    }
  }

  // Renaming a variable does not touch the flow of the outputs.
  lemma RenamedVariableStillFlows(w: Workflow, from: string, to: string, isIdentifier: string -> bool)
    requires DataFlows(w) && RenameVariable(w, from, to, isIdentifier).Ok?
    ensures DataFlows(RenameVariable(w, from, to, isIdentifier).value)
  {
    var r, f := RenameVariable(w, from, to, isIdentifier).value, RenameVariableSource(from, to);
    if from != to {
      MapStepsMapsSources(w.steps, f);
      forall k: nat, name, t ensures Produces(r.steps, k, name, t) <==> Produces(w.steps, k, name, t) {
        if k < |w.steps| { MapActionMapsSource(w.steps[k].action, f); }
      }
      forall k: nat | k < |w.steps| ensures r.steps[k].action.Extract? ==> r.steps[k].action == w.steps[k].action {
        MapActionMapsSource(w.steps[k].action, f);
      }
      forall l | Occurs(r.steps, l) && l.source.FromOutput?
        ensures ProducedBefore(r.steps, l.usage.stepIndex, l.source.name, l.usage.target)
      {
        MappedSourceOccurs(w.steps, r.steps, f, l);
        assert Occurs(w.steps, l);
        assert ProducedBefore(w.steps, l.usage.stepIndex, l.source.name, l.usage.target);
      }
    }
  }

  lemma RenamedInputsFit(w: Workflow, from: string, to: string, isIdentifier: string -> bool, inputs: map<string, Input>)
    requires WellFormed(w) && RenameVariable(w, from, to, isIdentifier).Ok? && from != to && InputsFit(w, inputs)
    ensures to !in inputs
    ensures InputsFit(RenameVariable(w, from, to, isIdentifier).value, RenameInput(inputs, from, to))
  {
    var r, renamed := RenameVariable(w, from, to, isIdentifier).value, RenameInput(inputs, from, to);
    var i := IndexOf(w.variables, from).value;
    assert forall j :: 0 <= j < |w.variables| && j != i ==> w.variables[j].name != from && w.variables[j].name != to;
    forall v | v in r.variables
      ensures (v.required ==> v.name in renamed) && (v.name in renamed ==> KindOf(renamed[v.name]) == v.valueType)
    {
      var j :| 0 <= j < |r.variables| && r.variables[j] == v;
      assert w.variables[j] in w.variables;
    }
    forall name | name in renamed ensures exists v :: v in r.variables && v.name == name {
      var old_ := if name == to then from else name;
      var v :| v in w.variables && v.name == old_;
      var j :| 0 <= j < |w.variables| && w.variables[j] == v;
      assert r.variables[j] in r.variables && r.variables[j].name == name;
    }
  }

  // At every place of the workflow the renamed source resolves under the renamed inputs as the
  // source did, or fails with the same error.
  ghost predicate ResolvesAlike(w: Workflow, r: Workflow, f: Source -> Source, before: Resolver, outputs: map<string, Stored>,
                                after: Resolver, renamed: map<string, Stored>) {
    var sources, mapped := FindValueSources(w), FindValueSources(r);
    && |mapped| == |sources|
    && forall i :: 0 <= i < |sources| ==>
         && mapped[i] == Located(f(sources[i].source), sources[i].usage)
         && ResolveWithOutputs(after, renamed, mapped[i].source, mapped[i].usage.target)
         == ResolveWithOutputs(before, outputs, sources[i].source, sources[i].usage.target)
  }

  lemma PointwiseAlike(w: Workflow, r: Workflow, f: Source -> Source, before: Resolver, outputs: map<string, Stored>,
                       after: Resolver, renamed: map<string, Stored>)
    requires SourcesMapped(w.steps, r.steps, f)
    requires forall l :: Occurs(w.steps, l) ==>
               ResolveWithOutputs(after, renamed, f(l.source), l.usage.target) == ResolveWithOutputs(before, outputs, l.source, l.usage.target)
    ensures ResolvesAlike(w, r, f, before, outputs, after, renamed)
  {
    SourcesMapPointwise(w.steps, r.steps, f, |w.steps|);
    forall l | l in FindValueSources(w) ensures Occurs(w.steps, l) {
      FindsEverySource(w, l);
    }
  }

  // Renaming a variable of an accepted workflow keeps its meaning: the renamed inputs fit as
  // the inputs did, the workflow is still accepted, and every source resolves as before.
  lemma RenamedVariableMeansTheSame(
    w: Workflow, from: string, to: string, isIdentifier: string -> bool, safeAlias: string -> bool,
    inputs: map<string, Input>, outputs: map<string, Stored>)
    requires WellFormed(w) && SourcesAcceptable(w, safeAlias) && DataFlows(w) && InputsFit(w, inputs)
    requires RenameVariable(w, from, to, isIdentifier).Ok?
    ensures var r, renamed := RenameVariable(w, from, to, isIdentifier).value, RenameInput(inputs, from, to);
            && WellFormed(r) && SourcesAcceptable(r, safeAlias) && DataFlows(r) && InputsFit(r, renamed)
            && ResolvesAlike(w, r, RenameVariableSource(from, to), CreateRuntimeValueResolver(inputs), outputs,
                             CreateRuntimeValueResolver(renamed), outputs)
  {
    if from == to {
      assert RenameInput(inputs, from, to) == inputs;
    } else {
      var r, f := RenameVariable(w, from, to, isIdentifier).value, RenameVariableSource(from, to);
      AcceptedRefersToDeclared(w, safeAlias, to);
      RenamedVariableStaysAcceptable(w, from, to, isIdentifier, safeAlias);
      RenamedVariableStillFlows(w, from, to, isIdentifier);
      RenamedInputsFit(w, from, to, isIdentifier, inputs);
      MapStepsMapsSources(w.steps, f);
      var before, after := CreateRuntimeValueResolver(inputs), CreateRuntimeValueResolver(RenameInput(inputs, from, to));
      forall l | Occurs(w.steps, l)
        ensures ResolveWithOutputs(after, outputs, f(l.source), l.usage.target) == ResolveWithOutputs(before, outputs, l.source, l.usage.target)
      {
        assert Occurs(w.steps, Located(l.source, l.usage));
        RenamedVariableResolves(from, to, l.source, l.usage.target, inputs);
      }
      PointwiseAlike(w, r, f, before, outputs, after, outputs);
    }
  }

  // ---------- Outputs ----------

  function FindExtract(steps: seq<Step>, name: string): (r: Option<nat>)
    ensures r.None? <==> forall k :: 0 <= k < |steps| && steps[k].action.Extract? ==> steps[k].action.outputName != name
    ensures r.Some? ==> r.value < |steps| && steps[r.value].action.Extract? && steps[r.value].action.outputName == name
  {
    if steps == [] then None
    else if steps[0].action.Extract? && steps[0].action.outputName == name then Some(0)
    else
      assert forall k :: 0 < k < |steps| ==> steps[k] == steps[1..][k - 1];
      match FindExtract(steps[1..], name)
      case None => None
      case Some(i) => Some(i + 1)
  }

  function RenameProducer(a: Action, to: string): Action {
    match a
    case Extract(from, _) => Extract(from, to)
    case _ => a
  }

  function OutputSteps(steps: seq<Step>, producer: nat, from: string, to: string): (r: seq<Step>)
    ensures |r| == |steps|
    ensures forall k :: 0 <= k < |steps| ==>
              r[k] == Step(steps[k].id, MapAction(if k == producer then RenameProducer(steps[k].action, to) else steps[k].action,
                                                  RenameOutputSource(from, to)))
  {
    seq(|steps|, k requires 0 <= k < |steps| =>
      Step(steps[k].id, MapAction(if k == producer then RenameProducer(steps[k].action, to) else steps[k].action,
                                  RenameOutputSource(from, to))))
  }

  function RenameOutput(w: Workflow, from: string, to: string, isIdentifier: string -> bool): Result<Workflow, RenameError> {
    match FindExtract(w.steps, from)
    case None => Err(NotFound)
    case Some(p) =>
      if !isIdentifier(to) then Err(InvalidName)
      else if from != to && FindExtract(w.steps, to).Some? then Err(NameCollision)
      else if from == to then Ok(w)
      else Ok(Workflow(w.variables, OutputSteps(w.steps, p, from, to)))
  }

  lemma OutputStepsMapSources(steps: seq<Step>, producer: nat, from: string, to: string)
    requires producer < |steps| && steps[producer].action.Extract?
    ensures SourcesMapped(steps, OutputSteps(steps, producer, from, to), RenameOutputSource(from, to))
  {
    forall k | 0 <= k < |steps|
      ensures StepSource(OutputSteps(steps, producer, from, to)[k].action)
           == match StepSource(steps[k].action) case None => None case Some((source, target)) => Some((RenameOutputSource(from, to)(source), target))
    {
      MapActionMapsSource(if k == producer then RenameProducer(steps[k].action, to) else steps[k].action, RenameOutputSource(from, to));
    }
  }

  // In a workflow whose data flows, the renamed extraction is the only producer of the name,
  // and every other extraction stays as it is.
  lemma RenamedProducers(w: Workflow, from: string, to: string, isIdentifier: string -> bool, k: nat, name: string, t: ValueType)
    requires DataFlows(w) && RenameOutput(w, from, to, isIdentifier).Ok? && from != to
    ensures Produces(RenameOutput(w, from, to, isIdentifier).value.steps, k, name, t) <==>
            if name == to then Produces(w.steps, k, from, t) else name != from && Produces(w.steps, k, name, t)
  {
    var r, p := RenameOutput(w, from, to, isIdentifier).value, FindExtract(w.steps, from).value;
    if k < |w.steps| {
      MapActionMapsSource(if k == p then RenameProducer(w.steps[k].action, to) else w.steps[k].action, RenameOutputSource(from, to));
      var own := OutputTypeOf(w.steps[p].action.from).value;
      assert Produces(w.steps, p, from, own);
      if Produces(w.steps, k, from, t) {
        OnlyProducer(w.steps, OutputDefinition(from, own, p));
      }
      if k != p && w.steps[k].action.Extract? && w.steps[k].action.outputName == from {
        assert Produces(w.steps, k, from, OutputTypeOf(w.steps[k].action.from).value);
        OnlyProducer(w.steps, OutputDefinition(from, own, p));
      }
    }
  }

  lemma AcceptedReferencesAreProduced(w: Workflow, name: string)
    requires DataFlows(w) && FindExtract(w.steps, name).None?
    ensures !Refers(w, FromOutput(name))
  {
    forall u ensures !Occurs(w.steps, Located(FromOutput(name), u)) {
      assert Occurs(w.steps, Located(FromOutput(name), u)) ==> ProducedBefore(w.steps, u.stepIndex, name, u.target);
    }
  }

  lemma RenamedProducedBefore(
    w: Workflow, from: string, to: string, isIdentifier: string -> bool, k: nat, name: string, target: Target)
    requires DataFlows(w) && RenameOutput(w, from, to, isIdentifier).Ok? && from != to && name != to
    requires ProducedBefore(w.steps, k, name, target)
    ensures ProducedBefore(RenameOutput(w, from, to, isIdentifier).value.steps, k, if name == from then to else name, target)
  {
    var r := RenameOutput(w, from, to, isIdentifier).value;
    var p: nat, t :| Produces(w.steps, p, name, t) && p < k && IsOutputTypeCompatible(target, t);
    RenamedProducers(w, from, to, isIdentifier, p, if name == from then to else name, t);
    assert Produces(r.steps, p, if name == from then to else name, t);
  }

  lemma RenamedOutputsStayUnique(w: Workflow, from: string, to: string, isIdentifier: string -> bool)
    requires DataFlows(w) && RenameOutput(w, from, to, isIdentifier).Ok? && from != to
    ensures var r := RenameOutput(w, from, to, isIdentifier).value;
            SupportedExtractions(r.steps, |r.steps|) && UniqueOutputs(r.steps, |r.steps|)
  {
    var r, p := RenameOutput(w, from, to, isIdentifier).value, FindExtract(w.steps, from).value;
    forall k | 0 <= k < |r.steps| && r.steps[k].action.Extract? ensures OutputTypeOf(r.steps[k].action.from).Some? {
      MapActionMapsSource(if k == p then RenameProducer(w.steps[k].action, to) else w.steps[k].action, RenameOutputSource(from, to));
    }
    forall i: nat, j: nat, name, t, u | i < j < |r.steps| && Produces(r.steps, i, name, t) ensures !Produces(r.steps, j, name, u) {
      RenamedProducers(w, from, to, isIdentifier, i, name, t);
      RenamedProducers(w, from, to, isIdentifier, j, name, u);
    }
  }

  // Renaming an output keeps the data flow accepted.
  lemma RenamedOutputStillFlows(w: Workflow, from: string, to: string, isIdentifier: string -> bool)
    requires DataFlows(w) && RenameOutput(w, from, to, isIdentifier).Ok?
    ensures DataFlows(RenameOutput(w, from, to, isIdentifier).value)
  {
    if from != to {
      var r, p, f := RenameOutput(w, from, to, isIdentifier).value, FindExtract(w.steps, from).value, RenameOutputSource(from, to);
      OutputStepsMapSources(w.steps, p, from, to);
      RenamedOutputsStayUnique(w, from, to, isIdentifier);
      AcceptedReferencesAreProduced(w, to);
      forall l | Occurs(r.steps, l) && l.source.FromOutput?
        ensures ProducedBefore(r.steps, l.usage.stepIndex, l.source.name, l.usage.target)
      {
        MappedSourceOccurs(w.steps, r.steps, f, l);
        var source :| Occurs(w.steps, Located(source, l.usage)) && l.source == f(source);
        assert ProducedBefore(w.steps, l.usage.stepIndex, source.name, l.usage.target);
        RenamedProducedBefore(w, from, to, isIdentifier, l.usage.stepIndex, source.name, l.usage.target);
      }
    }
  }

  function RenameStored(values: map<string, Stored>, from: string, to: string): map<string, Stored> {
    if from in values then (values - {from})[to := values[from]] else values
  }

  // Every reference resolves as before, from a store with the renamed output.
  lemma RenamedOutputResolves(from: string, to: string, name: string, accepted: set<ValueType>, values: map<string, Stored>)
    requires to !in values && name != to
    ensures RenameOutputSource(from, to)(FromOutput(name)).FromOutput?
    ensures GetOutput(RenameStored(values, from, to), RenameOutputSource(from, to)(FromOutput(name)).name, accepted)
         == GetOutput(values, name, accepted)
  {}

  lemma RestoredStep(a: Action, isProducer: bool, from: string, to: string)
    requires from != to
    requires isProducer ==> a.Extract? && a.outputName == from
    requires StepSource(a).Some? ==> StepSource(a).value.0 != FromOutput(to)
    ensures var there := MapAction(if isProducer then RenameProducer(a, to) else a, RenameOutputSource(from, to));
            MapAction(if isProducer then RenameProducer(there, from) else there, RenameOutputSource(to, from)) == a
  {}

  // Renaming an output back restores the workflow.
  lemma RenamingOutputBackRestores(w: Workflow, from: string, to: string, isIdentifier: string -> bool)
    requires DataFlows(w) && RenameOutput(w, from, to, isIdentifier).Ok? && isIdentifier(from) && from != to
    ensures RenameOutput(RenameOutput(w, from, to, isIdentifier).value, to, from, isIdentifier) == Ok(w)
  {
    var r, p := RenameOutput(w, from, to, isIdentifier).value, FindExtract(w.steps, from).value;
    AcceptedReferencesAreProduced(w, to);
    ProducerOfNewName(w, from, to, isIdentifier);
    var back := OutputSteps(r.steps, p, to, from);
    forall k | 0 <= k < |w.steps| ensures back[k] == w.steps[k] {
      StepRefers(w, k);
      RestoredStep(w.steps[k].action, k == p, from, to);
    }
    assert back == w.steps;
  }

  lemma ProducerOfNewName(w: Workflow, from: string, to: string, isIdentifier: string -> bool)
    requires DataFlows(w) && RenameOutput(w, from, to, isIdentifier).Ok? && from != to
    ensures var r := RenameOutput(w, from, to, isIdentifier).value;
            FindExtract(r.steps, to) == FindExtract(w.steps, from) && FindExtract(r.steps, from).None?
  {
    var r, p := RenameOutput(w, from, to, isIdentifier).value, FindExtract(w.steps, from).value;
    var own := OutputTypeOf(w.steps[p].action.from).value;
    assert Produces(w.steps, p, from, own);
    forall k: nat | k < |r.steps|
      ensures r.steps[k].action.Extract? <==> w.steps[k].action.Extract?
      ensures r.steps[k].action.Extract? ==> (r.steps[k].action.outputName == to <==> k == p) && r.steps[k].action.outputName != from
    {
      MapActionMapsSource(if k == p then RenameProducer(w.steps[k].action, to) else w.steps[k].action, RenameOutputSource(from, to));
      if k != p && w.steps[k].action.Extract? && w.steps[k].action.outputName == from {
        assert Produces(w.steps, k, from, OutputTypeOf(w.steps[k].action.from).value);
        OnlyProducer(w.steps, OutputDefinition(from, own, p));
      }
    }
    assert r.steps[p].action.Extract?;
  }

  // An output is no input: the input analysis accepts the renamed workflow as it did the old.
  lemma RenamedOutputStaysAcceptable(w: Workflow, from: string, to: string, isIdentifier: string -> bool, safeAlias: string -> bool)
    requires WellFormed(w) && RenameOutput(w, from, to, isIdentifier).Ok?
    ensures var r := RenameOutput(w, from, to, isIdentifier).value;
            WellFormed(r) && (SourcesAcceptable(r, safeAlias) <==> SourcesAcceptable(w, safeAlias))
  {
    if from != to {
      var r, p, f := RenameOutput(w, from, to, isIdentifier).value, FindExtract(w.steps, from).value, RenameOutputSource(from, to);
      OutputStepsMapSources(w.steps, p, from, to);
      assert forall k :: 0 <= k < |r.steps| ==> r.steps[k].id == w.steps[k].id;
      forall source, u | Occurs(w.steps, Located(source, u))
        ensures Occurs(r.steps, Located(f(source), u))
        ensures Acceptable(r, Located(f(source), u), safeAlias) <==> Acceptable(w, Located(source, u), safeAlias)
      {
        MappedSourceOccurs(w.steps, r.steps, f, Located(f(source), u));
      }
      forall l | Occurs(r.steps, l) ensures exists source :: Occurs(w.steps, Located(source, l.usage)) && l.source == f(source) {
        MappedSourceOccurs(w.steps, r.steps, f, l);
      }
    }
  }

  // The store of a run of the renamed workflow, from that of a run of the old one.
  lemma RenamedStoreHolds(
    w: Workflow, from: string, to: string, isIdentifier: string -> bool, k: nat, values: map<string, Stored>)
    requires DataFlows(w) && RenameOutput(w, from, to, isIdentifier).Ok? && from != to && k <= |w.steps|
    requires Preflight.HoldsOutputsOf(values, w.steps, k)
    ensures to !in values
    ensures Preflight.HoldsOutputsOf(RenameStored(values, from, to), RenameOutput(w, from, to, isIdentifier).value.steps, k)
  {
    var r, renamed := RenameOutput(w, from, to, isIdentifier).value, RenameStored(values, from, to);
    assert forall i: nat, t :: !Produces(w.steps, i, to, t);
    forall i: nat, name, t | i < k && Produces(r.steps, i, name, t)
      ensures name in renamed && renamed[name].valueType == t && TypeOf(renamed[name].value) == t
    {
      RenamedProducers(w, from, to, isIdentifier, i, name, t);
    }
    forall name | name in renamed ensures exists i: nat, t :: i < k && Produces(r.steps, i, name, t) {
      var old_ := if name == to then from else name;
      var i: nat, t :| i < k && Produces(w.steps, i, old_, t);
      RenamedProducers(w, from, to, isIdentifier, i, name, t);
      assert Produces(r.steps, i, name, t);
    }
  }

  // Renaming an output of an accepted workflow keeps its meaning: it is still accepted, the
  // renamed store holds what its steps produce, and every source resolves as before, whatever
  // resolver is in use.
  lemma RenamedOutputMeansTheSame(
    w: Workflow, from: string, to: string, isIdentifier: string -> bool, safeAlias: string -> bool,
    resolver: Resolver, k: nat, values: map<string, Stored>)
    requires WellFormed(w) && SourcesAcceptable(w, safeAlias) && DataFlows(w)
    requires RenameOutput(w, from, to, isIdentifier).Ok? && k <= |w.steps| && Preflight.HoldsOutputsOf(values, w.steps, k)
    ensures var r, renamed := RenameOutput(w, from, to, isIdentifier).value, RenameStored(values, from, to);
            && WellFormed(r) && SourcesAcceptable(r, safeAlias) && DataFlows(r)
            && |r.steps| == |w.steps| && Preflight.HoldsOutputsOf(renamed, r.steps, k)
            && ResolvesAlike(w, r, RenameOutputSource(from, to), resolver, values, resolver, renamed)
  {
    if from == to {
      assert RenameStored(values, from, to) == values;
    } else {
      var r, p, f := RenameOutput(w, from, to, isIdentifier).value, FindExtract(w.steps, from).value, RenameOutputSource(from, to);
      RenamedOutputStaysAcceptable(w, from, to, isIdentifier, safeAlias);
      RenamedOutputStillFlows(w, from, to, isIdentifier);
      RenamedStoreHolds(w, from, to, isIdentifier, k, values);
      AcceptedReferencesAreProduced(w, to);
      OutputStepsMapSources(w.steps, p, from, to);
      forall l | Occurs(w.steps, l)
        ensures ResolveWithOutputs(resolver, RenameStored(values, from, to), f(l.source), l.usage.target)
             == ResolveWithOutputs(resolver, values, l.source, l.usage.target)
      {
        assert Occurs(w.steps, Located(l.source, l.usage));
        if l.source.FromOutput? {
          RenamedOutputResolves(from, to, l.source.name, VariableTypes(l.usage.target), values);
        }
      }
      PointwiseAlike(w, r, f, resolver, values, resolver, RenameStored(values, from, to));
    }
  }
}
