/** Workflow definitions as the schema accepts them, and the places where their steps
    take a value from a literal, a variable, a secret or an earlier output. */
module Workflows {
  import opened Outcomes

  datatype ValueType = StringType | NumberType | BooleanType | DateType | FileType

  // A number is held as its ECMAScript text.
  datatype Value = Str(text: string) | Num(text: string) | Bool(flag: bool)

  function TypeOf(v: Value): ValueType {
    match v
    case Str(_) => StringType
    case Num(_) => NumberType
    case Bool(_) => BooleanType
  }

  datatype Source =
    | Literal(value: Value)
    | FromVariable(name: string)
    | FromSecret(name: string)
    | FromOutput(name: string)

  datatype Target = NavigateUrl | FillValue | SelectValue | VerifyText | VerifyValue | VerifyUrl

  datatype Assertion =
    | Visible
    | Hidden
    | TextIs(expected: Source)
    | ValueIs(expected: Source)
    | UrlIs(expected: Source)
    | CheckedIs(checked: bool)

  datatype Extraction = ExtractText | ExtractValue | ExtractAttribute | ExtractChecked | ExtractUrl

  datatype Action =
    | Navigate(url: Source)
    | Click
    | Fill(value: Source)
    | Select(value: Source)
    | SetChecked(checked: bool)
    | Wait
    | Extract(from: Extraction, outputName: string)
    | Verify(assertion: Assertion)
    | Approval

  datatype Step = Step(id: string, action: Action)

  datatype Variable = Variable(name: string, valueType: ValueType, required: bool)

  datatype Workflow = Workflow(variables: seq<Variable>, steps: seq<Step>)

  // What the definition schema demands beyond the shape of each part.
  ghost predicate WellFormed(w: Workflow) {
    && w.steps != []
    && UniqueIds(w.steps)
    && (forall i, j :: 0 <= i < j < |w.variables| ==> w.variables[i].name != w.variables[j].name)
  }

  ghost predicate UniqueIds(steps: seq<Step>) {
    forall i, j :: 0 <= i < j < |steps| ==> steps[i].id != steps[j].id
  }

  // ---------- Value sources ----------

  datatype Usage = Usage(stepIndex: nat, stepId: string, target: Target)

  datatype Located = Located(source: Source, usage: Usage)

  function StepSource(a: Action): Option<(Source, Target)> {
    match a
    case Navigate(url) => Some((url, NavigateUrl))
    case Fill(value) => Some((value, FillValue))
    case Select(value) => Some((value, SelectValue))
    case Verify(TextIs(expected)) => Some((expected, VerifyText))
    case Verify(ValueIs(expected)) => Some((expected, VerifyValue))
    case Verify(UrlIs(expected)) => Some((expected, VerifyUrl))
    case _ => None
  }

  function LocatedAt(steps: seq<Step>, k: nat): seq<Located>
    requires k < |steps|
  {
    match StepSource(steps[k].action)
    case None => []
    case Some((source, target)) => [Located(source, Usage(k, steps[k].id, target))]
  }

  // The sources of the first n steps, in step order.
  function SourcesUpTo(steps: seq<Step>, n: nat): seq<Located>
    requires n <= |steps|
  {
    if n == 0 then [] else SourcesUpTo(steps, n - 1) + LocatedAt(steps, n - 1)
  }

  function FindValueSources(w: Workflow): seq<Located> {
    SourcesUpTo(w.steps, |w.steps|)
  }

  ghost predicate Occurs(steps: seq<Step>, l: Located) {
    && l.usage.stepIndex < |steps|
    && l.usage.stepId == steps[l.usage.stepIndex].id
    && StepSource(steps[l.usage.stepIndex].action) == Some((l.source, l.usage.target))
  }

  lemma {:induction false} SourcesUpToOccur(steps: seq<Step>, n: nat, l: Located)
    requires n <= |steps|
    ensures l in SourcesUpTo(steps, n) <==> Occurs(steps, l) && l.usage.stepIndex < n
  {
    if n > 0 {
      SourcesUpToOccur(steps, n - 1, l);
    }
  }

  // Every value a step takes is found, and nothing else is.
  lemma FindsEverySource(w: Workflow, l: Located)
    ensures l in FindValueSources(w) <==> Occurs(w.steps, l)
  {
    SourcesUpToOccur(w.steps, |w.steps|, l);
  }

  // ---------- Outputs ----------

  function OutputTypeOf(from: Extraction): Option<ValueType> {
    match from
    case ExtractText => Some(StringType)
    case ExtractValue => Some(StringType)
    case ExtractUrl => Some(StringType)
    case ExtractChecked => Some(BooleanType)
    case ExtractAttribute => None
  }

  datatype OutputDefinition = OutputDefinition(name: string, valueType: ValueType, producer: nat)

  function DefinedAt(steps: seq<Step>, k: nat): seq<OutputDefinition>
    requires k < |steps|
  {
    match steps[k].action
    case Extract(from, name) =>
      (match OutputTypeOf(from)
       case None => []
       case Some(t) => [OutputDefinition(name, t, k)])
    case _ => []
  }

  function OutputsUpTo(steps: seq<Step>, n: nat): seq<OutputDefinition>
    requires n <= |steps|
  {
    if n == 0 then [] else OutputsUpTo(steps, n - 1) + DefinedAt(steps, n - 1)
  }

  function DefineOutputs(w: Workflow): seq<OutputDefinition> {
    OutputsUpTo(w.steps, |w.steps|)
  }

  ghost predicate Produces(steps: seq<Step>, k: nat, name: string, t: ValueType) {
    k < |steps| && steps[k].action.Extract? && steps[k].action.outputName == name && OutputTypeOf(steps[k].action.from) == Some(t)
  }

  lemma {:induction false} OutputsUpToProduce(steps: seq<Step>, n: nat, d: OutputDefinition)
    requires n <= |steps|
    ensures d in OutputsUpTo(steps, n) <==> Produces(steps, d.producer, d.name, d.valueType) && d.producer < n
  {
    if n > 0 {
      OutputsUpToProduce(steps, n - 1, d);
    }
  }

  // Output definitions are exactly the extractions of a supported kind.
  lemma DefinesEveryOutput(w: Workflow, d: OutputDefinition)
    ensures d in DefineOutputs(w) <==> Produces(w.steps, d.producer, d.name, d.valueType)
  {
    OutputsUpToProduce(w.steps, |w.steps|, d);
  }

  // The first definition with the name, as Array.prototype.find returns it.
  function FindDefinition(definitions: seq<OutputDefinition>, name: string): (r: Option<OutputDefinition>)
    ensures r.None? <==> forall d :: d in definitions ==> d.name != name
    ensures r.Some? ==> r.value in definitions && r.value.name == name
  {
    if definitions == [] then None
    else if definitions[0].name == name then Some(definitions[0])
    else
      assert definitions == [definitions[0]] + definitions[1..];
      FindDefinition(definitions[1..], name)
  }
}
