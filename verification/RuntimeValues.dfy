/** The values a running step sees: run inputs and literals through a resolver, and the
    outputs of earlier extractions through a store that takes each output once. */
module RuntimeValues {
  import opened Outcomes
  import opened Workflows
  import opened InputAnalysis
  import opened Recovery

  datatype Stored = Stored(valueType: ValueType, value: Value)

  function SetOutcome(
    definitions: seq<OutputDefinition>, values: map<string, Stored>, name: string, t: ValueType, v: Value)
    : Option<ErrorCode>
  {
    match FindDefinition(definitions, name)
    case None => Some(OutputNotAvailable)
    case Some(d) =>
      if name in values then Some(DuplicateOutputProduction)
      else if d.valueType != t || TypeOf(v) != d.valueType then Some(OutputTypeMismatch)
      else None
  }

  function GetOutput(values: map<string, Stored>, name: string, accepted: set<ValueType>): Result<Value, ErrorCode> {
    if name !in values then Err(OutputNotAvailable)
    else if values[name].valueType !in accepted then Err(OutputTypeMismatch)
    else Ok(values[name].value)
  }

  class RuntimeOutputStore {
    const definitions: seq<OutputDefinition>
    var values: map<string, Stored>

    constructor (definitions: seq<OutputDefinition>)
      ensures this.definitions == definitions && values == map[]
    {
      this.definitions := definitions;
      values := map[];
    }

    // Only values of their definition's type are ever stored.
    ghost predicate Valid()
      reads this
    {
      forall name :: name in values ==>
        && FindDefinition(definitions, name).Some?
        && values[name].valueType == FindDefinition(definitions, name).value.valueType
        && TypeOf(values[name].value) == values[name].valueType
    }

    // A refused value leaves the store as it was.
    method Set(name: string, t: ValueType, v: Value) returns (error: Option<ErrorCode>)
      requires Valid()
      modifies this
      ensures Valid()
      ensures error == SetOutcome(definitions, old(values), name, t, v)
      ensures values == if error.None? then old(values)[name := Stored(t, v)] else old(values)
    {
      var definition := FindDefinition(definitions, name);
      if definition.None? {
        return Some(OutputNotAvailable);
      }
      if name in values {
        return Some(DuplicateOutputProduction);
      }
      if definition.value.valueType != t || TypeOf(v) != definition.value.valueType {
        return Some(OutputTypeMismatch);
      }
      values := values[name := Stored(t, v)];
      error := None;
    }

    function Summaries(): (s: seq<(OutputDefinition, bool)>)
      reads this
      ensures |s| == |definitions|
      ensures forall i :: 0 <= i < |s| ==> s[i].0 == definitions[i] && (s[i].1 <==> definitions[i].name in values)
    {
      seq(|definitions|, i requires 0 <= i < |definitions| reads this => (definitions[i], definitions[i].name in values))
    }

    method Clear()
      modifies this
      ensures values == map[] && Valid()
    {
      values := map[];
    }
  }

  // ---------- Resolvers ----------

  datatype Resolver = Resolver(
    hasVariable: (string, ValueType) -> bool,
    hasSecret: string -> bool,
    resolve: (Source, Target) -> Result<Value, ErrorCode>)

  function ResolveValueSource(source: Source, target: Target, inputs: map<string, Input>): Result<Value, ErrorCode> {
    match source
    case FromSecret(_) => Err(SecretResolutionUnavailable)
    case Literal(v) => if TypeOf(v) in LiteralTypes(target) then Ok(v) else Err(InvalidWorkflow)
    case FromOutput(_) => Err(OutputNotAvailable)
    case FromVariable(name) =>
      if name !in inputs || KindOf(inputs[name]) !in VariableTypes(target) then Err(InvalidRuntimeInputs)
      else
        match inputs[name]
        case Given(v) => Ok(v)
        case Date(day) => Ok(Str(day))
        case File(_) => Err(InvalidRuntimeInputs)
  }

  function CreateRuntimeValueResolver(inputs: map<string, Input>): Resolver {
    Resolver(
      (name, t) => name in inputs && KindOf(inputs[name]) == t,
      name => false,
      (source, target) => ResolveValueSource(source, target, inputs))
  }

  // What a step's property resolves to while a run has these outputs.
  function ResolveWithOutputs(r: Resolver, outputs: map<string, Stored>, source: Source, target: Target)
    : Result<Value, ErrorCode>
  {
    if source.FromOutput? then GetOutput(outputs, source.name, VariableTypes(target)) else r.resolve(source, target)
  }

  function ResolveText(r: Resolver, source: Source, target: Target): Result<string, ErrorCode> {
    match r.resolve(source, target)
    case Err(code) => Err(code)
    case Ok(Str(text)) => Ok(text)
    case Ok(_) => Err(InvalidRuntimeInputs)
  }

  function ResolveSelect(r: Resolver, source: Source): Result<string, ErrorCode> {
    match r.resolve(source, SelectValue)
    case Err(code) => Err(code)
    case Ok(Str(text)) => Ok(text)
    case Ok(Num(text)) => Ok(text)
    case Ok(Bool(_)) => Err(InvalidRuntimeInputs)
  }

  // The built-in resolver only yields values of a type that the property takes.
  lemma BuiltInResolvesTyped(inputs: map<string, Input>, source: Source, target: Target)
    ensures var r := CreateRuntimeValueResolver(inputs).resolve(source, target);
            r.Ok? ==> TypeOf(r.value) in VariableTypes(target)
  {}

  // When the built-in resolver yields a value: for an acceptable literal, and for an input
  // of an acceptable kind; never for a secret or an output.
  lemma BuiltInResolvesExactlyWhen(inputs: map<string, Input>, source: Source, target: Target)
    ensures CreateRuntimeValueResolver(inputs).resolve(source, target).Ok? <==>
            || (source.Literal? && TypeOf(source.value) in LiteralTypes(target))
            || (source.FromVariable? && source.name in inputs && KindOf(inputs[source.name]) in VariableTypes(target))
  {}
}
