/** The static check of the data flow between extractions and the steps that use them. */
module ExtractionAnalysis {
  import opened Outcomes
  import opened Workflows
  import InputAnalysis
  import Sorting

  predicate IsOutputTypeCompatible(target: Target, t: ValueType) {
    target != NavigateUrl && t in InputAnalysis.VariableTypes(target)
  }

  datatype IssueCode =
    | UnsupportedExtractionSource | DuplicateOutputName | OutputNavigateForbidden | UnknownOutputReference
    | OutputSelfReference | OutputReferenceBeforeProducer | OutputTypeIncompatible | UnusedOutput

  datatype Issue = Issue(code: IssueCode, stepIndex: nat, target: Option<Target>, outputName: string)

  predicate IsBlocking(x: Issue) {
    x.code != UnusedOutput
  }

  datatype Analysis = Analysis(
    outputs: seq<OutputDefinition>,
    usages: seq<Located>,
    issues: seq<Issue>,
    hasBlockingIssues: bool)

  // ---------- What an accepted workflow satisfies ----------

  // An earlier step produces the output, with a type the property takes.
  ghost predicate ProducedBefore(steps: seq<Step>, k: nat, name: string, target: Target) {
    exists p: nat, t :: Produces(steps, p, name, t) && p < k && IsOutputTypeCompatible(target, t)
  }

  ghost predicate SupportedExtractions(steps: seq<Step>, n: nat)
    requires n <= |steps|
  {
    forall k :: 0 <= k < n && steps[k].action.Extract? ==> OutputTypeOf(steps[k].action.from).Some?
  }

  ghost predicate UniqueOutputs(steps: seq<Step>, n: nat)
    requires n <= |steps|
  {
    forall i: nat, j: nat, name, t, u :: i < j < n && Produces(steps, i, name, t) ==> !Produces(steps, j, name, u)
  }

  ghost predicate DataFlows(w: Workflow) {
    && SupportedExtractions(w.steps, |w.steps|)
    && UniqueOutputs(w.steps, |w.steps|)
    && (forall l :: Occurs(w.steps, l) && l.source.FromOutput? ==>
          ProducedBefore(w.steps, l.usage.stepIndex, l.source.name, l.usage.target))
  }

  // ---------- The producers of the outputs ----------

  // The definition that the first step with the name makes.
  function ProducersUpTo(steps: seq<Step>, n: nat): map<string, OutputDefinition>
    requires n <= |steps|
  {
    if n == 0 then map[]
    else
      var before := ProducersUpTo(steps, n - 1);
      var here := DefinedAt(steps, n - 1);
      if here != [] && here[0].name !in before then before[here[0].name := here[0]] else before
  }

  function StructureIssuesAt(steps: seq<Step>, k: nat, before: map<string, OutputDefinition>): seq<Issue>
    requires k < |steps|
  {
    match steps[k].action
    case Extract(from, name) =>
      if OutputTypeOf(from).None? then [Issue(UnsupportedExtractionSource, k, None, name)]
      else if name in before then [Issue(DuplicateOutputName, k, None, name)]
      else []
    case _ => []
  }

  function StructureIssuesOf(steps: seq<Step>, k: nat): seq<Issue> {
    if k < |steps| then StructureIssuesAt(steps, k, ProducersUpTo(steps, k)) else []
  }

  function StructureFinder(steps: seq<Step>): nat -> seq<Issue> {
    (k: nat) => StructureIssuesOf(steps, k)
  }

  // What f finds at 0 to n - 1, in order.
  function Collected(f: nat -> seq<Issue>, n: nat): seq<Issue> {
    if n == 0 then [] else Collected(f, n - 1) + f(n - 1)
  }

  lemma {:induction false} CollectedNothing(f: nat -> seq<Issue>, n: nat)
    ensures |Collected(f, n)| == 0 <==> forall k: nat :: k < n ==> |f(k)| == 0
  {
    if n > 0 {
      CollectedNothing(f, n - 1);
    }
  }

  lemma {:induction false} CollectedKind(f: nat -> seq<Issue>, blocking: bool, n: nat)
    requires forall k, x :: x in f(k) ==> IsBlocking(x) == blocking
    ensures forall x :: x in Collected(f, n) ==> IsBlocking(x) == blocking
  {
    if n > 0 {
      CollectedKind(f, blocking, n - 1);
    }
  }

  function StructureIssues(steps: seq<Step>): seq<Issue> {
    Collected(StructureFinder(steps), |steps|)
  }

  lemma {:induction false} ProducerKnown(steps: seq<Step>, n: nat, name: string)
    requires n <= |steps| && name in ProducersUpTo(steps, n)
    ensures var d := ProducersUpTo(steps, n)[name];
            d.name == name && d.producer < n && Produces(steps, d.producer, name, d.valueType)
  {
    if name in ProducersUpTo(steps, n - 1) {
      ProducerKnown(steps, n - 1, name);
    }
  }

  lemma {:induction false} ProducerFound(steps: seq<Step>, n: nat, k: nat, name: string, t: ValueType)
    requires k < n <= |steps| && Produces(steps, k, name, t)
    ensures name in ProducersUpTo(steps, n)
  {
    if k < n - 1 {
      ProducerFound(steps, n - 1, k, name, t);
    }
  }

  // The step is no unsupported extraction, and no earlier step has taken its name.
  ghost predicate FreshOutputAt(steps: seq<Step>, k: nat)
    requires k < |steps|
  {
    steps[k].action.Extract? ==>
      && OutputTypeOf(steps[k].action.from).Some?
      && forall i: nat, t :: i < k ==> !Produces(steps, i, steps[k].action.outputName, t)
  }

  lemma StructureAtSound(steps: seq<Step>, k: nat)
    requires k < |steps|
    ensures |StructureIssuesOf(steps, k)| == 0 <==> FreshOutputAt(steps, k)
  {
    if steps[k].action.Extract? {
      var name := steps[k].action.outputName;
      if name in ProducersUpTo(steps, k) {
        ProducerKnown(steps, k, name);
      }
      forall i: nat, t | i < k && Produces(steps, i, name, t) ensures name in ProducersUpTo(steps, k) {
        ProducerFound(steps, k, i, name, t);
      }
    }
  }

  ghost predicate AllFresh(steps: seq<Step>, n: nat)
    requires n <= |steps|
  {
    forall k: nat :: k < n ==> FreshOutputAt(steps, k)
  }

  lemma StructureSound(steps: seq<Step>)
    ensures |StructureIssues(steps)| == 0 <==> AllFresh(steps, |steps|)
  {
    CollectedNothing(StructureFinder(steps), |steps|);
    forall k: nat | k < |steps| ensures |StructureFinder(steps)(k)| == 0 <==> FreshOutputAt(steps, k) {
      StructureAtSound(steps, k);
    }
  }

  lemma {:induction false} FreshOutputsAreUnique(steps: seq<Step>, n: nat)
    requires n <= |steps|
    ensures AllFresh(steps, n) <==> SupportedExtractions(steps, n) && UniqueOutputs(steps, n)
  {
    if n > 0 {
      FreshOutputsAreUnique(steps, n - 1);
      NextOutput(steps, n - 1);
    }
  }

  lemma NextOutput(steps: seq<Step>, k: nat)
    requires k < |steps|
    ensures SupportedExtractions(steps, k + 1) && UniqueOutputs(steps, k + 1)
       <==> SupportedExtractions(steps, k) && UniqueOutputs(steps, k) && FreshOutputAt(steps, k)
  {
    if SupportedExtractions(steps, k + 1) && UniqueOutputs(steps, k + 1) && steps[k].action.Extract? {
      assert Produces(steps, k, steps[k].action.outputName, OutputTypeOf(steps[k].action.from).value);
    }
    if SupportedExtractions(steps, k) && UniqueOutputs(steps, k) && FreshOutputAt(steps, k) {
      forall i: nat, j: nat, name, t, u | i < j < k + 1 && Produces(steps, i, name, t)
        ensures !Produces(steps, j, name, u)
      {
        assert j < k || j == k;
      }
    }
  }

  // ---------- The uses of the outputs ----------

  function UsageIssues(producers: map<string, OutputDefinition>, l: Located): seq<Issue> {
    if !l.source.FromOutput? then []
    else
      var name, k, target := l.source.name, l.usage.stepIndex, l.usage.target;
      var forbidden := if target == NavigateUrl then [Issue(OutputNavigateForbidden, k, Some(target), name)] else [];
      if name !in producers then forbidden + [Issue(UnknownOutputReference, k, Some(target), name)]
      else
        var producer := producers[name];
        var order :=
          if producer.producer == k then [Issue(OutputSelfReference, k, Some(target), name)]
          else if producer.producer > k then [Issue(OutputReferenceBeforeProducer, k, Some(target), name)]
          else [];
        var kind := if IsOutputTypeCompatible(target, producer.valueType) then []
                    else [Issue(OutputTypeIncompatible, k, Some(target), name)];
        forbidden + order + kind
  }

  lemma UsageSound(steps: seq<Step>, l: Located)
    requires UniqueOutputs(steps, |steps|) && l.source.FromOutput?
    ensures UsageIssues(ProducersUpTo(steps, |steps|), l) == [] <==>
            ProducedBefore(steps, l.usage.stepIndex, l.source.name, l.usage.target)
  {
    var producers, name := ProducersUpTo(steps, |steps|), l.source.name;
    if name in producers {
      ProducerKnown(steps, |steps|, name);
      OnlyProducer(steps, producers[name]);
    } else {
      forall p: nat, t ensures !Produces(steps, p, name, t) {
        if Produces(steps, p, name, t) { ProducerFound(steps, |steps|, p, name, t); }
      }
    }
  }

  lemma OnlyProducer(steps: seq<Step>, d: OutputDefinition)
    requires UniqueOutputs(steps, |steps|) && Produces(steps, d.producer, d.name, d.valueType)
    ensures forall p: nat, t :: Produces(steps, p, d.name, t) ==> p == d.producer && t == d.valueType
  {
    forall p: nat, t | Produces(steps, p, d.name, t) ensures p == d.producer && t == d.valueType {
      assert !(p < d.producer) && !(d.producer < p);
    }
  }

  function Finder<A>(s: seq<A>, f: A -> seq<Issue>): nat -> seq<Issue> {
    (k: nat) => if k < |s| then f(s[k]) else []
  }

  // The issues of each element in turn.
  function Gather<A>(s: seq<A>, f: A -> seq<Issue>): seq<Issue> {
    Collected(Finder(s, f), |s|)
  }

  lemma GatherEmpty<A>(s: seq<A>, f: A -> seq<Issue>)
    ensures |Gather(s, f)| == 0 <==> forall a :: a in s ==> |f(a)| == 0
  {
    CollectedNothing(Finder(s, f), |s|);
    forall k: nat | k < |s| ensures |Finder(s, f)(k)| == |f(s[k])| {}
  }

  lemma GatherBlocks<A>(s: seq<A>, f: A -> seq<Issue>, blocking: bool)
    requires forall a, x :: x in f(a) ==> IsBlocking(x) == blocking
    ensures forall x :: x in Gather(s, f) ==> IsBlocking(x) == blocking
  {
    CollectedKind(Finder(s, f), blocking, |s|);
  }

  lemma StructureIssuesBlock(steps: seq<Step>)
    ensures forall x :: x in StructureIssues(steps) ==> IsBlocking(x)
  {
    CollectedKind(StructureFinder(steps), true, |steps|);
  }

  // ---------- The analysis ----------

  function OutputUsagesUpTo(sources: seq<Located>, n: nat): seq<Located>
    requires n <= |sources|
  {
    if n == 0 then []
    else OutputUsagesUpTo(sources, n - 1) + if sources[n - 1].source.FromOutput? then [sources[n - 1]] else []
  }

  function OutputUsages(sources: seq<Located>): seq<Located> {
    OutputUsagesUpTo(sources, |sources|)
  }

  function UnusedIssue(d: OutputDefinition, usages: seq<Located>): seq<Issue> {
    if Uses(usages, d.name) then [] else [Issue(UnusedOutput, d.producer, None, d.name)]
  }

  ghost function FoundIssues(w: Workflow): seq<Issue> {
    var sources := FindValueSources(w);
    var producers := ProducersUpTo(w.steps, |w.steps|);
    StructureIssues(w.steps)
    + Gather(sources, l => UsageIssues(producers, l))
    + Gather(DefineOutputs(w), d => UnusedIssue(d, OutputUsages(sources)))
  }

  predicate Uses(usages: seq<Located>, name: string) {
    usages != [] && (usages[0].source == FromOutput(name) || Uses(usages[1..], name))
  }

  // An output is reported as unused exactly when no step reads it.
  lemma {:induction false} UsesFindsUsage(usages: seq<Located>, name: string)
    ensures Uses(usages, name) <==> exists l :: l in usages && l.source == FromOutput(name)
  {
    if usages != [] {
      assert usages == [usages[0]] + usages[1..];
      UsesFindsUsage(usages[1..], name);
    }
  }

  predicate AnyBlocking(issues: seq<Issue>) {
    issues != [] && (IsBlocking(issues[0]) || AnyBlocking(issues[1..]))
  }

  lemma {:induction false} AnyBlockingFinds(issues: seq<Issue>)
    ensures AnyBlocking(issues) <==> exists x :: x in issues && IsBlocking(x)
  {
    if issues != [] {
      assert issues == [issues[0]] + issues[1..];
      AnyBlockingFinds(issues[1..]);
    }
  }

  // Every step finds the outputs it reads exactly when no use is reported.
  lemma FlowSound(w: Workflow, producers: map<string, OutputDefinition>)
    requires UniqueOutputs(w.steps, |w.steps|) && producers == ProducersUpTo(w.steps, |w.steps|)
    ensures Gather(FindValueSources(w), l => UsageIssues(producers, l)) == []
       <==> (forall l :: Occurs(w.steps, l) && l.source.FromOutput? ==>
               ProducedBefore(w.steps, l.usage.stepIndex, l.source.name, l.usage.target))
  {
    GatherEmpty(FindValueSources(w), l => UsageIssues(producers, l));
    forall l ensures l in FindValueSources(w) <==> Occurs(w.steps, l) {
      FindsEverySource(w, l);
    }
    forall l: Located | l.source.FromOutput?
      ensures UsageIssues(producers, l) == [] <==> ProducedBefore(w.steps, l.usage.stepIndex, l.source.name, l.usage.target)
    {
      UsageSound(w.steps, l);
    }
  }

  lemma BlockingParts(structure: seq<Issue>, flow: seq<Issue>, unused: seq<Issue>)
    requires forall x :: x in structure || x in flow ==> IsBlocking(x)
    requires forall x :: x in unused ==> !IsBlocking(x)
    ensures (exists x :: x in structure + flow + unused && IsBlocking(x)) <==> structure != [] || flow != []
  {
    if structure != [] { assert structure[0] in structure + flow + unused; }
    if flow != [] { assert flow[0] in structure + flow + unused; }
  }

  lemma UseIssuesBlock(sources: seq<Located>, producers: map<string, OutputDefinition>)
    ensures forall x :: x in Gather(sources, l => UsageIssues(producers, l)) ==> IsBlocking(x)
  {
    GatherBlocks(sources, l => UsageIssues(producers, l), true);
  }

  lemma UnusedIssuesWarn(outputs: seq<OutputDefinition>, usages: seq<Located>)
    ensures forall x :: x in Gather(outputs, d => UnusedIssue(d, usages)) ==> !IsBlocking(x)
  {
    GatherBlocks(outputs, d => UnusedIssue(d, usages), false);
  }

  lemma BlockingFound(w: Workflow, producers: map<string, OutputDefinition>)
    requires producers == ProducersUpTo(w.steps, |w.steps|)
    ensures (exists x :: x in FoundIssues(w) && IsBlocking(x)) <==>
            StructureIssues(w.steps) != [] || Gather(FindValueSources(w), l => UsageIssues(producers, l)) != []
  {
    var sources, usages := FindValueSources(w), OutputUsages(FindValueSources(w));
    StructureIssuesBlock(w.steps);
    UseIssuesBlock(sources, producers);
    UnusedIssuesWarn(DefineOutputs(w), usages);
    BlockingParts(StructureIssues(w.steps), Gather(sources, l => UsageIssues(producers, l)),
                  Gather(DefineOutputs(w), d => UnusedIssue(d, usages)));
  }

  // The found issues block a workflow exactly when its data does not flow.
  lemma BlocksExactlyWhen(w: Workflow)
    ensures (exists x :: x in FoundIssues(w) && IsBlocking(x)) <==> !DataFlows(w)
  {
    var producers := ProducersUpTo(w.steps, |w.steps|);
    BlockingFound(w, producers);
    StructureSound(w.steps);
    FreshOutputsAreUnique(w.steps, |w.steps|);
    if StructureIssues(w.steps) == [] {
      FlowSound(w, producers);
    }
  }

  method CollectProducers(w: Workflow) returns (producers: map<string, OutputDefinition>, issues: seq<Issue>)
    ensures producers == ProducersUpTo(w.steps, |w.steps|)
    ensures issues == StructureIssues(w.steps)
  {
    ghost var found := StructureFinder(w.steps);
    producers, issues := map[], [];
    for k := 0 to |w.steps|
      invariant producers == ProducersUpTo(w.steps, k)
      invariant issues == Collected(found, k)
    {
      assert found(k) == StructureIssuesAt(w.steps, k, producers);
      if w.steps[k].action.Extract? {
        issues := issues + StructureIssuesAt(w.steps, k, producers);
        var here := DefinedAt(w.steps, k);
        if here != [] && here[0].name !in producers {
          producers := producers[here[0].name := here[0]];
        }
      }
    }
  }

  method CollectUses(sources: seq<Located>, producers: map<string, OutputDefinition>)
    returns (usages: seq<Located>, issues: seq<Issue>)
    ensures usages == OutputUsages(sources)
    ensures issues == Gather(sources, l => UsageIssues(producers, l))
  {
    ghost var found := Finder(sources, l => UsageIssues(producers, l));
    usages, issues := [], [];
    for i := 0 to |sources|
      invariant usages == OutputUsagesUpTo(sources, i)
      invariant issues == Collected(found, i)
    {
      assert found(i) == UsageIssues(producers, sources[i]);
      if sources[i].source.FromOutput? {
        usages := usages + [sources[i]];
      }
      issues := issues + UsageIssues(producers, sources[i]);
    }
  }

  method CollectUnused(outputs: seq<OutputDefinition>, usages: seq<Located>) returns (issues: seq<Issue>)
    ensures issues == Gather(outputs, d => UnusedIssue(d, usages))
  {
    ghost var found := Finder(outputs, d => UnusedIssue(d, usages));
    issues := [];
    for i := 0 to |outputs|
      invariant issues == Collected(found, i)
    {
      assert found(i) == UnusedIssue(outputs[i], usages);
      issues := issues + UnusedIssue(outputs[i], usages);
    }
  }

  lemma SortedIssues(before: (Issue, Issue) -> bool, issues: seq<Issue>)
    ensures multiset(Sorting.Sort(before, issues)) == multiset(issues)
    ensures Sorting.TotalPreorder(before) ==> Sorting.Sorted(before, Sorting.Sort(before, issues))
    ensures AnyBlocking(Sorting.Sort(before, issues)) <==> exists x :: x in issues && IsBlocking(x)
  {
    Sorting.SortPermutes(before, issues);
    Sorting.SortMembers(before, issues);
    if Sorting.TotalPreorder(before) {
      Sorting.SortSorts(before, issues);
    }
    AnyBlockingFinds(Sorting.Sort(before, issues));
  }

  // The analysis blocks a workflow exactly when an extraction is unsupported, two outputs
  // share a name, or some step reads an output that no earlier step produces with a type
  // it can take. Sorting the issues loses and adds none.
  method AnalyzeWorkflowExtraction(w: Workflow, before: (Issue, Issue) -> bool) returns (a: Analysis)
    requires WellFormed(w)
    ensures a.hasBlockingIssues <==> !DataFlows(w)
    ensures a.outputs == DefineOutputs(w)
    ensures a.usages == OutputUsages(FindValueSources(w))
    ensures multiset(a.issues) == multiset(FoundIssues(w))
    ensures Sorting.TotalPreorder(before) ==> Sorting.Sorted(before, a.issues)
  {
    var outputs := DefineOutputs(w);
    var producers, structure := CollectProducers(w);
    var usages, flow := CollectUses(FindValueSources(w), producers);
    var unused := CollectUnused(outputs, usages);
    var issues := structure + flow + unused;
    var sorted := Sorting.Sort(before, issues);
    SortedIssues(before, issues);
    BlocksExactlyWhen(w);
    a := Analysis(outputs, usages, sorted, AnyBlocking(sorted));
  }
}
