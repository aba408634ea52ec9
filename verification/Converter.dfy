/** From a recording to a workflow: each event becomes a step, unless its value is unknown or
    it repeats the event before it. */
module Converter {
  import opened Outcomes
  import opened Decimal
  import Naming

  const MAX_RECORDING_EVENTS := 1000

  datatype Locator =
    | ByTestId(attribute: Option<string>, value: string)
    | ByRole(role: string, name: Option<string>, exact: Option<bool>)
    | ByLabel(value: string, exact: Option<bool>)
    | ByText(value: string, exact: Option<bool>)
    | ByPlaceholder(value: string, exact: Option<bool>)
    | ByCss(selector: string)

  function OrElse<T>(o: Option<T>, default: T): T {
    if o.Some? then o.value else default
  }

  // What the canonical text of a locator says: the locator with its defaults filled in.
  function Canonical(l: Locator): Locator {
    match l
    case ByTestId(attribute, value) => ByTestId(Some(OrElse(attribute, "data-testid")), value)
    case ByRole(role, name, exact) => ByRole(role, name, Some(OrElse(exact, false)))
    case ByLabel(value, exact) => ByLabel(value, Some(OrElse(exact, false)))
    case ByText(value, exact) => ByText(value, Some(OrElse(exact, false)))
    case ByPlaceholder(value, exact) => ByPlaceholder(value, Some(OrElse(exact, false)))
    case ByCss(selector) => l
  }

  datatype Capture = Allow | Mask | Block

  datatype Kind =
    | ClickEvent
    | TextEvent(capture: Capture, value: string, truncated: bool, personal: bool, authentication: bool, passwordField: bool, textField: bool)
    | SelectEvent(capture: Capture, value: string, truncated: bool)
    | CheckboxEvent(capture: Capture, checked: bool)
    | RadioEvent(capture: Capture, checked: bool)

  datatype Bundle = Bundle(locator: Locator, lowConfidence: bool)

  // The preferred name is the safe identifier made of the target's name, or empty.
  datatype Event = Event(id: string, sequence: nat, bundle: Option<Bundle>, preferredName: string, kind: Kind)

  datatype Value = Literal(text: string) | Variable(name: string) | Secret(name: string)

  datatype Action =
    | Click(locator: Locator)
    | Fill(locator: Locator, value: Value)
    | Select(locator: Locator, text: string)
    | SetChecked(locator: Locator, checked: bool)

  datatype Step = Step(id: string, action: Action)

  datatype IssueCode =
    | NoUsableLocator | TruncatedValue | MaskedValue | BlockedValue | LowLocatorConfidence | DuplicateRemoved | NoExecutableSteps

  datatype Issue = Issue(code: IssueCode, sequence: nat, stepId: Option<string>)

  predicate IsBlocking(x: Issue) {
    !x.code.LowLocatorConfidence? && !x.code.DuplicateRemoved?
  }

  datatype Outcome =
    | Converted(stepId: string)
    | Deduplicated(retainedEventId: string, retainedStepId: string)
    | Unresolved(code: IssueCode)

  datatype Mapping = Mapping(eventId: string, sequence: nat, outcome: Outcome)

  // ---------- What an event means ----------

  // The reason why an event cannot become a step.
  function Unresolvable(e: Event): Option<IssueCode> {
    if e.bundle.None? then Some(NoUsableLocator)
    else
      match e.kind
      case ClickEvent => None
      case TextEvent(capture, _, truncated, personal, authentication, passwordField, textField) =>
        (match capture
         case Allow => if truncated then Some(TruncatedValue) else None
         case Mask => if personal then None else Some(MaskedValue)
         case Block => if authentication && passwordField && textField then None else Some(BlockedValue))
      case SelectEvent(capture, _, truncated) =>
        (match capture
         case Allow => if truncated then Some(TruncatedValue) else None
         case Mask => Some(MaskedValue)
         case Block => Some(BlockedValue))
      case CheckboxEvent(capture, _) =>
        (match capture
         case Allow => None
         case Mask => Some(MaskedValue)
         case Block => Some(BlockedValue))
      case RadioEvent(capture, checked) =>
        if capture.Allow? && checked then None
        else if capture.Mask? then Some(MaskedValue)
        else Some(BlockedValue)
  }

  // The kinds of event that stand for a value to be asked for.
  predicate AsksForVariable(e: Event) {
    Unresolvable(e).None? && e.kind.TextEvent? && e.kind.capture.Mask?
  }

  predicate AsksForSecret(e: Event) {
    Unresolvable(e).None? && e.kind.TextEvent? && e.kind.capture.Block?
  }

  // What a resolvable event does, given the name of the value that it asks for.
  function ActionOf(e: Event, name: string): Action
    requires Unresolvable(e).None?
  {
    var locator := e.bundle.value.locator;
    match e.kind
    case ClickEvent => Click(locator)
    case TextEvent(capture, value, _, _, _, _, _) =>
      Fill(locator, match capture case Allow => Literal(value) case Mask => Variable(name) case Block => Secret(name))
    case SelectEvent(_, value, _) => Select(locator, value)
    case CheckboxEvent(_, checked) => SetChecked(locator, checked)
    case RadioEvent(_, _) => SetChecked(locator, true)
  }

  ghost predicate Means(e: Event, a: Option<Action>) {
    match a
    case None => Unresolvable(e).Some?
    case Some(action) => Unresolvable(e).None? && exists name :: action == ActionOf(e, name)
  }

  datatype Key = FillKey(locator: Locator, text: string) | SelectKey(locator: Locator, text: string) | CheckedKey(locator: Locator, checked: bool)

  // Repeating an action with a key changes nothing; a click, and a value that is asked for,
  // have none.
  function KeyOf(a: Action): Option<Key> {
    match a
    case Fill(locator, Literal(text)) => Some(FillKey(Canonical(locator), text))
    case Select(locator, text) => Some(SelectKey(Canonical(locator), text))
    case SetChecked(locator, checked) => Some(CheckedKey(Canonical(locator), checked))
    case _ => None
  }

  // The event right before has the same key.
  predicate IsDuplicate(actions: seq<Option<Action>>, i: nat)
    requires i < |actions|
  {
    && i > 0 && actions[i - 1].Some? && actions[i].Some?
    && KeyOf(actions[i].value).Some? && KeyOf(actions[i - 1].value) == KeyOf(actions[i].value)
  }

  // The actions that the first n events keep.
  function Kept(actions: seq<Option<Action>>, n: nat): seq<Action>
    requires n <= |actions|
  {
    if n == 0 then []
    else Kept(actions, n - 1) + if actions[n - 1].Some? && !IsDuplicate(actions, n - 1) then [actions[n - 1].value] else []
  }

  // The actions of the first n events, duplicates and all.
  function Resolved(actions: seq<Option<Action>>, n: nat): seq<Action>
    requires n <= |actions|
  {
    if n == 0 then [] else Resolved(actions, n - 1) + if actions[n - 1].Some? then [actions[n - 1].value] else []
  }

  // The event that a run of duplicates goes back to.
  function RetainedBy(actions: seq<Option<Action>>, i: nat): nat
    requires i < |actions|
  {
    if IsDuplicate(actions, i) then RetainedBy(actions, i - 1) else i
  }

  lemma {:induction false} RetainedHasSameKey(actions: seq<Option<Action>>, i: nat)
    requires i < |actions| && actions[i].Some?
    ensures var j := RetainedBy(actions, i);
            && j <= i && actions[j].Some? && !IsDuplicate(actions, j)
            && KeyOf(actions[j].value) == KeyOf(actions[i].value)
            && forall m :: j < m <= i ==> IsDuplicate(actions, m) && KeyOf(actions[m].value) == KeyOf(actions[i].value)
  {
    if IsDuplicate(actions, i) {
      RetainedHasSameKey(actions, i - 1);
    }
  }

  function StepId(n: nat): string {
    "step-" + Padded(n, 3)
  }

  lemma StepIdsDiffer(m: nat, n: nat)
    requires StepId(m) == StepId(n)
    ensures m == n
  {
    assert StepId(m)[5..] == Padded(m, 3) && StepId(n)[5..] == Padded(n, 3);
    PaddedInjective(m, n, 3);
  }

  // ---------- Replay ----------

  // What a step does to a page once its value is known.
  datatype Deed =
    | DoClick(locator: Locator)
    | DoFill(locator: Locator, text: string)
    | DoSelect(locator: Locator, text: string)
    | DoCheck(locator: Locator, checked: bool)

  datatype Inputs = Inputs(variables: string -> string, secrets: string -> string)

  function DeedOf(a: Action, i: Inputs): Deed {
    match a
    case Click(l) => DoClick(l)
    case Fill(l, Literal(text)) => DoFill(l, text)
    case Fill(l, Variable(name)) => DoFill(l, i.variables(name))
    case Fill(l, Secret(name)) => DoFill(l, i.secrets(name))
    case Select(l, text) => DoSelect(l, text)
    case SetChecked(l, checked) => DoCheck(l, checked)
  }

  function WithLocator(d: Deed, l: Locator): Deed {
    match d
    case DoClick(_) => DoClick(l)
    case DoFill(_, text) => DoFill(l, text)
    case DoSelect(_, text) => DoSelect(l, text)
    case DoCheck(_, checked) => DoCheck(l, checked)
  }

  // A page on which filling, selecting and checking are idempotent, and on which a locator
  // finds the same element with its defaults filled in.
  ghost predicate WellBehaved<S(!new)>(act: (Deed, S) -> S) {
    && (forall d: Deed, s: S :: !d.DoClick? ==> act(d, act(d, s)) == act(d, s))
    && (forall d: Deed, s: S :: act(d, s) == act(WithLocator(d, Canonical(d.locator)), s))
  }

  function Replay<S>(act: (Deed, S) -> S, i: Inputs, actions: seq<Action>, s: S): S
    decreases |actions|
  {
    if actions == [] then s else Replay(act, i, actions[1..], act(DeedOf(actions[0], i), s))
  }

  lemma {:induction false} ReplayOneMore<S>(act: (Deed, S) -> S, i: Inputs, actions: seq<Action>, a: Action, s: S)
    ensures Replay(act, i, actions + [a], s) == act(DeedOf(a, i), Replay(act, i, actions, s))
    decreases |actions|
  {
    if actions != [] {
      assert (actions + [a])[1..] == actions[1..] + [a];
      ReplayOneMore(act, i, actions[1..], a, act(DeedOf(actions[0], i), s));
    }
  }

  lemma SameKeySameDeed<S(!new)>(act: (Deed, S) -> S, i: Inputs, a: Action, b: Action, s: S)
    requires WellBehaved(act) && KeyOf(a).Some? && KeyOf(a) == KeyOf(b)
    ensures act(DeedOf(a, i), s) == act(DeedOf(b, i), s) && !DeedOf(a, i).DoClick?
  {
    var d, e := DeedOf(a, i), DeedOf(b, i);
    assert act(d, s) == act(WithLocator(d, Canonical(d.locator)), s);
    assert act(e, s) == act(WithLocator(e, Canonical(e.locator)), s);
  }

  // Running the kept steps is running the resolved events in order, on any well-behaved
  // page, from any state, with any inputs.
  lemma {:induction false} ReplaysEquivalently<S(!new)>(act: (Deed, S) -> S, i: Inputs, actions: seq<Option<Action>>, n: nat, s: S)
    requires WellBehaved(act) && n <= |actions|
    ensures Replay(act, i, Kept(actions, n), s) == Replay(act, i, Resolved(actions, n), s)
  {
    if n > 0 {
      ReplaysEquivalently(act, i, actions, n - 1, s);
      if actions[n - 1].Some? {
        var a := actions[n - 1].value;
        ReplayOneMore(act, i, Kept(actions, n - 1), a, s);
        ReplayOneMore(act, i, Resolved(actions, n - 1), a, s);
        if IsDuplicate(actions, n - 1) {
          var b := actions[n - 2].value;
          var before := Replay(act, i, Resolved(actions, n - 2), s);
          ReplayOneMore(act, i, Resolved(actions, n - 2), b, s);
          SameKeySameDeed(act, i, a, b, act(DeedOf(b, i), before));
          SameKeySameDeed(act, i, b, b, before);
          var deed := DeedOf(b, i);
          assert act(deed, act(deed, before)) == act(deed, before);
          assert Resolved(actions, n - 1) == Resolved(actions, n - 2) + [b];
          assert Kept(actions, n) == Kept(actions, n - 1);
        }
      } else {
        assert Kept(actions, n) == Kept(actions, n - 1) && Resolved(actions, n) == Resolved(actions, n - 1);
      }
    }
  }

  // ---------- Conversion ----------

  function NameOf(a: Option<Action>): Option<string> {
    match a
    case Some(Fill(_, Variable(name))) => Some(name)
    case Some(Fill(_, Secret(name))) => Some(name)
    case _ => None
  }

  // Every value that is asked for has a name of its own, at most eighty characters long.
  ghost predicate NamesApart(actions: seq<Option<Action>>) {
    && (forall i :: 0 <= i < |actions| && NameOf(actions[i]).Some? ==> |NameOf(actions[i]).value| <= Naming.MAX_LENGTH)
    && (forall i, j :: 0 <= i < j < |actions| && NameOf(actions[i]).Some? ==> NameOf(actions[i]) != NameOf(actions[j]))
  }

  // Where an event went. The retained step is the one of the first of its duplicates.
  function OutcomeOf(events: seq<Event>, actions: seq<Option<Action>>, i: nat): Outcome
    requires i < |actions| <= |events|
  {
    if actions[i].None? then Unresolved(OrElse(Unresolvable(events[i]), NoUsableLocator))
    else
      var j := RetainedBy(actions, i);
      RetainedWithin(actions, i);
      var stepId := StepId(|Kept(actions, j)| + 1);
      if j < i then Deduplicated(events[j].id, stepId) else Converted(stepId)
  }

  lemma {:induction false} RetainedWithin(actions: seq<Option<Action>>, i: nat)
    requires i < |actions|
    ensures RetainedBy(actions, i) <= i
  {
    if IsDuplicate(actions, i) {
      RetainedWithin(actions, i - 1);
    }
  }

  function Duplicates(actions: seq<Option<Action>>, n: nat): nat
    requires n <= |actions|
  {
    if n == 0 then 0 else Duplicates(actions, n - 1) + if IsDuplicate(actions, n - 1) then 1 else 0
  }

  function VariablesOf(actions: seq<Option<Action>>, n: nat): seq<string>
    requires n <= |actions|
  {
    if n == 0 then []
    else
      VariablesOf(actions, n - 1)
      + match actions[n - 1] case Some(Fill(_, Variable(name))) => [name] case _ => []
  }

  function UnresolvedOf(events: seq<Event>, n: nat): seq<nat>
    requires n <= |events|
  {
    if n == 0 then []
    else UnresolvedOf(events, n - 1) + if Unresolvable(events[n - 1]).Some? then [events[n - 1].sequence] else []
  }

  // The first n events are divided into steps, duplicates and unresolved events.
  lemma {:induction false} CountsAddUp(events: seq<Event>, actions: seq<Option<Action>>, n: nat)
    requires n <= |actions| == |events| && AllMeant(events, actions)
    ensures |Kept(actions, n)| + Duplicates(actions, n) + |UnresolvedOf(events, n)| == n
  {
    if n > 0 {
      CountsAddUp(events, actions, n - 1);
      assert Means(events[n - 1], actions[n - 1]);
    }
  }

  // What is said of the first n events does not depend on the ones after them.
  lemma {:induction false} KeptOfPrefix(actions: seq<Option<Action>>, a: Option<Action>, n: nat)
    requires n <= |actions|
    ensures Kept(actions + [a], n) == Kept(actions, n)
    ensures Duplicates(actions + [a], n) == Duplicates(actions, n)
    ensures VariablesOf(actions + [a], n) == VariablesOf(actions, n)
  {
    if n > 0 {
      KeptOfPrefix(actions, a, n - 1);
      assert IsDuplicate(actions + [a], n - 1) == IsDuplicate(actions, n - 1);
    }
  }

  lemma {:induction false} RetainedOfPrefix(actions: seq<Option<Action>>, a: Option<Action>, i: nat)
    requires i < |actions|
    ensures RetainedBy(actions + [a], i) == RetainedBy(actions, i)
  {
    assert IsDuplicate(actions + [a], i) == IsDuplicate(actions, i);
    if IsDuplicate(actions, i) {
      RetainedOfPrefix(actions, a, i - 1);
    }
  }

  lemma OutcomeOfPrefix(events: seq<Event>, actions: seq<Option<Action>>, a: Option<Action>, i: nat)
    requires i < |actions| < |events|
    ensures OutcomeOf(events, actions + [a], i) == OutcomeOf(events, actions, i)
  {
    RetainedOfPrefix(actions, a, i);
    RetainedWithin(actions, i);
    KeptOfPrefix(actions, a, RetainedBy(actions, i));
  }

  function Fallback(e: Event): string {
    (if AsksForVariable(e) then "inputValue" else "secretValue") + Padded(e.sequence, 3)
  }

  method ConvertEvent(e: Event, used: set<string>, variables: seq<string>)
    returns (r: Result<Action, IssueCode>, nowUsed: set<string>, nowVariables: seq<string>)
    requires e.bundle.Some? && |used| < MAX_RECORDING_EVENTS
    ensures r.Err? ==> Unresolvable(e) == Some(r.error) && nowUsed == used && nowVariables == variables
    ensures r.Ok? ==> Means(e, Some(r.value))
    ensures r.Ok? ==> NamedApart(r.value, used, nowUsed)
    ensures r.Ok? ==> nowVariables == variables + VariableOf(r.value)
  {
    nowUsed, nowVariables := used, variables;
    match Unresolvable(e) {
      case Some(code) => r := Err(code);
      case None =>
        if AsksForVariable(e) || AsksForSecret(e) {
          var name;
          assert Pow10(3) == 1000;
          name, nowUsed := Naming.AllocateIdentifier(e.preferredName, Fallback(e), used, 3);
          if AsksForVariable(e) {
            nowVariables := nowVariables + [name];
          }
          r := Ok(ActionOf(e, name));
        } else {
          r := Ok(ActionOf(e, ""));
        }
    }
  }

  datatype Previous = Previous(key: Key, eventId: string, stepId: string)

  // What the converter remembers of the last event.
  function Remembered(events: seq<Event>, actions: seq<Option<Action>>): Option<Previous>
    requires |actions| <= |events|
  {
    var n := |actions|;
    if n == 0 || actions[n - 1].None? || KeyOf(actions[n - 1].value).None? then None
    else
      var j := RetainedBy(actions, n - 1);
      RetainedWithin(actions, n - 1);
      Some(Previous(KeyOf(actions[n - 1].value).value, events[j].id, StepId(|Kept(actions, j)| + 1)))
  }

  ghost predicate StepsOf(steps: seq<Step>, actions: seq<Action>) {
    && |steps| == |actions|
    && forall t :: 0 <= t < |steps| ==> steps[t] == Step(StepId(t + 1), actions[t])
  }

  function ActionsOf(steps: seq<Step>): (r: seq<Action>)
    ensures |r| == |steps| && forall t :: 0 <= t < |r| ==> r[t] == steps[t].action
  {
    seq(|steps|, t requires 0 <= t < |steps| => steps[t].action)
  }

  // So the steps that a conversion returns do what its events did: whatever actions the events
  // mean, running the steps is running all resolved events in order.
  lemma GeneratedStepsReplay<S(!new)>(
    act: (Deed, S) -> S, i: Inputs, events: seq<Event>, actions: seq<Option<Action>>, steps: seq<Step>, s: S)
    requires |actions| == |events| && AllMeant(events, actions) && StepsOf(steps, Kept(actions, |events|))
    requires WellBehaved(act)
    ensures Replay(act, i, ActionsOf(steps), s) == Replay(act, i, Resolved(actions, |events|), s)
  {
    assert ActionsOf(steps) == Kept(actions, |events|);
    ReplaysEquivalently(act, i, actions, |events|, s);
  }

  // ---------- One event more ----------

  predicate Repeats(events: seq<Event>, actions: seq<Option<Action>>, a: Action)
    requires |actions| <= |events|
  {
    var p := Remembered(events, actions);
    KeyOf(a).Some? && p.Some? && p.value.key == KeyOf(a).value
  }

  lemma EarlierUnchanged(events: seq<Event>, actions: seq<Option<Action>>, a: Option<Action>)
    requires |actions| < |events|
    ensures forall i :: 0 <= i < |actions| ==> OutcomeOf(events, actions + [a], i) == OutcomeOf(events, actions, i)
  {
    forall i | 0 <= i < |actions| ensures OutcomeOf(events, actions + [a], i) == OutcomeOf(events, actions, i) {
      OutcomeOfPrefix(events, actions, a, i);
    }
  }

  lemma UnresolvedNext(events: seq<Event>, actions: seq<Option<Action>>)
    requires |actions| < |events|
    ensures var all := actions + [None];
            && Kept(all, |all|) == Kept(actions, |actions|) && Duplicates(all, |all|) == Duplicates(actions, |actions|)
            && VariablesOf(all, |all|) == VariablesOf(actions, |actions|)
            && Remembered(events, all) == None
            && OutcomeOf(events, all, |actions|) == Unresolved(OrElse(Unresolvable(events[|actions|]), NoUsableLocator))
  {
    KeptOfPrefix(actions, None, |actions|);
  }

  lemma RepeatedIsDuplicate(events: seq<Event>, actions: seq<Option<Action>>, a: Action)
    requires |actions| < |events|
    ensures IsDuplicate(actions + [Some(a)], |actions|) <==> Repeats(events, actions, a)
  {}

  lemma RepeatedCounts(actions: seq<Option<Action>>, a: Action)
    requires IsDuplicate(actions + [Some(a)], |actions|)
    ensures var all, n := actions + [Some(a)], |actions|;
            && Kept(all, n + 1) == Kept(actions, n) && Duplicates(all, n + 1) == Duplicates(actions, n) + 1
            && VariablesOf(all, n + 1) == VariablesOf(actions, n)
  {
    var all, n := actions + [Some(a)], |actions|;
    KeptOfPrefix(actions, Some(a), n);
    assert Kept(all, n + 1) == Kept(all, n);
  }

  lemma RepeatedNext(events: seq<Event>, actions: seq<Option<Action>>, a: Action)
    requires |actions| < |events| && Repeats(events, actions, a)
    ensures var all, p := actions + [Some(a)], Remembered(events, actions).value;
            && Remembered(events, all) == Remembered(events, actions)
            && OutcomeOf(events, all, |actions|) == Deduplicated(p.eventId, p.stepId)
  {
    var n := |actions|;
    RepeatedIsDuplicate(events, actions, a);
    RetainedOfPrefix(actions, Some(a), n - 1);
    RetainedWithin(actions, n - 1);
    KeptOfPrefix(actions, Some(a), RetainedBy(actions, n - 1));
  }

  lemma ConvertedCounts(actions: seq<Option<Action>>, a: Action)
    requires !IsDuplicate(actions + [Some(a)], |actions|)
    ensures var all, n := actions + [Some(a)], |actions|;
            Kept(all, n + 1) == Kept(actions, n) + [a] && Duplicates(all, n + 1) == Duplicates(actions, n)
  {
    KeptOfPrefix(actions, Some(a), |actions|);
  }

  lemma ConvertedNext(events: seq<Event>, actions: seq<Option<Action>>, a: Action)
    requires |actions| < |events| && !Repeats(events, actions, a)
    ensures var all, id := actions + [Some(a)], StepId(|Kept(actions, |actions|)| + 1);
            && Remembered(events, all)
            == (if KeyOf(a).None? then None else Some(Previous(KeyOf(a).value, events[|actions|].id, id)))
            && OutcomeOf(events, all, |actions|) == Converted(id)
  {
    RepeatedIsDuplicate(events, actions, a);
    KeptOfPrefix(actions, Some(a), |actions|);
  }

  lemma VariablesNext(actions: seq<Option<Action>>, a: Action)
    ensures VariablesOf(actions + [Some(a)], |actions| + 1)
         == VariablesOf(actions, |actions|) + VariableOf(a)
  {
    KeptOfPrefix(actions, Some(a), |actions|);
  }

  // The names handed out so far, each to one action.
  ghost predicate NamesUsed(actions: seq<Option<Action>>, used: set<string>) {
    && |used| <= |actions|
    && NamesApart(actions)
    && forall i :: 0 <= i < |actions| && NameOf(actions[i]).Some? ==> NameOf(actions[i]).value in used
  }

  lemma NameUsed(actions: seq<Option<Action>>, used: set<string>, a: Option<Action>, now: set<string>)
    requires NamesUsed(actions, used)
    requires match NameOf(a)
             case None => now == used
             case Some(name) => name !in used && |name| <= Naming.MAX_LENGTH && now == used + {name}
    ensures NamesUsed(actions + [a], now)
  {}

  ghost predicate MappedTo(events: seq<Event>, actions: seq<Option<Action>>, mappings: seq<Mapping>)
    requires |actions| <= |events|
  {
    && |mappings| == |actions|
    && forall i :: 0 <= i < |actions| ==> mappings[i] == Mapping(events[i].id, events[i].sequence, OutcomeOf(events, actions, i))
  }

  ghost predicate AnyBlocking(issues: seq<Issue>) {
    exists x :: x in issues && IsBlocking(x)
  }

  // What the converter has found out about the first events.
  ghost predicate Progress(
    events: seq<Event>, actions: seq<Option<Action>>, steps: seq<Step>, variables: seq<string>, mappings: seq<Mapping>,
    issues: seq<Issue>, unresolved: seq<nat>, used: set<string>, previous: Option<Previous>)
  {
    && |actions| <= |events|
    && AllMeant(events, actions)
    && StepsOf(steps, Kept(actions, |actions|))
    && variables == VariablesOf(actions, |actions|)
    && MappedTo(events, actions, mappings)
    && unresolved == UnresolvedOf(events, |actions|)
    && BlockingMatches(issues, actions)
    && NamesUsed(actions, used)
    && previous == Remembered(events, actions)
  }

  ghost predicate AllMeant(events: seq<Event>, actions: seq<Option<Action>>)
    requires |actions| <= |events|
  {
    forall i :: 0 <= i < |actions| ==> Means(events[i], actions[i])
  }

  lemma MeantNext(events: seq<Event>, actions: seq<Option<Action>>, a: Option<Action>)
    requires |actions| < |events| && AllMeant(events, actions) && Means(events[|actions|], a)
    ensures AllMeant(events, actions + [a])
  {}

  lemma MappedNext(events: seq<Event>, actions: seq<Option<Action>>, a: Option<Action>, mappings: seq<Mapping>, outcome: Outcome)
    requires |actions| < |events| && MappedTo(events, actions, mappings)
    requires outcome == OutcomeOf(events, actions + [a], |actions|)
    ensures MappedTo(events, actions + [a], mappings + [Mapping(events[|actions|].id, events[|actions|].sequence, outcome)])
  {
    EarlierUnchanged(events, actions, a);
  }

  // Some issue blocks exactly when some event was not resolved.
  ghost predicate BlockingMatches(issues: seq<Issue>, actions: seq<Option<Action>>) {
    AnyBlocking(issues) <==> exists i :: 0 <= i < |actions| && actions[i].None?
  }

  lemma BlockingNext(issues: seq<Issue>, actions: seq<Option<Action>>, more: seq<Issue>, a: Option<Action>)
    requires BlockingMatches(issues, actions)
    requires AnyBlocking(more) <==> a.None?
    ensures BlockingMatches(issues + more, actions + [a])
  {
    var all := actions + [a];
    if AnyBlocking(issues) {
      var i :| 0 <= i < |actions| && actions[i].None?;
      assert all[i].None?;
      var x :| x in issues && IsBlocking(x);
      assert x in issues + more;
    }
    if a.None? {
      assert all[|actions|].None?;
      var x :| x in more && IsBlocking(x);
      assert x in issues + more;
    }
  }

  lemma StepsNext(steps: seq<Step>, kept: seq<Action>, a: Action)
    requires StepsOf(steps, kept)
    ensures StepsOf(steps + [Step(StepId(|steps| + 1), a)], kept + [a])
  {}

  lemma UnresolvableBlocks(e: Event, code: IssueCode)
    requires Unresolvable(e) == Some(code)
    ensures IsBlocking(Issue(code, e.sequence, None))
  {}

  lemma ProgressUnresolved(
    events: seq<Event>, actions: seq<Option<Action>>, steps: seq<Step>, variables: seq<string>, mappings: seq<Mapping>,
    issues: seq<Issue>, unresolved: seq<nat>, used: set<string>, previous: Option<Previous>, code: IssueCode)
    requires Progress(events, actions, steps, variables, mappings, issues, unresolved, used, previous)
    requires |actions| < |events| && Unresolvable(events[|actions|]) == Some(code)
    ensures var e := events[|actions|];
            Progress(
              events, actions + [None], steps, variables, mappings + [Mapping(e.id, e.sequence, Unresolved(code))],
              issues + [Issue(code, e.sequence, None)], unresolved + [e.sequence], used, None)
  {
    var e := events[|actions|];
    var more := [Issue(code, e.sequence, None)];
    UnresolvableBlocks(e, code);
    assert more[0] in more;
    MeantNext(events, actions, None);
    UnresolvedNext(events, actions);
    MappedNext(events, actions, None, mappings, Unresolved(code));
    NameUsed(actions, used, None, used);
    BlockingNext(issues, actions, more, None);
  }

  lemma ProgressRepeated(
    events: seq<Event>, actions: seq<Option<Action>>, steps: seq<Step>, variables: seq<string>, mappings: seq<Mapping>,
    issues: seq<Issue>, unresolved: seq<nat>, used: set<string>, previous: Option<Previous>, a: Action)
    requires Progress(events, actions, steps, variables, mappings, issues, unresolved, used, previous)
    requires |actions| < |events| && Means(events[|actions|], Some(a)) && Repeats(events, actions, a)
    ensures NameOf(Some(a)).None?
    ensures var e := events[|actions|];
            Progress(
              events, actions + [Some(a)], steps, variables,
              mappings + [Mapping(e.id, e.sequence, Deduplicated(previous.value.eventId, previous.value.stepId))],
              issues + [Issue(DuplicateRemoved, e.sequence, Some(previous.value.stepId))], unresolved, used, previous)
  {
    MeantNext(events, actions, Some(a));
    RepeatedIsDuplicate(events, actions, a);
    RepeatedCounts(actions, a);
    RepeatedNext(events, actions, a);
    MappedNext(events, actions, Some(a), mappings, Deduplicated(previous.value.eventId, previous.value.stepId));
    NameUsed(actions, used, Some(a), used);
    BlockingNext(issues, actions, [Issue(DuplicateRemoved, events[|actions|].sequence, Some(previous.value.stepId))], Some(a));
  }

  lemma ConvertedSteps(events: seq<Event>, actions: seq<Option<Action>>, steps: seq<Step>, mappings: seq<Mapping>, a: Action)
    requires |actions| < |events| && !Repeats(events, actions, a)
    requires StepsOf(steps, Kept(actions, |actions|)) && MappedTo(events, actions, mappings)
    ensures var e, id := events[|actions|], StepId(|steps| + 1);
            var all := actions + [Some(a)];
            && StepsOf(steps + [Step(id, a)], Kept(all, |all|))
            && MappedTo(events, all, mappings + [Mapping(e.id, e.sequence, Converted(id))])
            && Remembered(events, all) == if KeyOf(a).Some? then Some(Previous(KeyOf(a).value, e.id, id)) else None
  {
    RepeatedIsDuplicate(events, actions, a);
    ConvertedCounts(actions, a);
    ConvertedNext(events, actions, a);
    StepsNext(steps, Kept(actions, |actions|), a);
    MappedNext(events, actions, Some(a), mappings, Converted(StepId(|steps| + 1)));
  }

  // The event has become a step; a value that it asks for has a name of its own.
  ghost predicate NamedApart(a: Action, used: set<string>, nowUsed: set<string>) {
    match NameOf(Some(a))
    case None => nowUsed == used
    case Some(name) => name !in used && |name| <= Naming.MAX_LENGTH && nowUsed == used + {name}
  }

  function VariableOf(a: Action): seq<string> {
    match a case Fill(_, Variable(name)) => [name] case _ => []
  }

  lemma ProgressConverted(
    events: seq<Event>, actions: seq<Option<Action>>, steps: seq<Step>, variables: seq<string>, mappings: seq<Mapping>,
    issues: seq<Issue>, unresolved: seq<nat>, used: set<string>, previous: Option<Previous>,
    a: Action, nowUsed: set<string>, more: seq<Issue>)
    requires Progress(events, actions, steps, variables, mappings, issues, unresolved, used, previous)
    requires |actions| < |events| && Means(events[|actions|], Some(a)) && !Repeats(events, actions, a)
    requires NamedApart(a, used, nowUsed)
    requires forall x :: x in more ==> !IsBlocking(x)
    ensures var e, id := events[|actions|], StepId(|steps| + 1);
            Progress(
              events, actions + [Some(a)], steps + [Step(id, a)], variables + VariableOf(a),
              mappings + [Mapping(e.id, e.sequence, Converted(id))], issues + more, unresolved, nowUsed,
              if KeyOf(a).Some? then Some(Previous(KeyOf(a).value, e.id, id)) else None)
  {
    MeantNext(events, actions, Some(a));
    ConvertedSteps(events, actions, steps, mappings, a);
    VariablesNext(actions, a);
    NameUsed(actions, used, Some(a), nowUsed);
    BlockingNext(issues, actions, more, Some(a));
  }

  // The conversion. Every event is accounted for; an event is deduplicated exactly when the
  // event right before it has the same key, and then points to the first event of its kind;
  // the draft can be published exactly when there are steps and every event was resolved.
  method ConvertRecordingArtifact(events: seq<Event>)
    returns (steps: seq<Step>, variables: seq<string>, mappings: seq<Mapping>, issues: seq<Issue>, unresolved: seq<nat>,
             publishable: bool, ghost actions: seq<Option<Action>>)
    requires |events| <= MAX_RECORDING_EVENTS
    ensures |actions| == |events| && AllMeant(events, actions)
    ensures StepsOf(steps, Kept(actions, |events|)) && variables == VariablesOf(actions, |events|) && NamesApart(actions)
    ensures MappedTo(events, actions, mappings) && unresolved == UnresolvedOf(events, |events|)
    ensures |steps| + Duplicates(actions, |events|) + |unresolved| == |events|
    ensures publishable <==> !AnyBlocking(issues)
    ensures publishable <==> steps != [] && forall i :: 0 <= i < |events| ==> Unresolvable(events[i]).None?
  {
    actions, steps, variables, mappings, issues, unresolved := [], [], [], [], [], [];
    var used: set<string> := {};
    var previous: Option<Previous> := None;
    for i := 0 to |events|
      invariant |actions| == i
      invariant Progress(events, actions, steps, variables, mappings, issues, unresolved, used, previous)
    {
      var e := events[i];
      var r: Result<Action, IssueCode> := Err(NoUsableLocator);
      var nowUsed, nowVariables := used, variables;
      if e.bundle.Some? {
        r, nowUsed, nowVariables := ConvertEvent(e, used, variables);
      }
      if r.Err? {
        ProgressUnresolved(events, actions, steps, variables, mappings, issues, unresolved, used, previous, r.error);
        mappings := mappings + [Mapping(e.id, e.sequence, Unresolved(r.error))];
        unresolved := unresolved + [e.sequence];
        issues := issues + [Issue(r.error, e.sequence, None)];
        actions := actions + [None];
        previous := None;
      } else if KeyOf(r.value).Some? && previous.Some? && previous.value.key == KeyOf(r.value).value {
        ProgressRepeated(events, actions, steps, variables, mappings, issues, unresolved, used, previous, r.value);
        mappings := mappings + [Mapping(e.id, e.sequence, Deduplicated(previous.value.eventId, previous.value.stepId))];
        issues := issues + [Issue(DuplicateRemoved, e.sequence, Some(previous.value.stepId))];
        actions := actions + [Some(r.value)];
      } else {
        var id := StepId(|steps| + 1);
        var more := if e.bundle.value.lowConfidence then [Issue(LowLocatorConfidence, e.sequence, Some(id))] else [];
        ProgressConverted(events, actions, steps, variables, mappings, issues, unresolved, used, previous, r.value, nowUsed, more);
        steps := steps + [Step(id, r.value)];
        variables, used := nowVariables, nowUsed;
        mappings := mappings + [Mapping(e.id, e.sequence, Converted(id))];
        issues := issues + more;
        actions := actions + [Some(r.value)];
        previous := if KeyOf(r.value).Some? then Some(Previous(KeyOf(r.value).value, e.id, id)) else None;
      }
    }
    CountsAddUp(events, actions, |events|);
    Publishability(events, actions, issues, steps);
    if steps == [] {
      issues := issues + [Issue(NoExecutableSteps, 0, None)];
    }
    HasBlockingFinds(issues);
    publishable := !HasBlocking(issues);
  }

  lemma Publishability(events: seq<Event>, actions: seq<Option<Action>>, issues: seq<Issue>, steps: seq<Step>)
    requires |actions| == |events| && AllMeant(events, actions) && BlockingMatches(issues, actions)
    ensures var all := if steps == [] then issues + [Issue(NoExecutableSteps, 0, None)] else issues;
            AnyBlocking(all) <==> !(steps != [] && forall i :: 0 <= i < |events| ==> Unresolvable(events[i]).None?)
  {
    AllResolved(events, actions);
    if steps == [] {
      var all := issues + [Issue(NoExecutableSteps, 0, None)];
      assert all[|issues|] in all && IsBlocking(all[|issues|]);
    }
  }

  lemma AllResolved(events: seq<Event>, actions: seq<Option<Action>>)
    requires |actions| == |events| && AllMeant(events, actions)
    ensures (exists i :: 0 <= i < |actions| && actions[i].None?) <==> !(forall i :: 0 <= i < |events| ==> Unresolvable(events[i]).None?)
  {
    forall i | 0 <= i < |events| ensures Unresolvable(events[i]).None? <==> actions[i].Some? {
      assert Means(events[i], actions[i]);
    }
  }

  predicate HasBlocking(issues: seq<Issue>) {
    issues != [] && (IsBlocking(issues[0]) || HasBlocking(issues[1..]))
  }

  lemma {:induction false} HasBlockingFinds(issues: seq<Issue>)
    ensures HasBlocking(issues) <==> AnyBlocking(issues)
  {
    if issues != [] {
      assert issues == [issues[0]] + issues[1..];
      HasBlockingFinds(issues[1..]);
    }
  }
}
