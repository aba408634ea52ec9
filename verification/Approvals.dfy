/** Approval steps and the steps they gate. */
module Approvals {
  import opened Outcomes
  import opened Workflows

  datatype Binding = Binding(approvalStepId: string, approvalIndex: nat, gatedStepId: string, gatedIndex: nat)

  // Step k asks for an approval of the step after it.
  predicate Gates(steps: seq<Step>, k: nat) {
    k + 1 < |steps| && steps[k].action.Approval?
  }

  function BindingAt(steps: seq<Step>, k: nat): Binding
    requires Gates(steps, k)
  {
    Binding(steps[k].id, k, steps[k + 1].id, k + 1)
  }

  function BindingsUpTo(steps: seq<Step>, n: nat): seq<Binding>
    requires n <= |steps|
  {
    if n == 0 then []
    else
      BindingsUpTo(steps, n - 1)
      + if Gates(steps, n - 1) then [BindingAt(steps, n - 1)] else []
  }

  ghost function OrphansUpTo(steps: seq<Step>, n: nat): seq<nat>
    requires n <= |steps|
  {
    if n == 0 then []
    else OrphansUpTo(steps, n - 1) + if steps[n - 1].action.Approval? && n == |steps| then [n - 1] else []
  }

  // Only the last step can gate nothing.
  lemma {:induction false} OnlyTheLastIsOrphaned(steps: seq<Step>, n: nat)
    requires n <= |steps|
    ensures OrphansUpTo(steps, n)
         == if n == |steps| && n > 0 && steps[n - 1].action.Approval? then [n - 1] else []
  {
    if n > 0 {
      OnlyTheLastIsOrphaned(steps, n - 1);
    }
  }

  lemma {:induction false} BindingsKnown(steps: seq<Step>, n: nat, b: Binding)
    requires n <= |steps|
    ensures b in BindingsUpTo(steps, n) <==>
            b.approvalIndex < n && Gates(steps, b.approvalIndex) && b == BindingAt(steps, b.approvalIndex)
  {
    if n > 0 {
      BindingsKnown(steps, n - 1, b);
    }
  }

  lemma BindingsCover(steps: seq<Step>)
    ensures BindingsUpTo(steps, |steps|) != [] <==> exists k: nat :: Gates(steps, k)
    ensures forall k: nat :: Gates(steps, k) ==> BindingAt(steps, k) in BindingsUpTo(steps, |steps|)
  {
    var bindings := BindingsUpTo(steps, |steps|);
    forall k: nat | Gates(steps, k) ensures BindingAt(steps, k) in bindings {
      BindingsKnown(steps, |steps|, BindingAt(steps, k));
    }
    if bindings != [] {
      BindingsKnown(steps, |steps|, bindings[0]);
    }
  }

  // Each approval gates exactly the step after it; a workflow that ends with an approval is blocked.
  method AnalyzeWorkflowApprovals(w: Workflow) returns (bindings: seq<Binding>, orphans: seq<nat>)
    requires WellFormed(w)
    ensures bindings == BindingsUpTo(w.steps, |w.steps|)
    ensures orphans != [] <==> w.steps[|w.steps| - 1].action.Approval?
    ensures bindings != [] <==> exists k: nat :: Gates(w.steps, k)
    ensures forall k: nat :: Gates(w.steps, k) ==> BindingAt(w.steps, k) in bindings
  {
    bindings, orphans := [], [];
    for k := 0 to |w.steps|
      invariant bindings == BindingsUpTo(w.steps, k)
      invariant orphans == OrphansUpTo(w.steps, k)
    {
      if w.steps[k].action.Approval? {
        if k + 1 == |w.steps| {
          orphans := orphans + [k];
        } else {
          bindings := bindings + [BindingAt(w.steps, k)];
        }
      }
    }
    OnlyTheLastIsOrphaned(w.steps, |w.steps|);
    BindingsCover(w.steps);
  }

  function FindBinding(bindings: seq<Binding>, approvalStepId: string): (r: Option<Binding>)
    ensures r.None? <==> forall b :: b in bindings ==> b.approvalStepId != approvalStepId
    ensures r.Some? ==> r.value in bindings && r.value.approvalStepId == approvalStepId
  {
    if bindings == [] then None
    else if bindings[0].approvalStepId == approvalStepId then Some(bindings[0])
    else
      assert bindings == [bindings[0]] + bindings[1..];
      FindBinding(bindings[1..], approvalStepId)
  }

  // None is the exception. The caller may say which step it takes to be gated.
  function RequireApprovalBinding(w: Workflow, approvalStepId: string, gatedStepId: Option<string>): Option<Binding> {
    match FindBinding(BindingsUpTo(w.steps, |w.steps|), approvalStepId)
    case None => None
    case Some(b) => if gatedStepId.Some? && b.gatedStepId != gatedStepId.value then None else Some(b)
  }

  // An approval step finds its own binding, unless it is the last step or the caller takes
  // another step than the next one to be gated.
  lemma FindsOwnBinding(w: Workflow, k: nat, gatedStepId: Option<string>)
    requires WellFormed(w) && k < |w.steps| && w.steps[k].action.Approval?
    ensures RequireApprovalBinding(w, w.steps[k].id, gatedStepId)
         == if k + 1 < |w.steps| && (gatedStepId.Some? ==> gatedStepId.value == w.steps[k + 1].id) then Some(BindingAt(w.steps, k)) else None
  {
    var bindings, id := BindingsUpTo(w.steps, |w.steps|), w.steps[k].id;
    forall b | b in bindings && b.approvalStepId == id ensures Gates(w.steps, k) && b == BindingAt(w.steps, k) {
      BindingsKnown(w.steps, |w.steps|, b);
      assert !(b.approvalIndex < k) && !(k < b.approvalIndex);
    }
    if Gates(w.steps, k) {
      BindingsCover(w.steps);
      assert BindingAt(w.steps, k) in bindings;
    }
  }

  // The step right after an approval is gated by it.
  predicate IsApprovalGatedStep(w: Workflow, k: nat) {
    0 < k < |w.steps| && w.steps[k - 1].action.Approval?
  }
}
