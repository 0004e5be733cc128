/**
 * The decision engine: an ordered list of named policies, each of which
 * allows, denies or abstains. The first Deny ends the scan, the first
 * Allow is remembered but does not, and when nobody decides the result
 * is a fixed default Deny. Every policy visited leaves a step in the trace.
 */
module Policies {
  import opened Types

  /** What one policy contributed to a trace. */
  datatype StepOutcome = Allow | Deny | Abstain

  /** How a step outcome is printed. */
  function OutcomeName(o: StepOutcome): string
  {
    match o
    case Allow => "Allow"
    case Deny => "Deny"
    case Abstain => "Abstain"
  }

  /** Printing distinguishes the three outcomes, and a decided step prints as its effect does. */
  lemma OutcomeNames(a: StepOutcome, b: StepOutcome, e: Effect)
    ensures OutcomeName(a) == OutcomeName(b) <==> a == b
    ensures OutcomeName(OutcomeOf(e)) == EffectName(e)
  {
    if a != b {
      assert |OutcomeName(a)| != |OutcomeName(b)|;
    }
  }

  /** The step outcome that records a decision with effect `e`. */
  function OutcomeOf(e: Effect): StepOutcome
  {
    if e == Effect.Deny then StepOutcome.Deny else StepOutcome.Allow
  }

  /** One policy's entry in a trace; the reason is empty when it abstained. */
  datatype PolicyStep = PolicyStep(policyName: string, outcome: StepOutcome, reason: string)

  /** The audit record of one evaluation: a copy of the request and the steps taken. */
  datatype EvaluationTrace = EvaluationTrace(context: RequestContext, steps: seq<PolicyStep>)

  datatype EvaluationResult = EvaluationResult(decision: PolicyDecision, trace: EvaluationTrace)

  /**
   * A named policy. Its decision function is total: `None` means it
   * abstains. The version, author and description metadata never affect
   * evaluation and are not kept.
   */
  datatype Policy = Policy(name: string, decide: RequestContext -> Option<PolicyDecision>)

  /** The decision returned when no policy allows or denies. */
  const DefaultDeny := PolicyDecision(Effect.Deny, "default", "No policy explicitly granted access.")

  predicate Denies(p: Policy, ctx: RequestContext)
  {
    p.decide(ctx).Some? && p.decide(ctx).value.effect == Effect.Deny
  }

  predicate Allows(p: Policy, ctx: RequestContext)
  {
    p.decide(ctx).Some? && p.decide(ctx).value.effect == Effect.Allow
  }

  /** The trace step that visiting policy `p` records. */
  function StepFor(p: Policy, ctx: RequestContext): PolicyStep
  {
    match p.decide(ctx)
    case None => PolicyStep(p.name, Abstain, "")
    case Some(d) => PolicyStep(p.name, OutcomeOf(d.effect), d.reason)
  }

  /**
   * The scan over the policies not yet visited, given the first Allow seen
   * so far: the final decision and the steps still to be recorded.
   */
  function Scan(ps: seq<Policy>, ctx: RequestContext, firstAllow: Option<PolicyDecision>): (PolicyDecision, seq<PolicyStep>)
  {
    if |ps| == 0 then
      (if firstAllow.Some? then firstAllow.value else DefaultDeny, [])
    else if Denies(ps[0], ctx) then
      (ps[0].decide(ctx).value, [StepFor(ps[0], ctx)])
    else
      var next := if firstAllow.None? && Allows(ps[0], ctx) then ps[0].decide(ctx) else firstAllow;
      var rest := Scan(ps[1..], ctx, next);
      (rest.0, [StepFor(ps[0], ctx)] + rest.1)
  }

  /** What evaluating a request against the policies `ps` returns. */
  function Evaluation(ps: seq<Policy>, ctx: RequestContext): EvaluationResult
  {
    var s := Scan(ps, ctx, None);
    EvaluationResult(s.0, EvaluationTrace(ctx, s.1))
  }

  // ---------------------------------------------------------------------
  // The engine object

  class PolicyEngine {
    /** The registered policies, in registration order. */
    var policies: seq<Policy>

    constructor ()
      ensures policies == []
    {
      policies := [];
    }

    function PolicyCount(): nat
      reads this
    {
      |policies|
    }

    /** Appends a policy; duplicates are allowed and kept in order. */
    method RegisterPolicy(p: Policy)
      modifies this
      ensures policies == old(policies) + [p]
      ensures PolicyCount() == old(PolicyCount()) + 1
      ensures forall i :: 0 <= i < old(PolicyCount()) ==> policies[i] == old(policies[i])
    {
      policies := policies + [p];
    }

    /** Deny-wins, fail-closed evaluation with a full trace. */
    method Evaluate(ctx: RequestContext) returns (result: EvaluationResult)
      ensures result == Evaluation(policies, ctx)
    {
      var steps: seq<PolicyStep> := [];
      var firstAllow: Option<PolicyDecision> := None;
      var i := 0;
      while i < |policies|
        invariant 0 <= i <= |policies|
        invariant Scan(policies, ctx, None).0 == Scan(policies[i..], ctx, firstAllow).0
        invariant Scan(policies, ctx, None).1 == steps + Scan(policies[i..], ctx, firstAllow).1
      {
        var policy := policies[i];
        assert policies[i..][0] == policy && policies[i..][1..] == policies[i + 1..];
        var decision := policy.decide(ctx);
        match decision {
          case None =>
            steps := steps + [PolicyStep(policy.name, Abstain, "")];
          case Some(d) =>
            if d.effect == Effect.Deny {
              steps := steps + [PolicyStep(policy.name, StepOutcome.Deny, d.reason)];
              return EvaluationResult(d, EvaluationTrace(ctx, steps));
            }
            steps := steps + [PolicyStep(policy.name, StepOutcome.Allow, d.reason)];
            if firstAllow.None? {
              firstAllow := decision;
            }
        }
        i := i + 1;
      }
      var final := if firstAllow.Some? then firstAllow.value else DefaultDeny;
      result := EvaluationResult(final, EvaluationTrace(ctx, steps));
    }
  }

  // ---------------------------------------------------------------------
  // Properties of the scan

  /**
   * The trace lists the visited policies in registration order, each step
   * records that policy's own outcome, only the last step can be a Deny,
   * and the scan stops early only on a Deny.
   */
  lemma {:induction false} ScanTrace(ps: seq<Policy>, ctx: RequestContext, firstAllow: Option<PolicyDecision>)
    ensures var steps := Scan(ps, ctx, firstAllow).1;
      && |steps| <= |ps|
      && (|ps| > 0 ==> |steps| > 0)
      && (forall k :: 0 <= k < |steps| ==> steps[k] == StepFor(ps[k], ctx))
      && (forall k :: 0 <= k < |steps| - 1 ==> !Denies(ps[k], ctx))
      && (0 < |steps| < |ps| ==> Denies(ps[|steps| - 1], ctx))
  {
    if |ps| > 0 && !Denies(ps[0], ctx) {
      var next := if firstAllow.None? && Allows(ps[0], ctx) then ps[0].decide(ctx) else firstAllow;
      ScanTrace(ps[1..], ctx, next);
    }
  }

  /** If the first denying policy is at index `i`, its decision is the result and the trace has `i + 1` steps. */
  lemma {:induction false} ScanDenyWins(ps: seq<Policy>, ctx: RequestContext, firstAllow: Option<PolicyDecision>, i: nat)
    requires i < |ps| && Denies(ps[i], ctx)
    requires forall j :: 0 <= j < i ==> !Denies(ps[j], ctx)
    ensures Scan(ps, ctx, firstAllow).0 == ps[i].decide(ctx).value
    ensures |Scan(ps, ctx, firstAllow).1| == i + 1
  {
    if i > 0 {
      var next := if firstAllow.None? && Allows(ps[0], ctx) then ps[0].decide(ctx) else firstAllow;
      ScanDenyWins(ps[1..], ctx, next, i - 1);
    }
  }

  /** Without a Deny the scan visits every policy, and an Allow already seen is the result. */
  lemma {:induction false} ScanWithoutDeny(ps: seq<Policy>, ctx: RequestContext, firstAllow: Option<PolicyDecision>)
    requires forall j :: 0 <= j < |ps| ==> !Denies(ps[j], ctx)
    ensures |Scan(ps, ctx, firstAllow).1| == |ps|
    ensures firstAllow.Some? ==> Scan(ps, ctx, firstAllow).0 == firstAllow.value
  {
    if |ps| > 0 {
      var next := if firstAllow.None? && Allows(ps[0], ctx) then ps[0].decide(ctx) else firstAllow;
      ScanWithoutDeny(ps[1..], ctx, next);
    }
  }

  /** Without a Deny, the first allowing policy's decision is the result. */
  lemma {:induction false} ScanFirstAllow(ps: seq<Policy>, ctx: RequestContext, k: nat)
    requires forall j :: 0 <= j < |ps| ==> !Denies(ps[j], ctx)
    requires k < |ps| && Allows(ps[k], ctx)
    requires forall j :: 0 <= j < k ==> !Allows(ps[j], ctx)
    ensures Scan(ps, ctx, None).0 == ps[k].decide(ctx).value
  {
    if k == 0 {
      ScanWithoutDeny(ps[1..], ctx, ps[0].decide(ctx));
    } else {
      ScanFirstAllow(ps[1..], ctx, k - 1);
    }
  }

  /** When every policy abstains, the result is the default Deny. */
  lemma {:induction false} ScanAllAbstain(ps: seq<Policy>, ctx: RequestContext)
    requires forall j :: 0 <= j < |ps| ==> ps[j].decide(ctx).None?
    ensures Scan(ps, ctx, None).0 == DefaultDeny
  {
    if |ps| > 0 {
      ScanAllAbstain(ps[1..], ctx);
    }
  }

  /** The result allows exactly when no policy denies and some policy (or the Allow already seen) allows. */
  lemma {:induction false} ScanAllows(ps: seq<Policy>, ctx: RequestContext, firstAllow: Option<PolicyDecision>)
    requires firstAllow.Some? ==> firstAllow.value.effect == Effect.Allow
    ensures Scan(ps, ctx, firstAllow).0.effect == Effect.Allow <==>
      (forall j :: 0 <= j < |ps| ==> !Denies(ps[j], ctx)) &&
      (firstAllow.Some? || exists j :: 0 <= j < |ps| && Allows(ps[j], ctx))
  {
    if |ps| > 0 && !Denies(ps[0], ctx) {
      var next := if firstAllow.None? && Allows(ps[0], ctx) then ps[0].decide(ctx) else firstAllow;
      ScanAllows(ps[1..], ctx, next);
      if exists j :: 0 <= j < |ps| && Allows(ps[j], ctx) {
        var j :| 0 <= j < |ps| && Allows(ps[j], ctx);
        if j > 0 {
          assert Allows(ps[1..][j - 1], ctx);
        }
      }
      if forall j :: 0 <= j < |ps[1..]| ==> !Denies(ps[1..][j], ctx) {
        forall j | 0 <= j < |ps| ensures !Denies(ps[j], ctx) {
          if j > 0 {
            assert ps[j] == ps[1..][j - 1];
          }
        }
      }
    }
  }

  // ---------------------------------------------------------------------
  // Properties of a whole evaluation

  /**
   * The trace snapshots the request and lists one step per visited policy,
   * in registration order, naming that policy; an abstaining step has an
   * empty reason and a decided step copies the decision's reason. A Deny
   * can only be the last step, the scan stops early only on a Deny, and
   * the trace is empty only when no policy is registered.
   */
  lemma TraceShape(ps: seq<Policy>, ctx: RequestContext)
    ensures var t := Evaluation(ps, ctx).trace;
      && t.context == ctx
      && |t.steps| <= |ps|
      && (|ps| > 0 ==> |t.steps| > 0)
      && (forall k :: 0 <= k < |t.steps| ==> t.steps[k].policyName == ps[k].name)
      && (forall k :: 0 <= k < |t.steps| ==>
            (t.steps[k].outcome == Abstain <==> ps[k].decide(ctx).None?))
      && (forall k :: 0 <= k < |t.steps| && t.steps[k].outcome == Abstain ==> t.steps[k].reason == "")
      && (forall k :: 0 <= k < |t.steps| && ps[k].decide(ctx).Some? ==>
            t.steps[k].outcome == OutcomeOf(ps[k].decide(ctx).value.effect) &&
            t.steps[k].reason == ps[k].decide(ctx).value.reason)
      && (forall k :: 0 <= k < |t.steps| - 1 ==> t.steps[k].outcome != StepOutcome.Deny)
      && (0 < |t.steps| < |ps| ==> t.steps[|t.steps| - 1].outcome == StepOutcome.Deny)
  {
    ScanTrace(ps, ctx, None);
  }

  /** The first Deny, at index `i`, is the result and the trace stops after `i + 1` steps. */
  lemma FirstDenyWins(ps: seq<Policy>, ctx: RequestContext, i: nat)
    requires i < |ps| && Denies(ps[i], ctx)
    requires forall j :: 0 <= j < i ==> !Denies(ps[j], ctx)
    ensures Evaluation(ps, ctx).decision == ps[i].decide(ctx).value
    ensures |Evaluation(ps, ctx).trace.steps| == i + 1
  {
    ScanDenyWins(ps, ctx, None, i);
  }

  /** With no Deny, the first Allow in registration order is the result and every policy is traced. */
  lemma FirstAllowSticks(ps: seq<Policy>, ctx: RequestContext, k: nat)
    requires forall j :: 0 <= j < |ps| ==> !Denies(ps[j], ctx)
    requires k < |ps| && Allows(ps[k], ctx)
    requires forall j :: 0 <= j < k ==> !Allows(ps[j], ctx)
    ensures Evaluation(ps, ctx).decision == ps[k].decide(ctx).value
    ensures |Evaluation(ps, ctx).trace.steps| == |ps|
  {
    ScanFirstAllow(ps, ctx, k);
    ScanWithoutDeny(ps, ctx, None);
  }

  /** Fail-closed: when no policy decides (in particular with no policies) the default Deny is returned after a full scan. */
  lemma FailClosed(ps: seq<Policy>, ctx: RequestContext)
    requires forall j :: 0 <= j < |ps| ==> ps[j].decide(ctx).None?
    ensures Evaluation(ps, ctx).decision == DefaultDeny
    ensures |Evaluation(ps, ctx).trace.steps| == |ps|
  {
    ScanAllAbstain(ps, ctx);
    ScanWithoutDeny(ps, ctx, None);
  }

  /**
   * The documented resolution strategy: access is granted exactly when no
   * policy denies and at least one allows; then the trace has an Allow step.
   */
  lemma ResolutionStrategy(ps: seq<Policy>, ctx: RequestContext)
    ensures Evaluation(ps, ctx).decision.effect == Effect.Allow <==>
      (forall j :: 0 <= j < |ps| ==> !Denies(ps[j], ctx)) &&
      (exists j :: 0 <= j < |ps| && Allows(ps[j], ctx))
    ensures Evaluation(ps, ctx).decision.effect == Effect.Allow ==>
      exists k :: 0 <= k < |Evaluation(ps, ctx).trace.steps| &&
        Evaluation(ps, ctx).trace.steps[k].outcome == StepOutcome.Allow
  {
    ScanAllows(ps, ctx, None);
    if Evaluation(ps, ctx).decision.effect == Effect.Allow {
      var j :| 0 <= j < |ps| && Allows(ps[j], ctx);
      ScanWithoutDeny(ps, ctx, None);
      ScanTrace(ps, ctx, None);
      assert Evaluation(ps, ctx).trace.steps[j].outcome == StepOutcome.Allow;
    }
  }

  /**
   * The returned decision is the one the policy's function produced, so its
   * policy name is the function's, while the trace step carries the
   * registered name; the two may differ.
   */
  lemma DecisionNamedByFunction(name: string, decided: string, reason: string, ctx: RequestContext)
    ensures var p := Policy(name, (c: RequestContext) => Some(PolicyDecision(Effect.Deny, decided, reason)));
      && Evaluation([p], ctx).decision.policyName == decided
      && Evaluation([p], ctx).trace.steps == [PolicyStep(name, StepOutcome.Deny, reason)]
  {
    var p := Policy(name, (c: RequestContext) => Some(PolicyDecision(Effect.Deny, decided, reason)));
    FirstDenyWins([p], ctx, 0);
    TraceShape([p], ctx);
  }

  // ---------------------------------------------------------------------
  // Counting the steps of a trace

  /** The number of steps whose policy allowed or denied. */
  function CountEvaluated(steps: seq<PolicyStep>): nat
  {
    if |steps| == 0 then 0
    else CountEvaluated(steps[..|steps| - 1]) + (if steps[|steps| - 1].outcome != Abstain then 1 else 0)
  }

  /** The number of steps whose policy abstained. */
  function CountAbstained(steps: seq<PolicyStep>): nat
  {
    if |steps| == 0 then 0
    else (if steps[0].outcome == Abstain then 1 else 0) + CountAbstained(steps[1..])
  }

  /** Every step either was evaluated or abstained. */
  lemma {:induction false} EvaluatedPlusAbstained(steps: seq<PolicyStep>)
    ensures CountEvaluated(steps) + CountAbstained(steps) == |steps|
  {
    if |steps| > 0 {
      var n := |steps|;
      EvaluatedPlusAbstained(steps[..n - 1]);
      EvaluatedPlusAbstained(steps[1..]);
      if n > 1 {
        assert steps[1..][..n - 2] == steps[..n - 1][1..];
        EvaluatedPlusAbstained(steps[1..][..n - 2]);
      } else {
        assert steps[1..] == [];
      }
    }
  }

  /** The number of non-abstaining steps of a trace, by a scan over its steps. */
  method EvaluatedCount(trace: EvaluationTrace) returns (count: nat)
    ensures count == CountEvaluated(trace.steps)
    ensures count <= |trace.steps|
  {
    var steps := trace.steps;
    count := 0;
    var i := 0;
    while i < |steps|
      invariant 0 <= i <= |steps|
      invariant count == CountEvaluated(steps[..i])
    {
      assert steps[..i + 1][..i] == steps[..i];
      if steps[i].outcome != Abstain {
        count := count + 1;
      }
      i := i + 1;
    }
    assert steps[..i] == steps;
    EvaluatedPlusAbstained(steps);
  }

  /** The number of abstaining steps: all steps minus the evaluated ones, which never underflows. */
  method AbstainCount(trace: EvaluationTrace) returns (count: nat)
    ensures count == CountAbstained(trace.steps)
  {
    var evaluated := EvaluatedCount(trace);
    EvaluatedPlusAbstained(trace.steps);
    count := |trace.steps| - evaluated;
  }
}
