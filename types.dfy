/**
 * The value records shared by the decision engine, the compliance checker
 * and the JSON projector: who asks, for what, in which environment, and
 * what a policy decides.
 */
module Types {

  /** An optional value; `None` is how a policy abstains. */
  datatype Option<+T> = None | Some(value: T)

  /** The effect of a decision is strictly binary: there is no Abstain effect. */
  datatype Effect = Allow | Deny

  datatype Principal = Principal(id: string, role: string, department: string)

  /** Tags form a map, so each tag key occurs at most once. */
  datatype Resource = Resource(id: string, kind: string, classification: string, tags: map<string, string>)

  datatype Action = Action(verb: string)

  datatype RequestContext = RequestContext(
    principal: Principal,
    resource: Resource,
    action: Action,
    environment: string,
    mfaVerified: bool)

  datatype PolicyDecision = PolicyDecision(effect: Effect, policyName: string, reason: string)

  /** A request built without setting the MFA flag, which then keeps its default. */
  function RequestWithoutMfa(principal: Principal, resource: Resource, action: Action, environment: string): (ctx: RequestContext)
    ensures !ctx.mfaVerified
  {
    RequestContext(principal, resource, action, environment, false)
  }

  /** How an effect is printed. */
  function EffectName(e: Effect): string
  {
    if e == Allow then "Allow" else "Deny"
  }

  /** Printing distinguishes the two effects. */
  lemma EffectNameInjective(a: Effect, b: Effect)
    ensures EffectName(a) == EffectName(b) <==> a == b
  {
    if a != b {
      assert EffectName(a)[0] != EffectName(b)[0];
    }
  }
}
