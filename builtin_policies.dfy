/**
 * The five built-in policies and the default engine that registers them
 * in their recommended order. The order is load-bearing: the MFA check
 * comes before the engineer grant, so the engineer policy can abstain on
 * restricted resources and leave them to it.
 */
module BuiltinPolicies {
  import opened Types
  import opened Policies

  /** Admins bypass all restrictions. */
  function AdminFullAccess(ctx: RequestContext): Option<PolicyDecision>
  {
    if ctx.principal.role == "admin" then
      Some(PolicyDecision(Effect.Allow, "AdminFullAccess", "Admin role has unrestricted access."))
    else None
  }

  /** Restricted resources need a verified MFA. */
  function MfaRequiredForRestricted(ctx: RequestContext): Option<PolicyDecision>
  {
    if ctx.resource.classification == "restricted" && !ctx.mfaVerified then
      Some(MfaDenial)
    else None
  }

  const MfaDenial := PolicyDecision(Effect.Deny, "MFARequiredForRestricted", "MFA required to access restricted resources.")

  /** Non-admins cannot write or delete in production. */
  function ProductionImmutability(ctx: RequestContext): Option<PolicyDecision>
  {
    if ctx.environment == "production" && ctx.principal.role != "admin" &&
       (ctx.action.verb == "write" || ctx.action.verb == "delete") then
      Some(PolicyDecision(Effect.Deny, "ProductionImmutability", "Write/delete operations require admin role in production."))
    else None
  }

  /** Analysts may only read, and only resources that are neither restricted nor confidential. */
  function AnalystReadOnly(ctx: RequestContext): Option<PolicyDecision>
  {
    if ctx.principal.role != "analyst" then None
    else if ctx.action.verb != "read" then
      Some(PolicyDecision(Effect.Deny, "AnalystReadOnly", "Analysts are limited to read-only access."))
    else if ctx.resource.classification == "restricted" || ctx.resource.classification == "confidential" then
      Some(PolicyDecision(Effect.Deny, "AnalystReadOnly", "Analysts cannot access confidential or restricted data."))
    else
      Some(PolicyDecision(Effect.Allow, "AnalystReadOnly", "Analyst read access on non-sensitive resource allowed."))
  }

  /** Engineers have full access in dev and staging and read access in production; restricted resources are left to other policies. */
  function EngineerAccess(ctx: RequestContext): Option<PolicyDecision>
  {
    if ctx.principal.role != "engineer" then None
    else if ctx.resource.classification == "restricted" then None
    else if ctx.environment == "dev" || ctx.environment == "staging" then
      Some(PolicyDecision(Effect.Allow, "EngineerAccess", "Engineers have full access in non-production environments."))
    else if ctx.environment == "production" && ctx.action.verb == "read" then
      Some(PolicyDecision(Effect.Allow, "EngineerAccess", "Engineers can read production resources."))
    else None
  }

  /** The built-in policies in their registration order. */
  function DefaultPolicies(): seq<Policy>
  {
    [ Policy("AdminFullAccess", AdminFullAccess),
      Policy("MFARequiredForRestricted", MfaRequiredForRestricted),
      Policy("ProductionImmutability", ProductionImmutability),
      Policy("AnalystReadOnly", AnalystReadOnly),
      Policy("EngineerAccess", EngineerAccess) ]
  }

  /** An engine holding the five built-in policies, in the recommended order. */
  method DefaultPolicyEngine() returns (engine: PolicyEngine)
    ensures fresh(engine)
    ensures engine.policies == DefaultPolicies()
    ensures engine.PolicyCount() == 5
  {
    engine := new PolicyEngine();
    engine.RegisterPolicy(Policy("AdminFullAccess", AdminFullAccess));
    engine.RegisterPolicy(Policy("MFARequiredForRestricted", MfaRequiredForRestricted));
    engine.RegisterPolicy(Policy("ProductionImmutability", ProductionImmutability));
    engine.RegisterPolicy(Policy("AnalystReadOnly", AnalystReadOnly));
    engine.RegisterPolicy(Policy("EngineerAccess", EngineerAccess));
  }

  /**
   * Every built-in decision carries its own policy's name, and each
   * built-in only ever decides one way except the analyst policy:
   * the admin and engineer policies never deny, the MFA and production
   * policies never allow.
   */
  lemma BuiltinDecisions(ctx: RequestContext)
    ensures forall i :: 0 <= i < |DefaultPolicies()| && DefaultPolicies()[i].decide(ctx).Some? ==>
      DefaultPolicies()[i].decide(ctx).value.policyName == DefaultPolicies()[i].name
    ensures !Denies(DefaultPolicies()[0], ctx) && !Denies(DefaultPolicies()[4], ctx)
    ensures !Allows(DefaultPolicies()[1], ctx) && !Allows(DefaultPolicies()[2], ctx)
  {
  }

  /**
   * A restricted resource without verified MFA is denied by
   * MFARequiredForRestricted, whatever the role, even for an admin: the
   * only policy before it never denies.
   */
  lemma RestrictedNeedsMfa(ctx: RequestContext)
    requires ctx.resource.classification == "restricted" && !ctx.mfaVerified
    ensures Evaluation(DefaultPolicies(), ctx).decision == MfaDenial
    ensures |Evaluation(DefaultPolicies(), ctx).trace.steps| == 2
  {
    FirstDenyWins(DefaultPolicies(), ctx, 1);
  }

  /** A request built without setting the MFA flag never reaches a restricted resource. */
  lemma DefaultRequestDeniedOnRestricted(p: Principal, r: Resource, a: Action, env: string)
    requires r.classification == "restricted"
    ensures Evaluation(DefaultPolicies(), RequestWithoutMfa(p, r, a, env)).decision.effect == Effect.Deny
  {
    RestrictedNeedsMfa(RequestWithoutMfa(p, r, a, env));
  }

  /** An admin is granted by AdminFullAccess unless the MFA check applies; every policy is then traced. */
  lemma AdminGranted(ctx: RequestContext)
    requires ctx.principal.role == "admin"
    requires !(ctx.resource.classification == "restricted" && !ctx.mfaVerified)
    ensures Evaluation(DefaultPolicies(), ctx).decision ==
      PolicyDecision(Effect.Allow, "AdminFullAccess", "Admin role has unrestricted access.")
    ensures |Evaluation(DefaultPolicies(), ctx).trace.steps| == 5
  {
    FirstAllowSticks(DefaultPolicies(), ctx, 0);
  }

  /** A role no built-in policy grants is always denied. */
  lemma UnknownRoleDenied(ctx: RequestContext)
    requires ctx.principal.role != "admin" && ctx.principal.role != "analyst" && ctx.principal.role != "engineer"
    ensures Evaluation(DefaultPolicies(), ctx).decision.effect == Effect.Deny
  {
    ResolutionStrategy(DefaultPolicies(), ctx);
  }

  // ---------------------------------------------------------------------
  // The cases of the engine's tests

  const Alice := Principal("alice", "admin", "IT")
  const Bob := Principal("bob", "engineer", "Backend")
  const Carol := Principal("carol", "analyst", "DataSci")
  const Dave := Principal("dave", "guest", "Consulting")

  /** The case of `test_admin_full_access`: an admin with MFA may delete a restricted resource in production. */
  lemma AdminDeletesRestricted()
    ensures var ctx := RequestContext(Alice, Resource("r1", "database", "restricted", map[]), Action("delete"), "production", true);
      Evaluation(DefaultPolicies(), ctx).decision.effect == Effect.Allow &&
      Evaluation(DefaultPolicies(), ctx).decision.policyName == "AdminFullAccess"
  {
    AdminGranted(RequestContext(Alice, Resource("r1", "database", "restricted", map[]), Action("delete"), "production", true));
  }

  /** The case of `test_mfa_required_for_restricted`: an engineer without MFA is denied a restricted resource by the MFA policy. */
  lemma EngineerWithoutMfaDenied()
    ensures var ctx := RequestContext(Bob, Resource("r1", "database", "restricted", map[]), Action("read"), "staging", false);
      Evaluation(DefaultPolicies(), ctx).decision.effect == Effect.Deny &&
      Evaluation(DefaultPolicies(), ctx).decision.policyName == "MFARequiredForRestricted"
  {
    RestrictedNeedsMfa(RequestContext(Bob, Resource("r1", "database", "restricted", map[]), Action("read"), "staging", false));
  }

  /** The case of `test_production_immutability`: an engineer may read but not write or delete a confidential resource in production. */
  lemma EngineerInProduction()
    ensures var api := Resource("api", "compute", "confidential", map[]);
      var write := RequestContext(Bob, api, Action("write"), "production", false);
      var del := RequestContext(Bob, api, Action("delete"), "production", false);
      var read := RequestContext(Bob, api, Action("read"), "production", false);
      && Evaluation(DefaultPolicies(), write).decision.effect == Effect.Deny
      && Evaluation(DefaultPolicies(), write).decision.policyName == "ProductionImmutability"
      && Evaluation(DefaultPolicies(), del).decision.effect == Effect.Deny
      && Evaluation(DefaultPolicies(), read).decision.effect == Effect.Allow
      && Evaluation(DefaultPolicies(), read).decision.policyName == "EngineerAccess"
  {
    var api := Resource("api", "compute", "confidential", map[]);
    FirstDenyWins(DefaultPolicies(), RequestContext(Bob, api, Action("write"), "production", false), 2);
    FirstDenyWins(DefaultPolicies(), RequestContext(Bob, api, Action("delete"), "production", false), 2);
    FirstAllowSticks(DefaultPolicies(), RequestContext(Bob, api, Action("read"), "production", false), 4);
  }

  /** Engineers may write in dev and staging. */
  lemma EngineerWritesOutsideProduction(env: string)
    requires env == "dev" || env == "staging"
    ensures var svc := Resource("svc", "compute", "internal", map["owner" := "platform"]);
      Evaluation(DefaultPolicies(), RequestContext(Bob, svc, Action("write"), env, false)).decision.effect == Effect.Allow
  {
    var svc := Resource("svc", "compute", "internal", map["owner" := "platform"]);
    FirstAllowSticks(DefaultPolicies(), RequestContext(Bob, svc, Action("write"), env, false), 4);
  }

  /** An analyst may read a public resource but not write it, and may not read a confidential one. */
  lemma AnalystReadOnlyCases()
    ensures var docs := Resource("docs", "storage", "public", map["owner" := "mktg"]);
      var db := Resource("db", "database", "confidential", map["owner" := "bi"]);
      && Evaluation(DefaultPolicies(), RequestContext(Carol, docs, Action("read"), "dev", false)).decision.effect == Effect.Allow
      && Evaluation(DefaultPolicies(), RequestContext(Carol, docs, Action("write"), "dev", false)).decision.effect == Effect.Deny
      && Evaluation(DefaultPolicies(), RequestContext(Carol, db, Action("read"), "dev", false)).decision.effect == Effect.Deny
  {
    var docs := Resource("docs", "storage", "public", map["owner" := "mktg"]);
    var db := Resource("db", "database", "confidential", map["owner" := "bi"]);
    FirstAllowSticks(DefaultPolicies(), RequestContext(Carol, docs, Action("read"), "dev", false), 3);
    FirstDenyWins(DefaultPolicies(), RequestContext(Carol, docs, Action("write"), "dev", false), 3);
    FirstDenyWins(DefaultPolicies(), RequestContext(Carol, db, Action("read"), "dev", false), 3);
  }

  /** A guest matches no policy and gets the default Deny. */
  lemma GuestDefaultDeny()
    ensures var docs := Resource("docs", "storage", "public", map["owner" := "x"]);
      Evaluation(DefaultPolicies(), RequestContext(Dave, docs, Action("read"), "dev", false)).decision == DefaultDeny
  {
    var docs := Resource("docs", "storage", "public", map["owner" := "x"]);
    FailClosed(DefaultPolicies(), RequestContext(Dave, docs, Action("read"), "dev", false));
  }

  /** An engine with no policies denies even an admin. */
  lemma EmptyEngineDenies()
    ensures var r := Resource("r", "storage", "public", map[]);
      Evaluation([], RequestWithoutMfa(Alice, r, Action("read"), "dev")).decision == DefaultDeny
  {
    var r := Resource("r", "storage", "public", map[]);
    FailClosed([], RequestWithoutMfa(Alice, r, Action("read"), "dev"));
  }
}
