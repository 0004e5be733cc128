/**
 * The compliance checker: the opposite discipline to the decision engine.
 * Every rule is run, and every failing rule adds one violation, in rule
 * order, so the report is the complete list of what is wrong.
 */
module Compliance {
  import opened Types

  /** A named check on a resource; the version and author metadata are not kept. */
  datatype ComplianceRule = ComplianceRule(name: string, description: string, check: Resource -> bool)

  datatype ComplianceReport = ComplianceReport(resourceId: string, violations: seq<string>)
  {
    predicate Compliant()
    {
      |violations| == 0
    }
  }

  /** The violation text of a failing rule. */
  function ViolationText(rule: ComplianceRule): string
  {
    "[" + rule.name + "] " + rule.description
  }

  /** The violations the rules `rules` find in `r`, in rule order. */
  function Violations(rules: seq<ComplianceRule>, r: Resource): seq<string>
  {
    if |rules| == 0 then []
    else
      var last := rules[|rules| - 1];
      Violations(rules[..|rules| - 1], r) + (if last.check(r) then [] else [ViolationText(last)])
  }

  /** The positions of the failing rules, in increasing order. */
  function FailingRules(rules: seq<ComplianceRule>, r: Resource): seq<nat>
  {
    if |rules| == 0 then []
    else FailingRules(rules[..|rules| - 1], r) + (if rules[|rules| - 1].check(r) then [] else [|rules| - 1])
  }

  /** The set of failing rule positions. */
  function FailingSet(rules: seq<ComplianceRule>, r: Resource): set<nat>
  {
    set i: nat | i < |rules| && !rules[i].check(r)
  }

  // ---------------------------------------------------------------------
  // The checker object

  class ComplianceChecker {
    /** The registered rules, in registration order. */
    var rules: seq<ComplianceRule>

    constructor ()
      ensures rules == []
    {
      rules := [];
    }

    function RuleCount(): nat
      reads this
    {
      |rules|
    }

    /** Appends a rule, keeping the existing ones in order. */
    method AddRule(rule: ComplianceRule)
      modifies this
      ensures rules == old(rules) + [rule]
      ensures RuleCount() == old(RuleCount()) + 1
      ensures forall i :: 0 <= i < old(RuleCount()) ==> rules[i] == old(rules[i])
    {
      rules := rules + [rule];
    }

    /** Runs every rule against `resource`; checking never changes the rule list. */
    method Evaluate(resource: Resource) returns (report: ComplianceReport)
      ensures report.resourceId == resource.id
      ensures report.violations == Violations(rules, resource)
    {
      report := ComplianceReport(resource.id, []);
      var i := 0;
      while i < |rules|
        invariant 0 <= i <= |rules|
        invariant report.resourceId == resource.id
        invariant report.violations == Violations(rules[..i], resource)
      {
        assert rules[..i + 1][..i] == rules[..i];
        var rule := rules[i];
        if !rule.check(resource) {
          report := report.(violations := report.violations + ["[" + rule.name + "] " + rule.description]);
        }
        i := i + 1;
      }
      assert rules[..i] == rules;
    }
  }

  // ---------------------------------------------------------------------
  // Properties of a check

  /**
   * The violations are exactly the texts of the failing rules, in rule
   * order: violation k belongs to the k-th failing rule, the failing
   * positions increase, and a position is listed exactly when its rule fails.
   */
  lemma {:induction false} ViolationsAreFailingRules(rules: seq<ComplianceRule>, r: Resource)
    ensures var v, f := Violations(rules, r), FailingRules(rules, r);
      && |v| == |f|
      && (forall k :: 0 <= k < |f| ==> f[k] < |rules| && v[k] == ViolationText(rules[f[k]]))
      && (forall k, l :: 0 <= k < l < |f| ==> f[k] < f[l])
      && (forall i :: 0 <= i < |rules| ==> (i in f <==> !rules[i].check(r)))
  {
    if |rules| > 0 {
      var n := |rules|;
      var front := rules[..n - 1];
      ViolationsAreFailingRules(front, r);
      forall i | 0 <= i < n - 1 ensures front[i] == rules[i] { }
    }
  }

  /** The number of violations is the number of failing rules. */
  lemma {:induction false} ViolationCount(rules: seq<ComplianceRule>, r: Resource)
    ensures |Violations(rules, r)| == |FailingSet(rules, r)|
  {
    if |rules| > 0 {
      var n := |rules|;
      var front := rules[..n - 1];
      ViolationCount(front, r);
      var extra: set<nat> := if rules[n - 1].check(r) then {} else {n - 1};
      assert FailingSet(rules, r) == FailingSet(front, r) + extra by {
        forall i: nat ensures i in FailingSet(rules, r) <==> i in FailingSet(front, r) + extra {
          if i < n - 1 {
            assert front[i] == rules[i];
          }
        }
      }
      assert n - 1 !in FailingSet(front, r);
    }
  }

  /** A resource is compliant exactly when every rule passes; with no rules every resource is. */
  lemma {:induction false} CompliantIffAllPass(rules: seq<ComplianceRule>, r: Resource)
    ensures ComplianceReport(r.id, Violations(rules, r)).Compliant() <==>
      forall i :: 0 <= i < |rules| ==> rules[i].check(r)
  {
    ViolationsAreFailingRules(rules, r);
    var f := FailingRules(rules, r);
    if |f| > 0 {
      assert f[0] in f;
    }
  }

  /** A single rule on its own decides compliance. */
  lemma SingleRuleDecides(rule: ComplianceRule, r: Resource)
    ensures ComplianceReport(r.id, Violations([rule], r)).Compliant() <==> rule.check(r)
  {
    CompliantIffAllPass([rule], r);
  }

  // ---------------------------------------------------------------------
  // The default rules

  function HasOwnerTag(r: Resource): bool
  {
    "owner" in r.tags
  }

  function SecretNotPublic(r: Resource): bool
  {
    !(r.kind == "secret" && r.classification == "public")
  }

  function DatabaseRestricted(r: Resource): bool
  {
    if r.kind != "database" then true
    else r.classification == "restricted" || r.classification == "confidential"
  }

  function IsClassified(r: Resource): bool
  {
    |r.classification| != 0
  }

  const RequiresOwnerTag := ComplianceRule("RequiresOwnerTag", "Resource must have an 'owner' tag.", HasOwnerTag)
  const SecretsNotPublic := ComplianceRule("SecretsNotPublic", "Resources of type 'secret' must not be classified as 'public'.", SecretNotPublic)
  const DatabasesMustBeRestricted := ComplianceRule("DatabasesMustBeRestricted", "Database resources must be classified as 'restricted' or 'confidential'.", DatabaseRestricted)
  const NoUnclassifiedResources := ComplianceRule("NoUnclassifiedResources", "Every resource must have a non-empty classification.", IsClassified)

  /** The four default rules, in registration order. */
  function DefaultRules(): seq<ComplianceRule>
  {
    [RequiresOwnerTag, SecretsNotPublic, DatabasesMustBeRestricted, NoUnclassifiedResources]
  }

  /** A checker holding the four default rules. */
  method DefaultComplianceChecker() returns (checker: ComplianceChecker)
    ensures fresh(checker)
    ensures checker.rules == DefaultRules()
    ensures checker.RuleCount() == 4
  {
    checker := new ComplianceChecker();
    checker.AddRule(RequiresOwnerTag);
    checker.AddRule(SecretsNotPublic);
    checker.AddRule(DatabasesMustBeRestricted);
    checker.AddRule(NoUnclassifiedResources);
  }

  /** The default rules in closed form: the violations of a resource, in order. */
  lemma DefaultViolations(r: Resource)
    ensures Violations(DefaultRules(), r) ==
      (if HasOwnerTag(r) then [] else [ViolationText(RequiresOwnerTag)]) +
      (if SecretNotPublic(r) then [] else [ViolationText(SecretsNotPublic)]) +
      (if DatabaseRestricted(r) then [] else [ViolationText(DatabasesMustBeRestricted)]) +
      (if IsClassified(r) then [] else [ViolationText(NoUnclassifiedResources)])
  {
    var none: seq<ComplianceRule> := [];
    assert none + [RequiresOwnerTag] == [RequiresOwnerTag];
    assert [RequiresOwnerTag] + [SecretsNotPublic] == [RequiresOwnerTag, SecretsNotPublic];
    assert [RequiresOwnerTag, SecretsNotPublic] + [DatabasesMustBeRestricted] == [RequiresOwnerTag, SecretsNotPublic, DatabasesMustBeRestricted];
    assert [RequiresOwnerTag, SecretsNotPublic, DatabasesMustBeRestricted] + [NoUnclassifiedResources] == DefaultRules();
    ViolationsSnoc(none, RequiresOwnerTag, r);
    ViolationsSnoc([RequiresOwnerTag], SecretsNotPublic, r);
    ViolationsSnoc([RequiresOwnerTag, SecretsNotPublic], DatabasesMustBeRestricted, r);
    ViolationsSnoc([RequiresOwnerTag, SecretsNotPublic, DatabasesMustBeRestricted], NoUnclassifiedResources, r);
  }

  /** Adding a rule at the end adds at most its own violation at the end. */
  lemma ViolationsSnoc(rules: seq<ComplianceRule>, rule: ComplianceRule, r: Resource)
    ensures Violations(rules + [rule], r) == Violations(rules, r) + (if rule.check(r) then [] else [ViolationText(rule)])
  {
    assert (rules + [rule])[..|rules|] == rules;
  }

  // ---------------------------------------------------------------------
  // The cases of the checker's tests

  /** The case of `test_multiple_violations`: a public database without tags has two violations, owner tag first. */
  lemma PublicDatabaseWithoutTags()
    ensures Violations(DefaultRules(), Resource("db-legacy", "database", "public", map[])) ==
      [ViolationText(RequiresOwnerTag), ViolationText(DatabasesMustBeRestricted)]
  {
    DefaultViolations(Resource("db-legacy", "database", "public", map[]));
  }

  /** The case of `test_secret_classified_public`: a public secret with an owner has exactly the SecretsNotPublic violation. */
  lemma PublicSecret()
    ensures Violations(DefaultRules(), Resource("secret-api-key", "secret", "public", map["owner" := "devops"])) ==
      [ViolationText(SecretsNotPublic)]
  {
    DefaultViolations(Resource("secret-api-key", "secret", "public", map["owner" := "devops"]));
  }

  /** A restricted or confidential database with an owner, and a public storage bucket with one, are compliant. */
  lemma CompliantResources(classification: string)
    requires classification == "restricted" || classification == "confidential"
    ensures Violations(DefaultRules(), Resource("db", "database", classification, map["owner" := "health-team"])) == []
    ensures Violations(DefaultRules(), Resource("docs", "storage", "public", map["owner" := "mktg"])) == []
  {
    DefaultViolations(Resource("db", "database", classification, map["owner" := "health-team"]));
    DefaultViolations(Resource("docs", "storage", "public", map["owner" := "mktg"]));
  }

  /** An unclassified resource is reported by NoUnclassifiedResources. */
  lemma UnclassifiedReported()
    ensures Violations(DefaultRules(), Resource("mystery-box", "storage", "", map["owner" := "unknown"])) ==
      [ViolationText(NoUnclassifiedResources)]
  {
    DefaultViolations(Resource("mystery-box", "storage", "", map["owner" := "unknown"]));
  }

  /** A custom region-tag rule alone passes a resource exactly when it has a region tag. */
  lemma CustomRegionRule(r: Resource)
    ensures var rule := ComplianceRule("MustHaveRegionTag", "Resource must specify a 'region' tag.", (res: Resource) => "region" in res.tags);
      ComplianceReport(r.id, Violations([rule], r)).Compliant() <==> "region" in r.tags
  {
    SingleRuleDecides(ComplianceRule("MustHaveRegionTag", "Resource must specify a 'region' tag.", (res: Resource) => "region" in res.tags), r);
  }
}
