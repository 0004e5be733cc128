# Governance as code: decision engine, compliance checker and JSON projector

A Dafny model of the core of a small governance library.

It has three evaluators:

- **The decision engine** (`Policies`, `BuiltinPolicies`) holds an ordered list of named policies. Each policy allows, denies or abstains for a request. Evaluation is deny-wins and fail-closed:
  - the first Deny ends the scan and is returned;
  - the first Allow is remembered, but the scan goes on, because a later Deny can still override it;
  - when no policy decides, the fixed decision `{Deny, "default", "No policy explicitly granted access."}` is returned.

  Every policy visited leaves a step in a trace, in registration order. The five built-in policies and the default engine that registers them are modelled as concrete functions. The test scenarios become lemmas about them.
- **The compliance checker** (`Compliance`) is the opposite discipline. It runs every rule. It records `"[name] description"` for each failing rule, in rule order. A report is compliant exactly when that list is empty. The four default rules are modelled as well.
- **The JSON projector** (`Json`) has three parts:
  - a five-character string escaper;
  - the quoting built on it;
  - fixed-field-order serialisers for a decision, a trace step, a full evaluation result and a compliance report.

The engine and the checker are classes whose `seq` field is appended to by `RegisterPolicy` and `AddRule`. Their `Evaluate` methods are loops. Each is proved equal to a pure recursive specification (`Evaluation`, `Violations`), and the properties are proved about those specifications.

The escaper and the two list serialisers are loops too. Each is proved equal to a specification function. A decoder (`ReadString`) proves that escaping is lossless over the five characters it rewrites, and self-delimiting. The interleaving of labels and quoted values proves that a serialised decision or step determines it. A serialised result determines its decision, its four request fields and every trace step.

Two properties of the code are stated in the code's own terms:

- `PolicyStep::reason` is commented `// empty when Abstain` (include/governance/policy_engine.hpp:39). The code guarantees only that direction (src/policy_engine.cpp:19). The converse does not hold: an Allow or Deny step copies the policy's reason (src/policy_engine.cpp:24,28), which may itself be empty. `Policies.TraceShape` states exactly what the code does.
- The escaper rewrites five characters and leaves every other control character below 0x20 as it is (include/governance/json.hpp:23). Section 7 of RFC 8259 requires those characters to be escaped, so the output is not fully conformant. `Json.ControlCharacterPassesThrough` states this.

The engine's tests do not type-check as written. They read `.effect` and `.policy_name` directly on the `EvaluationResult` that `PolicyEngine::evaluate` returns: tests/test_policy_engine.cpp:53-56 and the analyst checks at :128-143. `src/main.cpp:73` passes that same result to `print_decision`, which takes a `PolicyDecision`. `EvaluationResult` has no such fields; it holds a `decision` and a `trace` (include/governance/policy_engine.hpp:55-58). The lemmas that model these tests read the fields through `.decision`, which is evidently what the tests mean. The rows citing those test lines are therefore not exact transcriptions.

Policies and rules are datatypes that hold a total function field: `RequestContext -> Option<PolicyDecision>` for a policy (`None` means abstain), and `Resource -> bool` for a rule. Resource tags are a `map<string, string>`, so each key occurs at most once. `Effect` has only `Allow` and `Deny`; Abstain exists only as a `StepOutcome`.

## Model

| member | source | states |
|---|---|---|
| `Types.RequestWithoutMfa` | include/governance/types.hpp:28-34 | a request built without setting the MFA flag has it false |
| `Types.EffectNameInjective` | include/governance/types.hpp:42-44 | an effect prints as "Allow" or "Deny", and the two names differ |
| `Policies.OutcomeNames` | include/governance/policy_engine.hpp:25-34 | the three step outcomes print as three distinct names, and a decided step prints like its decision's effect |
| `Policies.PolicyEngine.RegisterPolicy` | src/policy_engine.cpp:7-9 | appends at the end: the count grows by one and earlier policies are unchanged |
| `Policies.PolicyEngine.Evaluate` | src/policy_engine.cpp:11-38 | the loop with early return on Deny and a remembered first Allow returns exactly the specified decision and trace |
| `Policies.ScanTrace` | src/policy_engine.cpp:16-32 | from any point of the scan: one step per visited policy in order, each being that policy's own outcome; only the last step can come from a Deny; the scan stops early only on a Deny |
| `Policies.ScanDenyWins` | src/policy_engine.cpp:16-26 | from any point of the scan, whatever Allow was already seen: the first Deny is the result, and the steps stop right after it |
| `Policies.ScanWithoutDeny` | src/policy_engine.cpp:16-34 | without a Deny, every remaining policy is traced, and an Allow already remembered stays the result |
| `Policies.ScanFirstAllow` | src/policy_engine.cpp:28-34 | without a Deny, the first allowing policy's decision is the result |
| `Policies.ScanAllAbstain` | src/policy_engine.cpp:34-37 | when every policy abstains, the default Deny is the result |
| `Policies.ScanAllows` | src/policy_engine.cpp:16-37 | from any point of the scan: the result allows iff no remaining policy denies and an Allow was seen or is still to come |
| `Policies.TraceShape` | src/policy_engine.cpp:12-32 | the trace holds a copy of the request; step k names the k-th policy; Abstain steps have reason ""; decided steps copy the decision's reason and effect; a Deny can only be the last step; the trace stops early only on a Deny; the trace is empty only with no policies |
| `Policies.FirstDenyWins` | src/policy_engine.cpp:16-26 | if the first Deny is at index i, the result is that decision and the trace has exactly i+1 steps |
| `Policies.FirstAllowSticks` | src/policy_engine.cpp:28-34 | with no Deny, the first Allow in registration order is the result, and every policy is traced |
| `Policies.FailClosed` | src/policy_engine.cpp:34-37 | when no policy decides, including with no policies at all, the result is the default Deny after a full trace |
| `Policies.ResolutionStrategy` | include/governance/policy_engine.hpp:65-69 | access is granted iff no policy denies and some policy allows; a granted result has an Allow step in its trace |
| `Policies.DecisionNamedByFunction` | src/policy_engine.cpp:23-25 | the returned decision's policy name comes from the policy's function, while the trace step carries the registered name |
| `Policies.EvaluatedPlusAbstained` | include/governance/policy_engine.hpp:46-52 | evaluated steps plus abstained steps equal all steps |
| `Policies.EvaluatedCount` | include/governance/policy_engine.hpp:46-51 | the counting loop returns the number of non-Abstain steps, which is at most the number of steps |
| `Policies.AbstainCount` | include/governance/policy_engine.hpp:52 | steps minus evaluated steps never underflows and is the number of Abstain steps |
| `BuiltinPolicies.DefaultPolicyEngine` | src/policy_engine.cpp:141-149 | the default engine holds the five built-in policies in their fixed order |
| `BuiltinPolicies.BuiltinDecisions` | src/policy_engine.cpp:42-139 | each built-in decision carries its own policy's name; the admin and engineer policies never deny; the MFA and production policies never allow |
| `BuiltinPolicies.RestrictedNeedsMfa` | src/policy_engine.cpp:42-72 | because of the policy order, any request for a restricted resource without MFA, even an admin's, is denied by MFARequiredForRestricted after two steps |
| `BuiltinPolicies.DefaultRequestDeniedOnRestricted` | include/governance/types.hpp:33 | a request built without setting the MFA flag is always denied a restricted resource |
| `BuiltinPolicies.AdminGranted` | src/policy_engine.cpp:42-56 | an admin is granted by AdminFullAccess unless the MFA check applies, and all five policies are traced |
| `BuiltinPolicies.UnknownRoleDenied` | src/policy_engine.cpp:141-149 | a role that none of the built-in policies grants (neither admin, analyst nor engineer) is always denied |
| `BuiltinPolicies.AdminDeletesRestricted` | tests/test_policy_engine.cpp:40-57 | an admin with MFA deleting a restricted resource in production is allowed by AdminFullAccess |
| `BuiltinPolicies.EngineerWithoutMfaDenied` | tests/test_policy_engine.cpp:59-75 | an engineer without MFA reading a restricted resource is denied by MFARequiredForRestricted |
| `BuiltinPolicies.EngineerInProduction` | tests/test_policy_engine.cpp:77-102 | an engineer writing or deleting in production is denied by ProductionImmutability; reading is allowed by EngineerAccess |
| `BuiltinPolicies.EngineerWritesOutsideProduction` | tests/test_policy_engine.cpp:152-172 | an engineer may write in dev and in staging |
| `BuiltinPolicies.AnalystReadOnlyCases` | tests/test_policy_engine.cpp:111-143 | an analyst may read a public resource, but may not write it or read a confidential one |
| `BuiltinPolicies.GuestDefaultDeny` | tests/test_policy_engine.cpp:184-200 | a guest gets the default Deny |
| `BuiltinPolicies.EmptyEngineDenies` | tests/test_policy_engine.cpp:202-214 | an engine with no policies denies even an admin, with the default decision |
| `Compliance.ComplianceChecker.AddRule` | src/compliance.cpp:7-9 | appends at the end: the rule count grows by one and existing rules are unchanged |
| `Compliance.ComplianceChecker.Evaluate` | src/compliance.cpp:11-21 | the loop over every rule returns the input's resource id and exactly the specified violation list, and changes no state |
| `Compliance.ViolationsSnoc` | src/compliance.cpp:15-19 | a rule added at the end adds at most its own violation, at the end |
| `Compliance.ViolationsAreFailingRules` | src/compliance.cpp:15-19 | violation k is `"[name] description"` of the k-th failing rule; the failing positions increase; a position is listed iff its rule fails |
| `Compliance.ViolationCount` | src/compliance.cpp:15-19 | the number of violations equals the number of rules whose check is false |
| `Compliance.CompliantIffAllPass` | include/governance/compliance.hpp:18-23 | the report is compliant iff every rule passes, so with zero rules every resource is compliant |
| `Compliance.SingleRuleDecides` | include/governance/compliance.hpp:10-16 | a single rule alone decides compliance: a resource passes exactly when its check holds |
| `Compliance.DefaultComplianceChecker` | src/compliance.cpp:25-71 | the default checker holds four rules: RequiresOwnerTag, SecretsNotPublic, DatabasesMustBeRestricted, NoUnclassifiedResources |
| `Compliance.DefaultViolations` | src/compliance.cpp:25-71 | the violations of the default rules for any resource, in closed form and in rule order |
| `Compliance.PublicDatabaseWithoutTags` | tests/test_compliance.cpp:118-128 | a public database with no tags has exactly two violations: RequiresOwnerTag, then DatabasesMustBeRestricted |
| `Compliance.PublicSecret` | tests/test_compliance.cpp:69-80 | a public secret with an owner tag has exactly one violation, SecretsNotPublic |
| `Compliance.CompliantResources` | tests/test_compliance.cpp:38-85 | a restricted or confidential database with an owner (lines 38-53), and a public storage resource with an owner (lines 82-85), have no violations |
| `Compliance.UnclassifiedReported` | tests/test_compliance.cpp:104-116 | an unclassified resource with an owner has exactly the NoUnclassifiedResources violation |
| `Compliance.CustomRegionRule` | tests/test_compliance.cpp:130-148 | a checker holding only the region-tag rule passes a resource iff it has a region tag |
| `Json.Escape` | include/governance/json.hpp:13-27 | the character loop returns exactly the specified escape |
| `Json.EscapedAppend` | include/governance/json.hpp:16-25 | escaping works character by character: the escape of a concatenation is the concatenation of the escapes |
| `Json.EscapedLength` | include/governance/json.hpp:16-25 | the escape is longer than the input by the number of the five special characters, so it is never shorter, and it has the same length iff the input has none of them |
| `Json.NoRawLineBreaks` | include/governance/json.hpp:20-22 | the escape holds no raw newline, carriage return or tab |
| `Json.ControlCharacterPassesThrough` | include/governance/json.hpp:23 | any other control character below 0x20 is copied unescaped |
| `Json.ReadEscaped` | include/governance/json.hpp:13-27 | reading back an escape followed by a closing quote recovers the input and exactly what followed the quote |
| `Json.EscapedInjective` | include/governance/json.hpp:13-27 | escaping is injective |
| `Json.QuotedPrefixFree` | include/governance/json.hpp:29-31 | a quoted string determines both its content and where it ends |
| `Json.QuotedAfter` | include/governance/json.hpp:29-31 | after a shared label, the quoted value and everything after it are determined |
| `Json.InterleaveInjective` | include/governance/json.hpp:48-56 | with fixed labels, the serialised object determines its field values and where it ends |
| `Json.DecisionJsonInjective` | include/governance/json.hpp:48-56 | the serialised decision (effect, policy_name, reason) determines the decision |
| `Json.StepJsonInjective` | include/governance/json.hpp:58-65 | the serialised step (policy, outcome, reason) determines the step |
| `Json.EmittedJoin` | include/governance/json.hpp:83-86 | writing the items one by one, with a comma after every item but the last, gives the comma-separated list |
| `Json.JoinLast` | include/governance/json.hpp:83-86 | the list ends with its last item with no comma after it, and a comma follows each earlier item |
| `Json.ResultToJson` | include/governance/json.hpp:67-91 | the step loop returns exactly the specified result: three decision fields, four scalar request fields, then one step object per trace step, in order |
| `Json.StepListInjective` | include/governance/json.hpp:82-89 | the steps array, up to the end of the result, determines every step, in order |
| `Json.ResultJsonFields` | include/governance/json.hpp:67-91 | the serialised result determines the decision, the four request fields and every trace step; two results that agree on those serialise alike, so nothing else from the request reaches it |
| `Json.ReportToJson` | include/governance/json.hpp:93-106 | the violation loop returns exactly the specified report: the resource id, the flag, then one quoted entry per violation, in order |
| `Json.ReportCompliantFlag` | include/governance/json.hpp:93-98 | after the quoted resource id, the report writes `true` iff it has no violations |
| `Json.CheckedReportFlag` | include/governance/json.hpp:93-98 | the serialised report of a checked resource says `true` iff every rule passes |

## Definitions

These members only compute. Each has no contract of its own; the Model rows named after each entry state its properties.

- `Types.EffectName` mirrors include/governance/types.hpp:42-44 and json.hpp:33-35. See `EffectNameInjective`.
- `Policies.OutcomeName` mirrors include/governance/policy_engine.hpp:27-34 and json.hpp:37-44. See `OutcomeNames`.
- `Policies.StepFor`, `Policies.Scan` and `Policies.Evaluation` mirror src/policy_engine.cpp:11-38. See `PolicyEngine.Evaluate` and the `Scan…` lemmas.
- `BuiltinPolicies.AdminFullAccess` (src/policy_engine.cpp:42-56) and `MfaRequiredForRestricted` (58-72). See `BuiltinDecisions` and the engine's test cases.
- `BuiltinPolicies.ProductionImmutability` (74-90), `AnalystReadOnly` (92-114) and `EngineerAccess` (116-139). See the same lemmas.
- `BuiltinPolicies.DefaultPolicies` mirrors src/policy_engine.cpp:141-149. See `DefaultPolicyEngine`.
- `Compliance.ViolationText` and `Compliance.Violations` mirror src/compliance.cpp:11-21. See `ComplianceChecker.Evaluate` and `ViolationsAreFailingRules`.
- `Compliance.HasOwnerTag`, `SecretNotPublic`, `DatabaseRestricted` and `IsClassified` are the checks of src/compliance.cpp:33-35, 43-45, 53-57 and 65-67. `DefaultRules` lists them in the order of 25-70. See `DefaultViolations`.
- `Json.EscapeChar` and `Json.Escaped` mirror include/governance/json.hpp:13-27. See `Escape`, `EscapedLength` and `ReadEscaped`.
- `Json.Quoted` mirrors json.hpp:29-31. See `QuotedPrefixFree`.
- `Json.DecisionJson` (48-56), `StepJson` (58-65), `ResultJson` (67-91) and `ReportJson` (93-106). See the `…Injective`, `ResultToJson` and `ReportToJson` rows.

## Left out

- `src/main.cpp` is not part of this model. It is a console demo that only prints.
- Policy and rule `version` and `author` metadata, and the policy `description`, are not kept because they never affect behaviour. The rule description is kept because it appears in the violation text.
- Predicates are total, pure functions. Exceptions thrown by a host-supplied predicate are not modelled; the engine neither catches nor translates them.
- Concurrency is not modelled: the model is single-threaded. This includes the registration-then-use phase discipline. Calls that only evaluate have no `modifies` clause, so they cannot change the engine or the checker.
- `std::unordered_map` hashing and iteration order are not modelled; tags are a Dafny `map`.
- The `"Unknown"` fallback in the StepOutcome printers is not modelled. It is unreachable, because `StepOutcome` is a closed datatype with three values.
- Counts are unbounded `nat`s. `std::size_t` wrap-around cannot happen for lists that fit in memory.
- `PolicyCount`, `RuleCount` and `ComplianceReport.Compliant` are single expressions with no contract of their own. Their properties are stated by `RegisterPolicy`, `AddRule`, `DefaultPolicyEngine`, `DefaultComplianceChecker` and `CompliantIffAllPass`.
- The compliance scenarios name each expected violation by its rule, as `ViolationText(rule)`, rather than as a spelled-out string literal.
- The substring checks of the compliance JSON test are covered by `ReportCompliantFlag`, not by a scenario lemma of their own.
- A C++ `std::string` is modelled as a sequence of `char`, one per byte. The five escaped characters are ASCII, so escaping per byte and escaping per character agree. `EscapedLength` and `ControlCharacterPassesThrough` count in those units.
- The computing definitions listed under "Definitions" have no contract of their own. Their properties are stated by the members named there.
