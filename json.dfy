/**
 * The JSON-style projector: a character escaper and fixed-field-order
 * serialisers for a decision, a trace step, a full evaluation result and a
 * compliance report. The escaper handles only five characters; the other
 * control characters below 0x20 pass through, so the output is not fully
 * RFC 8259 conformant (section 7 of RFC 8259 asks for them to be escaped).
 */
module Json {
  import opened Types
  import opened Policies
  import opened Compliance

  // ---------------------------------------------------------------------
  // Escaping

  /** The five characters the escaper rewrites. */
  predicate IsEscaped(c: char)
  {
    c == '"' || c == '\\' || c == '\n' || c == '\r' || c == '\t'
  }

  /** The text written for one input character. */
  function EscapeChar(c: char): string
  {
    if c == '"' then "\\\""
    else if c == '\\' then "\\\\"
    else if c == '\n' then "\\n"
    else if c == '\r' then "\\r"
    else if c == '\t' then "\\t"
    else [c]
  }

  /** The escaped form of a string, character by character. */
  function Escaped(s: string): string
  {
    if |s| == 0 then "" else EscapeChar(s[0]) + Escaped(s[1..])
  }

  /** Escapes a string by appending the text for each character in turn. */
  method Escape(s: string) returns (result: string)
    ensures result == Escaped(s)
  {
    result := "";
    var i := 0;
    while i < |s|
      invariant 0 <= i <= |s|
      invariant result == Escaped(s[..i])
    {
      var c := s[i];
      if c == '"' {
        result := result + "\\\"";
      } else if c == '\\' {
        result := result + "\\\\";
      } else if c == '\n' {
        result := result + "\\n";
      } else if c == '\r' {
        result := result + "\\r";
      } else if c == '\t' {
        result := result + "\\t";
      } else {
        result := result + [c];
      }
      assert s[..i + 1] == s[..i] + [c];
      EscapedAppend(s[..i], [c]);
      i := i + 1;
    }
    assert s[..i] == s;
  }

  /** Escaping works piecewise: the escape of a concatenation is the concatenation of the escapes. */
  lemma {:induction false} EscapedAppend(a: string, b: string)
    ensures Escaped(a + b) == Escaped(a) + Escaped(b)
  {
    if |a| == 0 {
      assert a + b == b;
    } else {
      assert (a + b)[1..] == a[1..] + b;
      EscapedAppend(a[1..], b);
    }
  }

  /** The number of characters the escaper rewrites. */
  function EscapedCount(s: string): nat
  {
    if |s| == 0 then 0 else (if IsEscaped(s[0]) then 1 else 0) + EscapedCount(s[1..])
  }

  /**
   * Each rewritten character grows by exactly one, so the escape is never
   * shorter than its input and has the same length exactly when the input
   * holds none of the five characters.
   */
  lemma {:induction false} EscapedLength(s: string)
    ensures |Escaped(s)| == |s| + EscapedCount(s)
    ensures |Escaped(s)| == |s| <==> forall i :: 0 <= i < |s| ==> !IsEscaped(s[i])
  {
    if |s| > 0 {
      EscapedLength(s[1..]);
      if forall i :: 0 <= i < |s[1..]| ==> !IsEscaped(s[1..][i]) {
        forall i | 0 <= i < |s| ensures !IsEscaped(s[i]) || IsEscaped(s[0]) {
          if i > 0 {
            assert s[i] == s[1..][i - 1];
          }
        }
      }
    }
  }

  /** The escaped text never holds a raw newline, carriage return or tab. */
  lemma {:induction false} NoRawLineBreaks(s: string)
    ensures forall i :: 0 <= i < |Escaped(s)| ==> Escaped(s)[i] != '\n' && Escaped(s)[i] != '\r' && Escaped(s)[i] != '\t'
  {
    if |s| > 0 {
      NoRawLineBreaks(s[1..]);
      var head := EscapeChar(s[0]);
      forall i | 0 <= i < |Escaped(s)|
        ensures Escaped(s)[i] != '\n' && Escaped(s)[i] != '\r' && Escaped(s)[i] != '\t'
      {
        if i >= |head| {
          assert Escaped(s)[i] == Escaped(s[1..])[i - |head|];
        }
      }
    }
  }

  /** Any other control character is copied as it is, which section 7 of RFC 8259 does not allow. */
  lemma ControlCharacterPassesThrough(c: char)
    requires c < ' ' && c != '\n' && c != '\r' && c != '\t'
    ensures Escaped([c]) == [c]
  {
  }

  // ---------------------------------------------------------------------
  // Reading an escaped string back

  /** The character an escape sequence `\x` stands for, for the five sequences the escaper writes. */
  function Unescape(x: char): Option<char>
  {
    if x == '"' then Some('"')
    else if x == '\\' then Some('\\')
    else if x == 'n' then Some('\n')
    else if x == 'r' then Some('\r')
    else if x == 't' then Some('\t')
    else None
  }

  /**
   * Reads the body of a quoted string up to its closing quote, undoing the
   * five escape sequences: the text read and what follows the quote.
   */
  function ReadString(t: string): Option<(string, string)>
  {
    if |t| == 0 then None
    else if t[0] == '"' then Some(("", t[1..]))
    else if t[0] == '\\' then
      if |t| < 2 then None
      else match Unescape(t[1])
        case None => None
        case Some(c) =>
          match ReadString(t[2..])
          case None => None
          case Some(p) => Some(([c] + p.0, p.1))
    else
      match ReadString(t[1..])
      case None => None
      case Some(p) => Some(([t[0]] + p.0, p.1))
  }

  /**
   * Escaping is lossless and self-delimiting: reading back an escaped
   * string followed by a closing quote yields the original string and
   * exactly what followed.
   */
  lemma {:induction false} ReadEscaped(s: string, rest: string)
    ensures ReadString(Escaped(s) + "\"" + rest) == Some((s, rest))
  {
    var t := Escaped(s) + "\"" + rest;
    if |s| == 0 {
      assert t == "\"" + rest;
      assert t[1..] == rest;
    } else {
      var tail := Escaped(s[1..]) + "\"" + rest;
      ReadEscaped(s[1..], rest);
      assert t == EscapeChar(s[0]) + tail;
      if IsEscaped(s[0]) {
        assert t[0] == '\\' && t[2..] == tail;
      } else {
        assert t[0] == s[0] && t[1..] == tail;
      }
      assert [s[0]] + s[1..] == s;
    }
  }

  /** Escaping is injective. */
  lemma EscapedInjective(a: string, b: string)
    requires Escaped(a) == Escaped(b)
    ensures a == b
  {
    ReadEscaped(a, "");
    ReadEscaped(b, "");
  }

  /** A string in quotes. */
  function Quoted(s: string): string
  {
    "\"" + Escaped(s) + "\""
  }

  /** A quoted string is a prefix code: it determines both the string and where it ends. */
  lemma QuotedPrefixFree(a: string, b: string, x: string, y: string)
    requires Quoted(a) + x == Quoted(b) + y
    ensures a == b && x == y
  {
    var ta, tb := Escaped(a) + "\"" + x, Escaped(b) + "\"" + y;
    assert Quoted(a) + x == "\"" + ta;
    assert Quoted(b) + y == "\"" + tb;
    assert ta == (Quoted(a) + x)[1..];
    ReadEscaped(a, x);
    ReadEscaped(b, y);
  }

  /** Two texts that start with the same literal and then a quoted string agree on that string and on what follows. */
  lemma QuotedAfter(p: string, a: string, b: string, x: string, y: string)
    requires p + Quoted(a) + x == p + Quoted(b) + y
    ensures a == b && x == y
  {
    assert Quoted(a) + x == (p + Quoted(a) + x)[|p|..];
    assert Quoted(b) + y == (p + Quoted(b) + y)[|p|..];
    QuotedPrefixFree(a, b, x, y);
  }

  // ---------------------------------------------------------------------
  // Objects: fixed labels interleaved with quoted values

  /**
   * `labels[0] + Quoted(values[0]) + labels[1] + ... + labels[n]`: an object
   * whose string fields are written in a fixed order, each after its label.
   */
  function Interleave(labels: seq<string>, values: seq<string>): string
    requires |labels| == |values| + 1
  {
    if |values| == 0 then labels[0]
    else labels[0] + Quoted(values[0]) + Interleave(labels[1..], values[1..])
  }

  /** With the same labels, the text determines the values and where it ends. */
  lemma {:induction false} InterleaveInjective(labels: seq<string>, va: seq<string>, vb: seq<string>, x: string, y: string)
    requires |labels| == |va| + 1 && |labels| == |vb| + 1
    requires Interleave(labels, va) + x == Interleave(labels, vb) + y
    ensures va == vb && x == y
  {
    if |va| == 0 {
      assert x == (labels[0] + x)[|labels[0]|..];
      assert y == (labels[0] + y)[|labels[0]|..];
    } else {
      var ra, rb := Interleave(labels[1..], va[1..]), Interleave(labels[1..], vb[1..]);
      assert Interleave(labels, va) + x == labels[0] + Quoted(va[0]) + (ra + x);
      assert Interleave(labels, vb) + y == labels[0] + Quoted(vb[0]) + (rb + y);
      QuotedAfter(labels[0], va[0], vb[0], ra + x, rb + y);
      InterleaveInjective(labels[1..], va[1..], vb[1..], x, y);
      assert va == [va[0]] + va[1..];
      assert vb == [vb[0]] + vb[1..];
    }
  }

  // ---------------------------------------------------------------------
  // Lists: one item per line, a comma between items and none after the last

  /** The items of a list, each on its own line, separated by commas. */
  function JoinItems(items: seq<string>, indent: string): string
  {
    if |items| == 0 then ""
    else if |items| == 1 then indent + items[0]
    else indent + items[0] + "," + JoinItems(items[1..], indent)
  }

  /** The first `k` items as the serialisers write them, each followed by a comma unless it is the last item. */
  function Emitted(items: seq<string>, indent: string, k: nat): string
    requires k <= |items|
  {
    if k == 0 then ""
    else Emitted(items, indent, k - 1) + indent + items[k - 1] + (if k < |items| then "," else "")
  }

  /** Writing the items in turn, with a comma after every item but the last, yields the joined list. */
  lemma {:induction false} EmittedJoin(items: seq<string>, indent: string, k: nat)
    requires k <= |items|
    ensures JoinItems(items, indent) ==
      Emitted(items, indent, k) + (if k < |items| then JoinItems(items[k..], indent) else "")
  {
    if k > 0 {
      EmittedJoin(items, indent, k - 1);
      var rest := items[k - 1..];
      assert rest[0] == items[k - 1];
      if k < |items| {
        assert rest[1..] == items[k..];
      }
    } else {
      assert items[0..] == items;
    }
  }

  /** The list ends with its last item and no comma after it; every earlier item is followed by a comma. */
  lemma {:induction false} JoinLast(items: seq<string>, indent: string)
    requires |items| > 1
    ensures JoinItems(items, indent) == JoinItems(items[..|items| - 1], indent) + "," + indent + items[|items| - 1]
  {
    var n := |items|;
    if n > 2 {
      JoinLast(items[1..], indent);
      assert items[..n - 1][1..] == items[1..][..n - 2];
    }
  }

  // ---------------------------------------------------------------------
  // The serialisers

  const DecisionLabels := ["{\n  \"effect\": ", ",\n  \"policy_name\": ", ",\n  \"reason\": ", "\n}"]

  /** A decision, fields in the order effect, policy name, reason. */
  function DecisionJson(d: PolicyDecision): string
  {
    Interleave(DecisionLabels, [EffectName(d.effect), d.policyName, d.reason])
  }

  const StepLabels := ["{ \"policy\": ", ", \"outcome\": ", ", \"reason\": ", " }"]

  /** A trace step, fields in the order policy, outcome, reason. */
  function StepJson(step: PolicyStep): string
  {
    Interleave(StepLabels, [step.policyName, OutcomeName(step.outcome), step.reason])
  }

  /** The serialised decision determines the decision. */
  lemma DecisionJsonInjective(a: PolicyDecision, b: PolicyDecision)
    requires DecisionJson(a) == DecisionJson(b)
    ensures a == b
  {
    var va, vb := [EffectName(a.effect), a.policyName, a.reason], [EffectName(b.effect), b.policyName, b.reason];
    assert Interleave(DecisionLabels, va) + "" == Interleave(DecisionLabels, vb) + "";
    InterleaveInjective(DecisionLabels, va, vb, "", "");
    assert va[0] == vb[0] && va[1] == vb[1] && va[2] == vb[2];
    EffectNameInjective(a.effect, b.effect);
  }

  /** The serialised step determines the step. */
  lemma StepJsonInjective(a: PolicyStep, b: PolicyStep)
    requires StepJson(a) == StepJson(b)
    ensures a == b
  {
    var va, vb := [a.policyName, OutcomeName(a.outcome), a.reason], [b.policyName, OutcomeName(b.outcome), b.reason];
    assert Interleave(StepLabels, va) + "" == Interleave(StepLabels, vb) + "";
    InterleaveInjective(StepLabels, va, vb, "", "");
    assert va[0] == vb[0] && va[1] == vb[1] && va[2] == vb[2];
    OutcomeNames(a.outcome, b.outcome, Effect.Allow);
  }

  function StepJsons(steps: seq<PolicyStep>): seq<string>
  {
    seq(|steps|, i requires 0 <= i < |steps| => StepJson(steps[i]))
  }

  const ResultLabels := [
    "{\n  \"decision\": {\n    \"effect\": ", ",\n    \"policy_name\": ", ",\n    \"reason\": ",
    "\n  },\n  \"trace\": {\n    \"principal\": ", ",\n    \"resource\": ", ",\n    \"action\": ",
    ",\n    \"environment\": ", ",\n    \"steps\": ["]

  /**
   * The string fields of a result, in the order written: the three decision
   * fields, then exactly four scalar fields of the request. The rest of the
   * request (role, department, resource type, classification, tags, MFA
   * flag) is not written.
   */
  function ResultFields(r: EvaluationResult): seq<string>
  {
    var d, ctx := r.decision, r.trace.context;
    [EffectName(d.effect), d.policyName, d.reason,
     ctx.principal.id, ctx.resource.id, ctx.action.verb, ctx.environment]
  }

  const StepIndent := "\n      "
  const ResultTail := "\n    ]\n  }\n}"

  /** A full evaluation result: the decision, the four request fields and one step object per trace step, in order. */
  function ResultJson(r: EvaluationResult): string
  {
    Interleave(ResultLabels, ResultFields(r)) + JoinItems(StepJsons(r.trace.steps), StepIndent) + ResultTail
  }

  /** Serialises a result, writing the steps one at a time. */
  method ResultToJson(r: EvaluationResult) returns (json: string)
    ensures json == ResultJson(r)
  {
    var steps := r.trace.steps;
    ghost var items := StepJsons(steps);
    var body := "";
    var i := 0;
    while i < |steps|
      invariant 0 <= i <= |steps|
      invariant body == Emitted(items, StepIndent, i)
    {
      body := body + StepIndent + StepJson(steps[i]);
      if i + 1 < |steps| {
        body := body + ",";
      }
      i := i + 1;
    }
    EmittedJoin(items, StepIndent, |steps|);
    json := Interleave(ResultLabels, ResultFields(r)) + body + ResultTail;
  }

  /** The steps array of a result, from the first item to the end of the text. */
  function StepsText(steps: seq<PolicyStep>): string
  {
    JoinItems(StepJsons(steps), StepIndent) + ResultTail
  }

  /** What follows the first step of a non-empty steps array: the tail, or a comma and the remaining steps. */
  function StepsRest(steps: seq<PolicyStep>): string
    requires |steps| > 0
  {
    if |steps| == 1 then ResultTail else "," + StepsText(steps[1..])
  }

  /** A non-empty steps array is the indent, the first step's JSON, then the rest. */
  lemma StepsTextCons(steps: seq<PolicyStep>)
    requires |steps| > 0
    ensures StepsText(steps) == StepIndent + (StepJson(steps[0]) + StepsRest(steps))
  {
    var items := StepJsons(steps);
    assert items[0] == StepJson(steps[0]);
    if |steps| > 1 {
      assert items[1..] == StepJsons(steps[1..]);
    }
  }

  /** An empty steps array and a non-empty one differ at their sixth character: a bracket against a space. */
  lemma StepsTextEmpty(steps: seq<PolicyStep>)
    requires |steps| > 0
    ensures StepsText(steps) != StepsText([])
  {
    StepsTextCons(steps);
    var rest := StepJson(steps[0]) + StepsRest(steps);
    assert StepsText(steps)[5] == (StepIndent + rest)[5] == ' ';
    assert StepsText([]) == ResultTail;
    assert ResultTail[5] == ']';
  }

  /** After the same indent, equal texts have equal first steps and equal remainders. */
  lemma StepHeadInjective(a: PolicyStep, b: PolicyStep, x: string, y: string)
    requires StepIndent + (StepJson(a) + x) == StepIndent + (StepJson(b) + y)
    ensures a == b && x == y
  {
    var va, vb := [a.policyName, OutcomeName(a.outcome), a.reason], [b.policyName, OutcomeName(b.outcome), b.reason];
    assert StepJson(a) + x == (StepIndent + (StepJson(a) + x))[|StepIndent|..];
    assert StepJson(b) + y == (StepIndent + (StepJson(b) + y))[|StepIndent|..];
    InterleaveInjective(StepLabels, va, vb, x, y);
    StepJsonInjective(a, b);
  }

  /** Equal rests come from arrays that both end there, or both go on with equal remaining text. */
  lemma StepsRestInjective(sa: seq<PolicyStep>, sb: seq<PolicyStep>)
    requires |sa| > 0 && |sb| > 0 && StepsRest(sa) == StepsRest(sb)
    ensures |sa| == 1 <==> |sb| == 1
    ensures |sa| > 1 ==> StepsText(sa[1..]) == StepsText(sb[1..])
  {
    assert ResultTail[0] == '\n';
    if |sa| > 1 {
      assert StepsRest(sa)[0] == ',';
      assert StepsText(sa[1..]) == StepsRest(sa)[1..];
    }
    if |sb| > 1 {
      assert StepsRest(sb)[0] == ',';
      assert StepsText(sb[1..]) == StepsRest(sb)[1..];
    }
  }

  /**
   * The steps array, closed by the result's tail, determines the steps: the
   * item indent and the closing bracket differ, and a comma is never where
   * the tail starts.
   */
  lemma {:induction false} StepListInjective(sa: seq<PolicyStep>, sb: seq<PolicyStep>)
    requires StepsText(sa) == StepsText(sb)
    ensures sa == sb
    decreases |sa|
  {
    if |sa| == 0 && |sb| > 0 {
      StepsTextEmpty(sb);
    } else if |sa| > 0 && |sb| == 0 {
      StepsTextEmpty(sa);
    } else if |sa| > 0 {
      StepsTextCons(sa);
      StepsTextCons(sb);
      StepHeadInjective(sa[0], sb[0], StepsRest(sa), StepsRest(sb));
      StepsRestInjective(sa, sb);
      if |sa| > 1 {
        StepListInjective(sa[1..], sb[1..]);
      }
      assert sa == [sa[0]] + sa[1..] && sb == [sb[0]] + sb[1..];
    }
  }

  /**
   * The serialised result determines the decision, the four request fields
   * and every trace step, and two results that agree on those are
   * serialised alike.
   */
  lemma ResultJsonFields(a: EvaluationResult, b: EvaluationResult)
    ensures ResultJson(a) == ResultJson(b) ==>
      a.decision == b.decision &&
      a.trace.context.principal.id == b.trace.context.principal.id &&
      a.trace.context.resource.id == b.trace.context.resource.id &&
      a.trace.context.action == b.trace.context.action &&
      a.trace.context.environment == b.trace.context.environment &&
      a.trace.steps == b.trace.steps
    ensures ResultFields(a) == ResultFields(b) && a.trace.steps == b.trace.steps ==> ResultJson(a) == ResultJson(b)
  {
    if ResultJson(a) == ResultJson(b) {
      var va, vb := ResultFields(a), ResultFields(b);
      var xa := JoinItems(StepJsons(a.trace.steps), StepIndent) + ResultTail;
      var xb := JoinItems(StepJsons(b.trace.steps), StepIndent) + ResultTail;
      assert ResultJson(a) == Interleave(ResultLabels, va) + xa;
      assert ResultJson(b) == Interleave(ResultLabels, vb) + xb;
      InterleaveInjective(ResultLabels, va, vb, xa, xb);
      assert va[0] == vb[0] && va[1] == vb[1] && va[2] == vb[2] && va[5] == vb[5];
      EffectNameInjective(a.decision.effect, b.decision.effect);
      assert xa == StepsText(a.trace.steps) && xb == StepsText(b.trace.steps);
      StepListInjective(a.trace.steps, b.trace.steps);
    }
  }

  // ---------------------------------------------------------------------
  // Compliance reports

  function QuotedAll(items: seq<string>): seq<string>
  {
    seq(|items|, i requires 0 <= i < |items| => Quoted(items[i]))
  }

  const ReportLabels := ["{\n  \"resource_id\": ", ",\n  \"compliant\": "]
  const ViolationsLabel := ",\n  \"violations\": ["
  const ViolationIndent := "\n    "
  const ReportTail := "\n  ]\n}"

  /** The compliant flag, written unquoted. */
  function Flag(b: bool): string
  {
    if b then "true" else "false"
  }

  /** A compliance report: its resource id, the compliant flag and one quoted entry per violation, in order. */
  function ReportJson(rep: ComplianceReport): string
  {
    Interleave(ReportLabels, [rep.resourceId]) + Flag(rep.Compliant()) + ViolationsLabel +
    JoinItems(QuotedAll(rep.violations), ViolationIndent) + ReportTail
  }

  /** Serialises a report, writing the violations one at a time. */
  method ReportToJson(rep: ComplianceReport) returns (json: string)
    ensures json == ReportJson(rep)
  {
    var violations := rep.violations;
    ghost var items := QuotedAll(violations);
    var body := "";
    var i := 0;
    while i < |violations|
      invariant 0 <= i <= |violations|
      invariant body == Emitted(items, ViolationIndent, i)
    {
      body := body + ViolationIndent + Quoted(violations[i]);
      if i + 1 < |violations| {
        body := body + ",";
      }
      i := i + 1;
    }
    EmittedJoin(items, ViolationIndent, |violations|);
    json := Interleave(ReportLabels, [rep.resourceId]) + Flag(rep.Compliant()) + ViolationsLabel + body + ReportTail;
  }

  /**
   * The report writes its quoted resource id and then `true` as the
   * compliant flag exactly when it has no violations.
   */
  lemma ReportCompliantFlag(rep: ComplianceReport)
    ensures var lead := Interleave(ReportLabels, [rep.resourceId]);
      && |ReportJson(rep)| >= |lead| + 4
      && ReportJson(rep)[..|lead|] == lead
      && (ReportJson(rep)[|lead|..|lead| + 4] == "true" <==> |rep.violations| == 0)
  {
    var lead := Interleave(ReportLabels, [rep.resourceId]);
    var flag := Flag(rep.Compliant());
    var rest := ViolationsLabel + JoinItems(QuotedAll(rep.violations), ViolationIndent) + ReportTail;
    assert ReportJson(rep) == lead + (flag + rest);
    assert ReportJson(rep)[|lead|..|lead| + 4] == flag[..4];
    assert "false"[..4][0] != "true"[0];
  }

  /** The serialised report of a checked resource says compliant exactly when every rule passes. */
  lemma CheckedReportFlag(rules: seq<ComplianceRule>, r: Resource)
    ensures var rep := ComplianceReport(r.id, Violations(rules, r));
      var lead := Interleave(ReportLabels, [r.id]);
      ReportJson(rep)[|lead|..|lead| + 4] == "true" <==> forall i :: 0 <= i < |rules| ==> rules[i].check(r)
  {
    ReportCompliantFlag(ComplianceReport(r.id, Violations(rules, r)));
    CompliantIffAllPass(rules, r);
  }
}
