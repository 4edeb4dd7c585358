/**
 Compliance rules, their evaluation results and the registry that maps a
 framework to its rules (backend/app/domain/compliance/engine/compliance_engine.py).
 */
module RuleModel {

  datatype Severity = Critical | High | Medium | Low | Informational

  datatype Verdict = Pass | Fail | Warn | Error | Skipped | Exception

  /** `prerequisites` is the rule's `requires_rules`. */
  datatype Rule = Rule(id: string, framework: string, control: string, severity: Severity, prerequisites: seq<string>)

  /** Weights and scores are doubled, so that every one of them is an integer. */
  function Weight(severity: Severity): nat {
    match severity
    case Critical => 20
    case High => 15
    case Medium => 10
    case Low => 5
    case Informational => 1
  }

  datatype RuleResult = RuleResult(
    ruleId: string, verdict: Verdict, severity: Severity, framework: string, control: string, score: nat)
  {
    predicate Passed() { verdict in {Pass, Exception} }

    predicate Failed() { verdict in {Fail, Error} }
  }

  /** What awaiting `rule.evaluate(context)` under the time limit can lead to. */
  datatype Evaluation = Returned(result: RuleResult) | TimedOut | Raised

  /** The rules' own checks, for one device: what evaluating a rule in a framework's context gives. */
  type Evaluator = (string, Rule) -> Evaluation

  function MakeResult(rule: Rule, verdict: Verdict): RuleResult {
    RuleResult(rule.id, verdict, rule.severity, rule.framework, rule.control,
               if verdict in {Pass, Exception} then Weight(rule.severity) else 0)
  }

  /** A rule that times out or raises yields an ERROR result of its own. */
  function EvaluateRule(evaluate: Evaluator, framework: string, rule: Rule): RuleResult {
    match evaluate(framework, rule)
    case Returned(result) => result
    case TimedOut => MakeResult(rule, Error)
    case Raised => MakeResult(rule, Error)
  }

  /** The ids of the rules in a list. */
  ghost function Ids(rules: seq<Rule>): set<string> {
    set i | 0 <= i < |rules| :: rules[i].id
  }

  /** No two different rules in the list share an id. */
  ghost predicate Consistent(rules: seq<Rule>) {
    forall i, j | 0 <= i < |rules| && 0 <= j < |rules| && rules[i].id == rules[j].id :: rules[i] == rules[j]
  }

  /** The rule is the last one of its id in the list. */
  ghost predicate IsLatest(rules: seq<Rule>, rule: Rule) {
    exists i :: 0 <= i < |rules| && rules[i] == rule && forall j | i < j < |rules| :: rules[j].id != rule.id
  }

  /** The ids of a framework's rules, one for each rule in the list, in the same order. */
  ghost function IdsIn(rules: seq<Rule>, framework: string): seq<string> {
    if rules == [] then [] else
      var n := |rules| - 1;
      var before := IdsIn(rules[..n], framework);
      if rules[n].framework == framework then before + [rules[n].id] else before
  }

  lemma LatestGrows(rules: seq<Rule>, next: Rule)
    ensures Ids(rules + [next]) == Ids(rules) + {next.id} && IsLatest(rules + [next], next)
    ensures forall rule | IsLatest(rules, rule) && rule.id != next.id :: IsLatest(rules + [next], rule)
    ensures forall f :: IdsIn(rules + [next], f) ==
                        if next.framework == f then IdsIn(rules, f) + [next.id] else IdsIn(rules, f)
  {
    var all := rules + [next];
    assert all[..|rules|] == rules && all[|rules|] == next;
    assert forall i | 0 <= i < |rules| :: all[i] == rules[i];
  }

  class RuleRegistry {
    var rules: map<string, Rule>
    var frameworkIndex: map<string, seq<string>>

    ghost predicate Valid()
      reads this
    {
      && (forall id | id in rules :: rules[id].id == id)
      && (forall f | f in frameworkIndex :: forall id | id in frameworkIndex[f] :: id in rules)
    }

    constructor (builtIns: seq<Rule>)
      ensures Valid()
      ensures rules.Keys == Ids(builtIns) && forall id | id in rules :: IsLatest(builtIns, rules[id])
      ensures forall f :: Indexed(f) == IdsIn(builtIns, f)
    {
      rules, frameworkIndex := map[], map[];
      new;
      for k := 0 to |builtIns|
        invariant Valid()
        invariant rules.Keys == Ids(builtIns[..k]) && forall id | id in rules :: IsLatest(builtIns[..k], rules[id])
        invariant forall f :: Indexed(f) == IdsIn(builtIns[..k], f)
      {
        assert builtIns[..k + 1] == builtIns[..k] + [builtIns[k]];
        LatestGrows(builtIns[..k], builtIns[k]);
        Register(builtIns[k]);
      }
      assert builtIns[..|builtIns|] == builtIns;
    }

    /** The ids registered for a framework. */
    ghost function Indexed(framework: string): seq<string>
      reads this
    {
      if framework in frameworkIndex then frameworkIndex[framework] else []
    }

    /** A later rule of the same id replaces the earlier one everywhere; its id is indexed once more. */
    method Register(rule: Rule)
      requires Valid()
      modifies this
      ensures Valid()
      ensures rules == old(rules)[rule.id := rule]
      ensures frameworkIndex == old(frameworkIndex)[rule.framework :=
        (if rule.framework in old(frameworkIndex) then old(frameworkIndex)[rule.framework] else []) + [rule.id]]
    {
      rules := rules[rule.id := rule];
      var ids := if rule.framework in frameworkIndex then frameworkIndex[rule.framework] else [];
      frameworkIndex := frameworkIndex[rule.framework := ids + [rule.id]];
    }

    /** The registered rules of a framework, in registration order, as `get_rules_for_framework` lists them. */
    function RulesFor(framework: string): (result: seq<Rule>)
      requires Valid()
      reads this
      ensures Consistent(result)
      ensures |result| == |if framework in frameworkIndex then frameworkIndex[framework] else []|
      ensures forall i | 0 <= i < |result| :: result[i].id == frameworkIndex[framework][i]
                                             && result[i] == rules[result[i].id]
    {
      var ids := if framework in frameworkIndex then frameworkIndex[framework] else [];
      seq(|ids|, i requires 0 <= i < |ids| reads this requires ids[i] in rules => rules[ids[i]])
    }
  }
}
