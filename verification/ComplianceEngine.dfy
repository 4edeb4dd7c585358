/**
 `ComplianceOrchestrator.evaluate_device`: sort the rules of each framework, run
 them along their chains, and aggregate one report.
 */
module ComplianceEngine {
  import opened Wrappers
  import opened RuleModel
  import opened RuleOrder
  import opened RuleChain
  import opened ComplianceReport
  import opened Sums
  import ReportLaws

  /** The results of a framework's rules for one device. */
  function CheckOf(evaluate: Evaluator, framework: string): Check {
    (rule: Rule) => EvaluateRule(evaluate, framework, rule)
  }

  /** The results come from running the rules in an order the sort may give. */
  ghost predicate ChainResults(rules: seq<Rule>, check: Check, results: seq<RuleResult>) {
    exists order :: SortedFrom(rules, order) && results == Outcomes(order, check)
  }

  ghost function Flatten<T>(parts: seq<seq<T>>): seq<T> {
    if parts == [] then [] else Flatten(parts[..|parts| - 1]) + parts[|parts| - 1]
  }

  /** One part per requested framework, in the order requested. */
  ghost predicate DeviceResults(registry: RuleRegistry, evaluate: Evaluator, frameworks: seq<string>,
                                parts: seq<seq<RuleResult>>)
    requires registry.Valid()
    reads registry
  {
    && |parts| == |frameworks|
    && forall k | 0 <= k < |frameworks| ::
      ChainResults(registry.RulesFor(frameworks[k]), CheckOf(evaluate, frameworks[k]), parts[k])
  }

  /* What becomes of each rule, in terms of its own check */

  ghost predicate AllIn(ids: seq<string>, s: set<string>) {
    forall d | d in ids :: d in s
  }

  /** The rule's own check returns, in time, a result that passes. */
  ghost predicate ReturnsPass(evaluate: Evaluator, framework: string, rule: Rule) {
    && evaluate(framework, rule).Returned?
    && evaluate(framework, rule).result.verdict in {Verdict.Pass, Verdict.Exception}
  }

  /** The least set with the ids of the rules whose prerequisites it has and whose checks return a pass. */
  ghost predicate PassingIds(rules: seq<Rule>, evaluate: Evaluator, framework: string, s: set<string>) {
    && (forall id | id in s ::
          exists r :: r in rules && r.id == id && AllIn(r.prerequisites, s) && ReturnsPass(evaluate, framework, r))
    && (forall r | r in rules && AllIn(r.prerequisites, s) && ReturnsPass(evaluate, framework, r) :: r.id in s)
    && (forall t | TakesIn(rules, evaluate, framework, t) :: s <= t)
  }

  ghost predicate TakesIn(rules: seq<Rule>, evaluate: Evaluator, framework: string, t: set<string>) {
    forall r | r in rules && AllIn(r.prerequisites, t) && ReturnsPass(evaluate, framework, r) :: r.id in t
  }

  /** A result of the rule's own making, which earns nothing. */
  ghost predicate OwnResult(rule: Rule, verdict: Verdict, x: RuleResult) {
    && x.verdict == verdict && x.score == 0
    && x.ruleId == rule.id && x.severity == rule.severity && x.framework == rule.framework && x.control == rule.control
  }

  /** A rule is skipped without its prerequisites; or has what its check returns, or an error if it does not return. */
  ghost predicate VerdictOn(evaluate: Evaluator, framework: string, rule: Rule, s: set<string>, x: RuleResult) {
    if !AllIn(rule.prerequisites, s) then OwnResult(rule, Verdict.Skipped, x)
    else if evaluate(framework, rule).Returned? then x == evaluate(framework, rule).result
    else OwnResult(rule, Verdict.Error, x)
  }

  /** The results of one framework: one for each distinct rule, in some order of the rules. */
  ghost predicate Verdicts(rules: seq<Rule>, evaluate: Evaluator, framework: string, results: seq<RuleResult>) {
    exists order, s :: VerdictsInOrder(rules, evaluate, framework, order, s, results)
  }

  ghost predicate VerdictsInOrder(rules: seq<Rule>, evaluate: Evaluator, framework: string,
                                  order: seq<Rule>, s: set<string>, results: seq<RuleResult>)
  {
    && SameRules(rules, order) && Distinct(order) && |results| == |order|
    && PassingIds(rules, evaluate, framework, s)
    && forall i | 0 <= i < |order| :: VerdictOn(evaluate, framework, order[i], s, results[i])
  }

  lemma PassingIsLeastFixpoint(rules: seq<Rule>, evaluate: Evaluator, framework: string, s: set<string>)
    requires IsLeastFixpoint(rules, CheckOf(evaluate, framework), s)
    ensures PassingIds(rules, evaluate, framework, s)
  {
    var check := CheckOf(evaluate, framework);
    assert forall r: Rule :: check(r).Passed() <==> ReturnsPass(evaluate, framework, r);
    forall id | id in s
      ensures exists r :: r in rules && r.id == id && AllIn(r.prerequisites, s) && ReturnsPass(evaluate, framework, r)
    {
      assert id in Consequences(rules, check, s);
      var r :| r in rules && Unlocked(r, s) && check(r).Passed() && r.id == id;
      assert AllIn(r.prerequisites, s);
    }
    forall r: Rule | r in rules && AllIn(r.prerequisites, s) && ReturnsPass(evaluate, framework, r)
      ensures r.id in s
    {
      assert Unlocked(r, s) && r.id in Consequences(rules, check, s);
    }
    forall t | TakesIn(rules, evaluate, framework, t)
      ensures s <= t
    {
      forall id | id in Consequences(rules, check, t)
        ensures id in t
      {
        var r :| r in rules && Unlocked(r, t) && check(r).Passed() && r.id == id;
        assert AllIn(r.prerequisites, t);
      }
      assert Closed(rules, check, t);
    }
  }

  /** Each rule of a framework is skipped, evaluated or in error just as its check and the passing rules say. */
  lemma ChainGivesVerdicts(rules: seq<Rule>, evaluate: Evaluator, framework: string, results: seq<RuleResult>)
    requires Consistent(rules) && ChainResults(rules, CheckOf(evaluate, framework), results)
    ensures Verdicts(rules, evaluate, framework, results)
  {
    var check := CheckOf(evaluate, framework);
    var order: seq<Rule> :| SortedFrom(rules, order) && results == Outcomes(order, check);
    var s := Passed(order, check);
    PassedIsLeastFixpoint(rules, order, check);
    VerdictsFollowFixpoint(rules, order, check, s);
    PassingIsLeastFixpoint(rules, evaluate, framework, s);
    SortedHasAll(rules, order);
    forall i | 0 <= i < |order|
      ensures VerdictOn(evaluate, framework, order[i], s, results[i])
    {
      assert results[i] == Outcome(order[i], s, check);
      assert Unlocked(order[i], s) <==> AllIn(order[i].prerequisites, s);
    }
    assert VerdictsInOrder(rules, evaluate, framework, order, s, results);
  }

  /** The verdicts of each requested framework, in the order requested. */
  ghost predicate DeviceVerdicts(registry: RuleRegistry, evaluate: Evaluator, frameworks: seq<string>,
                                 parts: seq<seq<RuleResult>>)
    requires registry.Valid()
    reads registry
  {
    && |parts| == |frameworks|
    && forall k | 0 <= k < |frameworks| :: Verdicts(registry.RulesFor(frameworks[k]), evaluate, frameworks[k], parts[k])
  }

  lemma ResultsAreVerdicts(registry: RuleRegistry, evaluate: Evaluator, frameworks: seq<string>,
                           parts: seq<seq<RuleResult>>)
    requires registry.Valid() && DeviceResults(registry, evaluate, frameworks, parts)
    ensures DeviceVerdicts(registry, evaluate, frameworks, parts)
  {
    forall k | 0 <= k < |frameworks|
      ensures Verdicts(registry.RulesFor(frameworks[k]), evaluate, frameworks[k], parts[k])
    {
      ChainGivesVerdicts(registry.RulesFor(frameworks[k]), evaluate, frameworks[k], parts[k]);
    }
  }

  datatype EvaluationError = NoFramework

  class ComplianceOrchestrator {
    const registry: RuleRegistry

    constructor (registry: RuleRegistry)
      ensures this.registry == registry
    {
      this.registry := registry;
    }

    /** The inner loop over one framework's sorted rules. */
    method RunChain(order: seq<Rule>, evaluate: Evaluator, framework: string) returns (results: seq<RuleResult>)
      ensures results == Outcomes(order, CheckOf(evaluate, framework))
    {
      var passed: set<string>;
      results, passed := [], {};
      for k := 0 to |order|
        invariant results == Outcomes(order[..k], CheckOf(evaluate, framework))
        invariant passed == Passed(order[..k], CheckOf(evaluate, framework))
      {
        var rule := order[k];
        assert order[..k + 1][..k] == order[..k];
        var result;
        if rule.prerequisites != [] && !Unlocked(rule, passed) {
          result := MakeResult(rule, Skipped);
        } else {
          result := EvaluateRule(evaluate, framework, rule);
        }
        if result.Passed() {
          passed := passed + {rule.id};
        }
        results := results + [result];
      }
      assert order[..|order|] == order;
    }

    /** Asking for no framework at all fails, after nothing has been evaluated. */
    method EvaluateDevice(evaluate: Evaluator, frameworks: seq<string>)
        returns (outcome: Result<Report, EvaluationError>)
      requires registry.Valid()
      ensures outcome.Err? <==> frameworks == []
      ensures outcome.Ok? ==> Reports(outcome.value, outcome.value.results)
      ensures outcome.Ok? ==>
        exists parts :: outcome.value.results == Flatten(parts)
                        && DeviceResults(registry, evaluate, frameworks, parts)
                        && DeviceVerdicts(registry, evaluate, frameworks, parts)
    {
      var all: seq<RuleResult> := [];
      ghost var parts: seq<seq<RuleResult>> := [];
      for k := 0 to |frameworks|
        invariant DeviceResults(registry, evaluate, frameworks[..k], parts) && all == Flatten(parts)
      {
        var rules := registry.RulesFor(frameworks[k]);
        var order := TopologicalSort(rules);
        var results := RunChain(order, evaluate, frameworks[k]);
        all := all + results;
        OneMorePart(registry, evaluate, frameworks, k, parts, order, results);
        parts := parts + [results];
      }
      assert frameworks[..|frameworks|] == frameworks;
      if frameworks == [] {
        return Err(NoFramework);
      }
      ResultsAreVerdicts(registry, evaluate, frameworks, parts);
      var report := AggregateReport(all);
      outcome := Ok(report);
    }
  }

  lemma OneMorePart(registry: RuleRegistry, evaluate: Evaluator, frameworks: seq<string>, k: nat,
                    parts: seq<seq<RuleResult>>, order: seq<Rule>, results: seq<RuleResult>)
    requires registry.Valid() && k < |frameworks| && DeviceResults(registry, evaluate, frameworks[..k], parts)
    requires SortedFrom(registry.RulesFor(frameworks[k]), order)
    requires results == Outcomes(order, CheckOf(evaluate, frameworks[k]))
    ensures DeviceResults(registry, evaluate, frameworks[..k + 1], parts + [results])
    ensures Flatten(parts + [results]) == Flatten(parts) + results
  {
    assert (parts + [results])[..k] == parts;
    assert ChainResults(registry.RulesFor(frameworks[k]), CheckOf(evaluate, frameworks[k]), results);
    forall i | 0 <= i < k + 1
      ensures ChainResults(registry.RulesFor(frameworks[..k + 1][i]), CheckOf(evaluate, frameworks[..k + 1][i]),
                           (parts + [results])[i])
    {
      if i < k {
        assert frameworks[..k][i] == frameworks[..k + 1][i];
      }
    }
  }

  lemma {:induction false} DistinctCount(order: seq<Rule>)
    requires Distinct(order)
    ensures |Ids(order)| == |order|
  {
    if order == [] {
      assert Ids(order) == {};
    } else {
      var n := |order| - 1;
      DistinctCount(order[..n]);
      assert Ids(order) == Ids(order[..n]) + {order[n].id};
    }
  }

  /**
   Each distinct rule of a framework yields exactly one result: its own check if its
   prerequisites are in the least fixpoint, and a skip otherwise.
   */
  lemma OneVerdictPerRule(rules: seq<Rule>, check: Check, results: seq<RuleResult>, s: set<string>)
    requires Consistent(rules) && ChainResults(rules, check, results) && IsLeastFixpoint(rules, check, s)
    ensures |results| == |Ids(rules)|
    ensures forall r | r in rules :: Outcome(r, s, check) in results
    ensures forall x | x in results :: exists r :: r in rules && x == Outcome(r, s, check)
  {
    var order :| SortedFrom(rules, order) && results == Outcomes(order, check);
    VerdictsFollowFixpoint(rules, order, check, s);
    DistinctCount(order);
    SortedHasAll(rules, order);
    forall r | r in rules
      ensures Outcome(r, s, check) in results
    {
      var i :| 0 <= i < |order| && order[i] == r;
      assert results[i] == Outcome(r, s, check);
    }
    forall x | x in results
      ensures exists r :: r in rules && x == Outcome(r, s, check)
    {
      var i :| 0 <= i < |results| && results[i] == x;
      assert order[i] in rules;
    }
  }

  /* Registration order does not matter */

  lemma {:induction false} DistinctPermutation(a: seq<Rule>, b: seq<Rule>)
    requires Distinct(a) && Distinct(b) && SameRules(a, b)
    ensures multiset(a) == multiset(b)
  {
    forall r: Rule
      ensures multiset(a)[r] == multiset(b)[r]
    {
      AtMostOnce(a, r);
      AtMostOnce(b, r);
    }
  }

  lemma {:induction false} AtMostOnce(a: seq<Rule>, r: Rule)
    requires Distinct(a)
    ensures multiset(a)[r] == if r in a then 1 else 0
  {
    if a == [] {
    } else {
      var n := |a| - 1;
      AtMostOnce(a[..n], r);
      assert a == a[..n] + [a[n]];
    }
  }

  /** Two orders of registration give one framework the same results, up to their order. */
  lemma ChainIgnoresRegistrationOrder(a: seq<Rule>, b: seq<Rule>, check: Check, x: seq<RuleResult>, y: seq<RuleResult>)
    requires Consistent(a) && Consistent(b) && SameRules(a, b)
    requires ChainResults(a, check, x) && ChainResults(b, check, y)
    ensures multiset(x) == multiset(y)
  {
    var o :| SortedFrom(a, o) && x == Outcomes(o, check);
    var q :| SortedFrom(b, q) && y == Outcomes(q, check);
    PassedIsLeastFixpoint(a, o, check);
    PassedIsLeastFixpoint(b, q, check);
    var s := Passed(o, check);
    OneLeastFixpoint(a, b, check, s, Passed(q, check));
    VerdictsFollowFixpoint(a, o, check, s);
    VerdictsFollowFixpoint(b, q, check, s);
    SortedHasAll(a, o);
    SortedHasAll(b, q);
    SameVerdicts(o, q, (r: Rule) => Outcome(r, s, check), x, y);
  }

  /** Rules with fixed verdicts give the same results, up to their order, in whatever order they run. */
  lemma SameVerdicts(o: seq<Rule>, q: seq<Rule>, verdict: Rule -> RuleResult, x: seq<RuleResult>, y: seq<RuleResult>)
    requires Distinct(o) && Distinct(q) && SameRules(o, q) && |x| == |o| && |y| == |q|
    requires forall i | 0 <= i < |o| :: x[i] == verdict(o[i])
    requires forall i | 0 <= i < |q| :: y[i] == verdict(q[i])
    ensures multiset(x) == multiset(y)
  {
    VerdictsApplied(o, verdict, x);
    VerdictsApplied(q, verdict, y);
    DistinctPermutation(o, q);
    ApplyAllPermutation(o, q, verdict);
  }

  lemma VerdictsApplied(order: seq<Rule>, verdict: Rule -> RuleResult, results: seq<RuleResult>)
    requires |results| == |order| && forall i | 0 <= i < |order| :: results[i] == verdict(order[i])
    ensures results == ApplyAll(order, verdict)
  {
    forall i | 0 <= i < |order|
      ensures results[i] == ApplyAll(order, verdict)[i]
    {
      ApplyAllAt(order, verdict, i);
    }
  }

  lemma SortedHasAll(rules: seq<Rule>, order: seq<Rule>)
    requires Consistent(rules) && SortedFrom(rules, order)
    ensures SameRules(rules, order)
  {
    forall r | r in rules
      ensures r in order
    {
      assert r.id in Ids(order);
      var i :| 0 <= i < |order| && order[i].id == r.id;
      assert order[i] in rules;
    }
  }

  lemma {:induction false} FlattenPermutation<T>(a: seq<seq<T>>, b: seq<seq<T>>)
    requires |a| == |b| && forall k | 0 <= k < |a| :: multiset(a[k]) == multiset(b[k])
    ensures multiset(Flatten(a)) == multiset(Flatten(b))
  {
    if a == [] {
    } else {
      FlattenPermutation(a[..|a| - 1], b[..|b| - 1]);
    }
  }

  /**
   Two registries that hold the same rules, registered in any order and any number of
   times, give a device the same report: only the order of its result list may differ.
   */
  lemma ReportIgnoresRegistrationOrder(
      p: RuleRegistry, q: RuleRegistry, evaluate: Evaluator, frameworks: seq<string>,
      partsP: seq<seq<RuleResult>>, partsQ: seq<seq<RuleResult>>, reportP: Report, reportQ: Report)
    requires p.Valid() && q.Valid()
    requires forall f | f in frameworks :: SameRules(p.RulesFor(f), q.RulesFor(f))
    requires DeviceResults(p, evaluate, frameworks, partsP) && Reports(reportP, Flatten(partsP))
    requires DeviceResults(q, evaluate, frameworks, partsQ) && Reports(reportQ, Flatten(partsQ))
    ensures multiset(reportP.results) == multiset(reportQ.results)
    ensures reportP.(results := reportQ.results) == reportQ
  {
    forall k | 0 <= k < |frameworks|
      ensures multiset(partsP[k]) == multiset(partsQ[k])
    {
      var f := frameworks[k];
      ChainIgnoresRegistrationOrder(p.RulesFor(f), q.RulesFor(f), CheckOf(evaluate, f), partsP[k], partsQ[k]);
    }
    FlattenPermutation(partsP, partsQ);
    ReportLaws.ReportIgnoresOrder(reportP, Flatten(partsP), reportQ, Flatten(partsQ));
  }
}
