/**
 The evaluation loop of `ComplianceOrchestrator.evaluate_device`: a rule runs only
 if all its prerequisites passed earlier in the same framework.
 */
module RuleChain {
  import opened RuleModel
  import opened RuleOrder

  /** The rules' own results for one device and framework. */
  type Check = Rule -> RuleResult

  predicate Unlocked(rule: Rule, passed: set<string>) {
    forall d | d in rule.prerequisites :: d in passed
  }

  ghost function Outcome(rule: Rule, passed: set<string>, check: Check): RuleResult {
    if Unlocked(rule, passed) then check(rule) else MakeResult(rule, Skipped)
  }

  /** The ids that have passed once the loop has dealt with `order`. */
  ghost function Passed(order: seq<Rule>, check: Check): set<string> {
    if order == [] then {} else
      var n := |order| - 1;
      var before := Passed(order[..n], check);
      if Outcome(order[n], before, check).Passed() then before + {order[n].id} else before
  }

  /** The results of the loop, in order. */
  ghost function Outcomes(order: seq<Rule>, check: Check): (results: seq<RuleResult>)
    ensures |results| == |order|
  {
    if order == [] then [] else
      var n := |order| - 1;
      Outcomes(order[..n], check) + [Outcome(order[n], Passed(order[..n], check), check)]
  }

  /* The declarative meaning of the verdicts */

  /** The rules that pass once all the rules in `s` have passed. */
  ghost function Consequences(rules: seq<Rule>, check: Check, s: set<string>): set<string> {
    set r | r in rules && Unlocked(r, s) && check(r).Passed() :: r.id
  }

  ghost predicate Closed(rules: seq<Rule>, check: Check, s: set<string>) {
    Consequences(rules, check, s) <= s
  }

  ghost predicate IsLeastFixpoint(rules: seq<Rule>, check: Check, s: set<string>) {
    && Consequences(rules, check, s) == s
    && forall t | Closed(rules, check, t) :: s <= t
  }

  /* What the loop does at one rule */

  lemma {:induction false} OutcomeAt(order: seq<Rule>, check: Check, i: nat)
    requires i < |order|
    ensures Outcomes(order, check)[i] == Outcome(order[i], Passed(order[..i], check), check)
  {
    var n := |order| - 1;
    if i == n {
    } else {
      OutcomeAt(order[..n], check, i);
      assert order[..n][..i] == order[..i];
    }
  }

  lemma {:induction false} PassedGrows(order: seq<Rule>, check: Check, i: nat)
    requires i <= |order|
    ensures Passed(order[..i], check) <= Passed(order, check)
  {
    var n := |order| - 1;
    if i <= n {
      PassedGrows(order[..n], check, i);
      assert order[..n][..i] == order[..i];
    } else {
      assert order[..i] == order;
    }
  }

  /** An id has passed before place `i` exactly if a rule placed earlier has it and passed. */
  lemma {:induction false} PassedBefore(order: seq<Rule>, check: Check, i: nat, id: string)
    requires i <= |order|
    ensures id in Passed(order[..i], check) <==>
            exists j :: 0 <= j < i && order[j].id == id && Outcomes(order, check)[j].Passed()
  {
    if i == 0 {
    } else {
      PassedBefore(order, check, i - 1, id);
      OutcomeAt(order, check, i - 1);
      assert order[..i][..i - 1] == order[..i - 1];
    }
  }

  /** If a rule passed, so did each rule its prerequisites lead to. */
  lemma {:induction false} PassesAlongPath(rules: seq<Rule>, order: seq<Rule>, check: Check, p: seq<string>)
    requires Consistent(rules) && SortedFrom(rules, order)
    requires Path(rules, p) && p[0] in Passed(order, check)
    ensures p[|p| - 1] in Passed(order, check)
  {
    if |p| == 1 {
    } else {
      assert Edge(rules, p[0], p[1]);
      var i := PlaceOfPassed(order, check, p[0]);
      assert order[i] in rules && p[1] in order[i].prerequisites;
      PassedGrows(order, check, i);
      PathTail(rules, p);
      PassesAlongPath(rules, order, check, p[1..]);
    }
  }

  lemma PlaceOfPassed(order: seq<Rule>, check: Check, id: string) returns (i: nat)
    requires id in Passed(order, check)
    ensures i < |order| && order[i].id == id
    ensures Unlocked(order[i], Passed(order[..i], check)) && check(order[i]).Passed()
  {
    PassedBefore(order, check, |order|, id);
    assert order[..|order|] == order;
    i :| 0 <= i < |order| && order[i].id == id && Outcomes(order, check)[i].Passed();
    OutcomeAt(order, check, i);
  }

  /** A rule whose prerequisites all pass in the end found them passed at its own turn. */
  lemma UnlockedAtItsTurn(rules: seq<Rule>, order: seq<Rule>, check: Check, i: nat)
    requires Consistent(rules) && SortedFrom(rules, order) && i < |order|
    ensures Unlocked(order[i], Passed(order, check)) <==> Unlocked(order[i], Passed(order[..i], check))
  {
    PassedGrows(order, check, i);
    if Unlocked(order[i], Passed(order, check)) {
      forall d | d in order[i].prerequisites
        ensures d in Passed(order[..i], check)
      {
        var k := PlaceOfPassed(order, check, d);
        assert d in Ids(order);
        if k < i {
          PassedBefore(order, check, i, d);
          PassedBefore(order, check, |order|, d);
          assert order[..|order|] == order;
          OutcomeAt(order, check, k);
        } else {
          // d is placed at k or later, so d leads back to this rule, which has then passed itself
          assert !PlacedBefore(order, d, i);
          var p :| Path(rules, p) && p[0] == d && p[|p| - 1] == order[i].id;
          PassesAlongPath(rules, order, check, p);
          var j := PlaceOfPassed(order, check, order[i].id);
          assert j == i;
        }
      }
    }
  }

  /* The least fixpoint is unique */

  ghost predicate SameRules(a: seq<Rule>, b: seq<Rule>) {
    forall r :: r in a <==> r in b
  }

  lemma SameConsequences(a: seq<Rule>, b: seq<Rule>, check: Check, s: set<string>)
    requires SameRules(a, b)
    ensures Consequences(a, check, s) == Consequences(b, check, s)
  {
    forall id
      ensures id in Consequences(a, check, s) <==> id in Consequences(b, check, s)
    {
      if id in Consequences(a, check, s) {
        var r :| r in a && Unlocked(r, s) && check(r).Passed() && r.id == id;
        assert r in b;
      }
      if id in Consequences(b, check, s) {
        var r :| r in b && Unlocked(r, s) && check(r).Passed() && r.id == id;
        assert r in a;
      }
    }
  }

  /** The least fixpoint depends on the set of rules only. */
  lemma OneLeastFixpoint(a: seq<Rule>, b: seq<Rule>, check: Check, s: set<string>, t: set<string>)
    requires SameRules(a, b)
    requires IsLeastFixpoint(a, check, s) && IsLeastFixpoint(b, check, t)
    ensures s == t
  {
    SameConsequences(a, b, check, t);
    SameConsequences(a, b, check, s);
    assert Closed(a, check, t) && Closed(b, check, s);
  }

  /* Main results */

  /** The rules that pass are the least fixpoint, whatever cycles or missing ids the prerequisites have. */
  lemma PassedIsLeastFixpoint(rules: seq<Rule>, order: seq<Rule>, check: Check)
    requires Consistent(rules) && SortedFrom(rules, order)
    ensures IsLeastFixpoint(rules, check, Passed(order, check))
  {
    var s := Passed(order, check);
    forall id
      ensures id in Consequences(rules, check, s) <==> id in s
    {
      if id in s {
        var i := PlaceOfPassed(order, check, id);
        PassedGrows(order, check, i);
        assert order[i] in rules;
      }
      if id in Consequences(rules, check, s) {
        var r :| r in rules && Unlocked(r, s) && check(r).Passed() && r.id == id;
        assert id in Ids(order);
        var i :| 0 <= i < |order| && order[i].id == id;
        assert order[i] in rules && order[i] == r;
        UnlockedAtItsTurn(rules, order, check, i);
        OutcomeAt(order, check, i);
        PassedBefore(order, check, |order|, id);
        assert order[..|order|] == order;
      }
    }
    forall t | Closed(rules, check, t)
      ensures s <= t
    {
      PassedWithinClosed(rules, order, check, t);
    }
  }

  lemma {:induction false} PassedWithinClosed(rules: seq<Rule>, order: seq<Rule>, check: Check, t: set<string>)
    requires forall r | r in order :: r in rules
    requires Closed(rules, check, t)
    ensures Passed(order, check) <= t
  {
    if order == [] {
    } else {
      var n := |order| - 1;
      PassedWithinClosed(rules, order[..n], check, t);
      assert order[n] in rules;
    }
  }

  /** Each result is the rule's own exactly when its prerequisites are in the least fixpoint, and a skip otherwise. */
  lemma {:induction false} VerdictsFollowFixpoint(rules: seq<Rule>, order: seq<Rule>, check: Check, s: set<string>)
    requires Consistent(rules) && SortedFrom(rules, order) && IsLeastFixpoint(rules, check, s)
    ensures forall i | 0 <= i < |order| :: Outcomes(order, check)[i] == Outcome(order[i], s, check)
  {
    PassedIsLeastFixpoint(rules, order, check);
    OneLeastFixpoint(rules, rules, check, s, Passed(order, check));
    forall i | 0 <= i < |order|
      ensures Outcomes(order, check)[i] == Outcome(order[i], s, check)
    {
      UnlockedAtItsTurn(rules, order, check, i);
      OutcomeAt(order, check, i);
    }
  }

  /** Fixing rules never makes another rule stop passing. */
  lemma {:induction false} FixingKeepsPasses(
      rules: seq<Rule>, order: seq<Rule>, check: Check, fixed: Check, s: set<string>)
    requires forall r | r in order :: r in rules
    requires forall r | r in rules && check(r).Passed() :: fixed(r).Passed()
    requires IsLeastFixpoint(rules, fixed, s)
    ensures Passed(order, check) <= s
  {
    if order == [] {
    } else {
      var n := |order| - 1;
      FixingKeepsPasses(rules, order[..n], check, fixed, s);
      assert order[n] in rules;
    }
  }
}
