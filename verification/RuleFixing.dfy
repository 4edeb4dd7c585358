/** What fixing one rule does to the overall score of a device. */
module RuleFixing {
  import opened RuleModel
  import opened RuleOrder
  import opened RuleChain
  import opened ComplianceReport
  import opened Sums
  import ReportLaws

  /** The two checks differ at most at the rule `f`, which runs, fails before and passes after, with the same weight. */
  ghost predicate Fixes(check: Check, fixed: Check, f: Rule, s: set<string>) {
    && (forall r | r != f :: fixed(r) == check(r))
    && Unlocked(f, s)
    && check(f).verdict != Skipped && !check(f).Passed()
    && fixed(f).Passed() && fixed(f).severity == check(f).severity
  }

  /** The rules that run when the ids in `t` have passed, and did not when those in `s` had. */
  ghost function Newly(order: seq<Rule>, s: set<string>, t: set<string>): seq<Rule> {
    if order == [] then [] else
      var n := |order| - 1;
      var before := Newly(order[..n], s, t);
      if Unlocked(order[n], t) && !Unlocked(order[n], s) then before + [order[n]] else before
  }

  /** A figure of the results that the newly unlocked rules give. */
  ghost function Gain(order: seq<Rule>, check: Check, s: set<string>, t: set<string>, f: RuleResult -> int): int {
    Sum(ApplyAll(Newly(order, s, t), check), f)
  }

  /** The outcomes once the ids in `s` have passed, as the least fixpoint gives them. */
  ghost function OutcomesIn(order: seq<Rule>, check: Check, s: set<string>): seq<RuleResult> {
    ApplyAll(order, (r: Rule) => Outcome(r, s, check))
  }

  /** A newly unlocked rule adds what its check gives, and the fixed rule the difference. */
  lemma {:induction false} FigureGrows(
      order: seq<Rule>, check: Check, fixed: Check, f: Rule, s: set<string>, t: set<string>, figure: RuleResult -> int)
    requires s <= t && Distinct(order) && Fixes(check, fixed, f, s)
    requires forall r: RuleResult | r.verdict == Skipped :: figure(r) == 0
    ensures Sum(OutcomesIn(order, fixed, t), figure) ==
            Sum(OutcomesIn(order, check, s), figure) + Gain(order, check, s, t, figure)
            + if f in order then figure(fixed(f)) - figure(check(f)) else 0
  {
    if order == [] {
    } else {
      var n := |order| - 1;
      var before, r := order[..n], order[n];
      assert order == before + [r];
      FigureGrows(before, check, fixed, f, s, t, figure);
      assert f in order <==> f in before || f == r;
      assert f == r ==> f !in before;
      SumAppend(OutcomesIn(before, fixed, t), Outcome(r, t, fixed), figure);
      SumAppend(OutcomesIn(before, check, s), Outcome(r, s, check), figure);
      GainGrows(before, r, check, s, t, figure);
      assert Unlocked(r, s) ==> Unlocked(r, t);
    }
  }

  lemma GainGrows(order: seq<Rule>, r: Rule, check: Check, s: set<string>, t: set<string>, figure: RuleResult -> int)
    ensures Gain(order + [r], check, s, t, figure) ==
            Gain(order, check, s, t, figure) + if Unlocked(r, t) && !Unlocked(r, s) then figure(check(r)) else 0
  {
    assert (order + [r])[..|order|] == order;
    if Unlocked(r, t) && !Unlocked(r, s) {
      ApplyAllAppend(Newly(order, s, t), r, check);
      SumAppend(ApplyAll(Newly(order, s, t), check), check(r), figure);
    }
  }

  /** The results of a run are those that the least fixpoint gives. */
  lemma OutcomesAreFixpoint(rules: seq<Rule>, order: seq<Rule>, check: Check, s: set<string>)
    requires Consistent(rules) && SortedFrom(rules, order) && IsLeastFixpoint(rules, check, s)
    ensures Outcomes(order, check) == OutcomesIn(order, check, s)
  {
    VerdictsFollowFixpoint(rules, order, check, s);
    forall i | 0 <= i < |order|
      ensures Outcomes(order, check)[i] == OutcomesIn(order, check, s)[i]
    {
      ApplyAllAt(order, (r: Rule) => Outcome(r, s, check), i);
    }
  }

  lemma FixpointGrows(rules: seq<Rule>, order: seq<Rule>, check: Check, fixed: Check, f: Rule, s: set<string>,
                      t: set<string>)
    requires Consistent(rules) && SortedFrom(rules, order) && Fixes(check, fixed, f, s)
    requires IsLeastFixpoint(rules, check, s) && IsLeastFixpoint(rules, fixed, t)
    ensures s <= t
  {
    PassedIsLeastFixpoint(rules, order, check);
    OneLeastFixpoint(rules, rules, check, s, Passed(order, check));
    FixingKeepsPasses(rules, order, check, fixed, t);
  }

  /** The earned and possible weight of a run after the fix. */
  lemma FixedTotals(rules: seq<Rule>, order: seq<Rule>, check: Check, fixed: Check, f: Rule, s: set<string>,
                    t: set<string>)
    requires Consistent(rules) && SortedFrom(rules, order) && f in rules && Fixes(check, fixed, f, s)
    requires IsLeastFixpoint(rules, check, s) && IsLeastFixpoint(rules, fixed, t)
    ensures Sum(Outcomes(order, fixed), Earned) ==
            Sum(Outcomes(order, check), Earned) + Gain(order, check, s, t, Earned) + Weight(check(f).severity)
    ensures Sum(Outcomes(order, fixed), Possible) ==
            Sum(Outcomes(order, check), Possible) + Gain(order, check, s, t, Possible)
    ensures Sum(Outcomes(order, check), Possible) > 0
  {
    FixpointGrows(rules, order, check, fixed, f, s, t);
    OutcomesAreFixpoint(rules, order, check, s);
    OutcomesAreFixpoint(rules, order, fixed, t);
    FigureGrows(order, check, fixed, f, s, t, Earned);
    FigureGrows(order, check, fixed, f, s, t, Possible);
    var i := PlaceOf(rules, order, f);
    ApplyAllAt(order, (r: Rule) => Outcome(r, s, check), i);
    assert Outcomes(order, check)[i] == check(f);
    ReportLaws.EarnedWithinPossible(Outcomes(order, check));
  }

  lemma PlaceOf(rules: seq<Rule>, order: seq<Rule>, f: Rule) returns (i: nat)
    requires Consistent(rules) && SortedFrom(rules, order) && f in rules
    ensures i < |order| && order[i] == f
  {
    assert f.id in Ids(order);
    i :| 0 <= i < |order| && order[i].id == f.id;
    assert order[i] in rules;
  }

  /** Results of one framework, between those of the frameworks before and after it. */
  ghost function Among(front: seq<RuleResult>, results: seq<RuleResult>, back: seq<RuleResult>): seq<RuleResult> {
    front + results + back
  }

  lemma SumAmong(front: seq<RuleResult>, results: seq<RuleResult>, back: seq<RuleResult>, f: RuleResult -> int)
    ensures Sum(Among(front, results, back), f) == Sum(front, f) + Sum(results, f) + Sum(back, f)
  {
    SumConcat(front + results, back, f);
    SumConcat(front, results, f);
  }

  lemma TotalsAfterFix(rules: seq<Rule>, order: seq<Rule>, check: Check, fixed: Check, f: Rule, s: set<string>,
                       t: set<string>, front: seq<RuleResult>, back: seq<RuleResult>, report: Report, other: Report)
    requires Consistent(rules) && SortedFrom(rules, order) && f in rules && Fixes(check, fixed, f, s)
    requires IsLeastFixpoint(rules, check, s) && IsLeastFixpoint(rules, fixed, t)
    requires Reports(report, Among(front, Outcomes(order, check), back))
    requires Reports(other, Among(front, Outcomes(order, fixed), back))
    ensures other.earned == report.earned + Weight(check(f).severity) + Gain(order, check, s, t, Earned)
    ensures other.possible == report.possible + Gain(order, check, s, t, Possible)
    ensures report.earned <= report.possible && report.possible > 0
  {
    FixedTotals(rules, order, check, fixed, f, s, t);
    TotalsAmong(front, Outcomes(order, check), back, report);
    TotalsAmong(front, Outcomes(order, fixed), back, other);
    ReportLaws.EarnedWithinPossible(front);
    ReportLaws.EarnedWithinPossible(back);
    ReportLaws.EarnedWithinPossible(report.results);
  }

  /**
   The exact effect of fixing one rule, whatever other rules it unlocks and whatever the
   other frameworks give: with `gained` the weight that the fixed rule and the newly
   unlocked ones earn, and `added` the weight that the latter could earn, the score falls
   exactly if `gained` is a smaller share of `added` than the score was before.
   */
  lemma FixingAndScore(rules: seq<Rule>, order: seq<Rule>, check: Check, fixed: Check, f: Rule, s: set<string>,
                       t: set<string>, front: seq<RuleResult>, back: seq<RuleResult>, report: Report, other: Report)
    requires Consistent(rules) && SortedFrom(rules, order) && f in rules && Fixes(check, fixed, f, s)
    requires IsLeastFixpoint(rules, check, s) && IsLeastFixpoint(rules, fixed, t)
    requires Reports(report, Among(front, Outcomes(order, check), back))
    requires Reports(other, Among(front, Outcomes(order, fixed), back))
    ensures var gained := Weight(check(f).severity) + Gain(order, check, s, t, Earned);
            var added := Gain(order, check, s, t, Possible);
            && (other.overall < report.overall <==> gained * report.possible < report.earned * added)
            && (other.overall == report.overall <==> gained * report.possible == report.earned * added)
  {
    TotalsAfterFix(rules, order, check, fixed, f, s, t, front, back, report, other);
    GainIsWeight(order, check, s, t);
    CompareScores(report.earned, report.possible,
                  Weight(check(f).severity) + Gain(order, check, s, t, Earned), Gain(order, check, s, t, Possible));
  }

  lemma TotalsAmong(front: seq<RuleResult>, results: seq<RuleResult>, back: seq<RuleResult>, report: Report)
    requires Reports(report, Among(front, results, back))
    ensures report.earned == Sum(front, Earned) + Sum(results, Earned) + Sum(back, Earned)
    ensures report.possible == Sum(front, Possible) + Sum(results, Possible) + Sum(back, Possible)
  {
    SumAmong(front, results, back, Earned);
    SumAmong(front, results, back, Possible);
  }

  /** What the newly unlocked rules earn is at most what they could; it is all of it if none of them fails. */
  lemma GainIsWeight(order: seq<Rule>, check: Check, s: set<string>, t: set<string>)
    ensures 0 <= Gain(order, check, s, t, Earned) <= Gain(order, check, s, t, Possible)
    ensures (forall r | r in Newly(order, s, t) :: check(r).verdict == Skipped || check(r).Passed()) ==>
            Gain(order, check, s, t, Earned) == Gain(order, check, s, t, Possible)
  {
    var newly := Newly(order, s, t);
    var results := ApplyAll(newly, check);
    ReportLaws.EarnedWithinPossible(results);
    if forall r | r in newly :: check(r).verdict == Skipped || check(r).Passed() {
      forall x | x in results
        ensures x.verdict == Skipped || x.Passed()
      {
        var i :| 0 <= i < |results| && results[i] == x;
        ApplyAllAt(newly, check, i);
        assert newly[i] in newly;
      }
    }
  }

  /** Adding to both parts of a fraction moves it towards what is added. */
  lemma CompareScores(earned: nat, possible: nat, gained: nat, added: nat)
    requires possible > 0
    ensures Score(earned + gained, possible + added) < Score(earned, possible) <==> gained * possible < earned * added
    ensures Score(earned + gained, possible + added) == Score(earned, possible) <==> gained * possible == earned * added
  {
    CrossMultiply(earned + gained, possible + added, earned, possible);
    assert (earned + gained) * possible == earned * possible + gained * possible;
    assert earned * (possible + added) == earned * possible + earned * added;
  }

  lemma CrossMultiply(a: nat, m: nat, b: nat, n: nat)
    requires m > 0 && n > 0
    ensures Score(a, m) < Score(b, n) <==> a * n < b * m
    ensures Score(a, m) == Score(b, n) <==> a * n == b * m
  {
    var x, y := a as real / m as real, b as real / n as real;
    assert x * m as real == a as real && y * n as real == b as real;
    var scale := m as real * n as real;
    assert x * scale == (a * n) as real;
    assert y * scale == (b * m) as real;
    assert scale > 0.0;
    assert x < y ==> x * scale < y * scale;
    assert y < x ==> y * scale < x * scale;
  }

  /** A fix does not lower the score if every rule that it unlocks passes, in particular if it unlocks none. */
  lemma HarmlessFix(rules: seq<Rule>, order: seq<Rule>, check: Check, fixed: Check, f: Rule, s: set<string>,
                    t: set<string>, front: seq<RuleResult>, back: seq<RuleResult>, report: Report, other: Report)
    requires Consistent(rules) && SortedFrom(rules, order) && f in rules && Fixes(check, fixed, f, s)
    requires IsLeastFixpoint(rules, check, s) && IsLeastFixpoint(rules, fixed, t)
    requires Reports(report, Among(front, Outcomes(order, check), back))
    requires Reports(other, Among(front, Outcomes(order, fixed), back))
    requires forall r | r in Newly(order, s, t) :: check(r).verdict == Skipped || check(r).Passed()
    ensures other.overall > report.overall
  {
    FixingAndScore(rules, order, check, fixed, f, s, t, front, back, report, other);
    GainIsWeight(order, check, s, t);
    TotalsAfterFix(rules, order, check, fixed, f, s, t, front, back, report, other);
    Gains(Weight(check(f).severity), Gain(order, check, s, t, Earned), report.earned, report.possible);
  }

  lemma Gains(weight: nat, added: nat, earned: nat, possible: nat)
    requires weight > 0 && earned <= possible && possible > 0
    ensures (weight + added) * possible > earned * added
  {
    assert (weight + added) * possible == weight * possible + added * possible;
    assert weight * possible > 0;
    assert added * possible >= added * earned;
  }

  /* The score can fall */

  /** The overall score of a list of results. */
  ghost function ScoreOf(results: seq<RuleResult>): real {
    Score(Sum(results, Earned), Sum(results, Possible))
  }

  /**
   Fixing a rule can lower the score: here the first rule unlocks a critical one that
   fails, and that was skipped, so not counted, before.
   */
  lemma FixingCanLowerScore(check: Check, fixed: Check)
    requires check == ((r: Rule) => MakeResult(r, if r.id == "C" then Pass else Fail))
    requires fixed == ((r: Rule) =>
      MakeResult(r, if r.id == "C" || r == Rule("A", "cis", "1", Informational, []) then Pass else Fail))
    ensures var rules := [Rule("A", "cis", "1", Informational, []), Rule("B", "cis", "2", Critical, ["A"]),
                          Rule("C", "cis", "3", Low, [])];
            && SortedFrom(rules, rules) && Consistent(rules)
            && (forall s :: Fixes(check, fixed, rules[0], s))
            && ScoreOf(Outcomes(rules, fixed)) < ScoreOf(Outcomes(rules, check))
  {
    var a, b := Rule("A", "cis", "1", Informational, []), Rule("B", "cis", "2", Critical, ["A"]);
    var c := Rule("C", "cis", "3", Low, []);
    var rules := [a, b, c];
    ThreeAreSorted(a, b, c);
    SecondRuleOnFirst(a, b, c, check);
    SecondRuleOnFirst(a, b, c, fixed);
    ThreeScores(MakeResult(a, Fail), MakeResult(b, Skipped), MakeResult(c, Pass));
    ThreeScores(MakeResult(a, Pass), MakeResult(b, Fail), MakeResult(c, Pass));
  }

  lemma ThreeAreSorted(a: Rule, b: Rule, c: Rule)
    requires a.id != b.id && b.id != c.id && a.id != c.id
    requires a.prerequisites == c.prerequisites == [] && b.prerequisites == [a.id]
    ensures SortedFrom([a, b, c], [a, b, c]) && Consistent([a, b, c])
  {
    var rules := [a, b, c];
    assert rules[0].id == a.id;
    assert PlacedBefore(rules, a.id, 1);
  }

  /** Three rules of which only the second has a prerequisite: the first. */
  lemma SecondRuleOnFirst(a: Rule, b: Rule, c: Rule, check: Check)
    requires a.prerequisites == c.prerequisites == [] && b.prerequisites == [a.id]
    ensures Outcomes([a, b, c], check) ==
            [check(a), if check(a).Passed() then check(b) else MakeResult(b, Skipped), check(c)]
  {
    ThreeRules([a, b, c], check);
    assert a.id in b.prerequisites;
  }

  lemma ThreeScores(x: RuleResult, y: RuleResult, z: RuleResult)
    ensures ScoreOf([x, y, z]) == Score(Earned(x) + Earned(y) + Earned(z), Possible(x) + Possible(y) + Possible(z))
  {
    SumOfThree(x, y, z, Earned);
    SumOfThree(x, y, z, Possible);
  }

  lemma ThreeRules(rules: seq<Rule>, check: Check)
    requires |rules| == 3
    ensures var p0 := {};
            var o0 := Outcome(rules[0], p0, check);
            var p1 := if o0.Passed() then p0 + {rules[0].id} else p0;
            var o1 := Outcome(rules[1], p1, check);
            var p2 := if o1.Passed() then p1 + {rules[1].id} else p1;
            Outcomes(rules, check) == [o0, o1, Outcome(rules[2], p2, check)]
  {
    assert rules[..0] == [];
    OutcomesAppend(rules, check, 0);
    OutcomesAppend(rules, check, 1);
    OutcomesAppend(rules, check, 2);
    assert rules[..3] == rules;
  }

  /** The loop's state after one more rule. */
  lemma OutcomesAppend(order: seq<Rule>, check: Check, k: nat)
    requires k < |order|
    ensures var o := Outcome(order[k], Passed(order[..k], check), check);
            && Outcomes(order[..k + 1], check) == Outcomes(order[..k], check) + [o]
            && Passed(order[..k + 1], check) == Passed(order[..k], check) + if o.Passed() then {order[k].id} else {}
  {
    assert order[..k + 1][..k] == order[..k];
  }

  lemma SumOfThree(x: RuleResult, y: RuleResult, z: RuleResult, f: RuleResult -> int)
    ensures Sum([x, y, z], f) == f(x) + f(y) + f(z)
  {
    assert [x, y, z][..2] == [x, y] && [x, y][..1] == [x] && [x][..0] == [];
    assert Sum([x], f) == f(x);
    assert Sum([x, y], f) == f(x) + f(y);
  }
}
