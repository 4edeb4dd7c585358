/** What every report made by `_aggregate_report` satisfies. */
module ReportLaws {
  import opened RuleModel
  import opened Sums
  import opened ComplianceReport

  /* The per-control figures add up to the totals of the report */

  ghost function ControlSum(results: seq<RuleResult>, f: RuleResult -> int): string -> int {
    c => Sum(OfControl(results, c), f)
  }

  lemma {:induction false} OnlySkipped(results: seq<RuleResult>, f: RuleResult -> int, control: string)
    requires forall r: RuleResult | r.verdict == Skipped :: f(r) == 0
    requires control !in ControlsOf(results)
    ensures Sum(OfControl(results, control), f) == 0
  {
    if results == [] {
    } else {
      var n := |results| - 1;
      assert results[n] in results && forall r | r in results[..n] :: r in results;
      OnlySkipped(results[..n], f, control);
      SumAppend(OfControl(results[..n], control), results[n], f);
    }
  }

  /** Adding to one key's figure adds as much to the sum over all keys. */
  lemma BumpOne(keys: set<string>, g: string -> int, h: string -> int, k: string)
    requires k !in keys ==> g(k) == 0
    requires forall c | c != k :: h(c) == g(c)
    ensures SumOver(keys + {k}, h) == SumOver(keys, g) + h(k) - g(k)
  {
    SumOverTake(keys + {k}, h, k);
    SumOverSame(keys - {k}, g, h);
    assert keys + {k} - {k} == keys - {k};
    if k in keys {
      SumOverTake(keys, g, k);
    } else {
      assert keys - {k} == keys;
    }
  }

  /** Splitting the results by control loses nothing, for any figure that ignores skipped results. */
  lemma {:induction false} SplitByControl(results: seq<RuleResult>, f: RuleResult -> int)
    requires forall r: RuleResult | r.verdict == Skipped :: f(r) == 0
    ensures SumOver(ControlsOf(results), ControlSum(results, f)) == Sum(results, f)
  {
    if results == [] {
    } else {
      SplitByControl(results[..|results| - 1], f);
      SplitStep(results, f);
    }
  }

  lemma SplitStep(results: seq<RuleResult>, f: RuleResult -> int)
    requires forall r: RuleResult | r.verdict == Skipped :: f(r) == 0
    requires results != []
    ensures var before, r := results[..|results| - 1], results[|results| - 1];
            SumOver(ControlsOf(results), ControlSum(results, f)) ==
                SumOver(ControlsOf(before), ControlSum(before, f)) + f(r)
  {
    var n := |results| - 1;
    var before, r := results[..n], results[n];
    var g, h := ControlSum(before, f), ControlSum(results, f);
    assert forall c :: h(c) == (if c == r.control then g(c) + f(r) else g(c)) by {
      ControlSumStep(results, f);
    }
    assert ControlsOf(results) ==
        (if r.verdict == Skipped then ControlsOf(before) else ControlsOf(before) + {r.control}) by {
      ControlsStep(results, n);
      assert results[..n + 1] == results;
    }
    assert r.control !in ControlsOf(before) ==> g(r.control) == 0 by {
      if r.control !in ControlsOf(before) {
        OnlySkipped(before, f, r.control);
      }
    }
    StepOfSums(ControlsOf(before), g, h, r.control, r.verdict == Skipped, f(r));
  }

  lemma StepOfSums(keys: set<string>, g: string -> int, h: string -> int, k: string, skipped: bool, share: int)
    requires forall c :: h(c) == (if c == k then g(c) + share else g(c))
    requires k !in keys ==> g(k) == 0
    requires skipped ==> share == 0
    ensures SumOver(if skipped then keys else keys + {k}, h) == SumOver(keys, g) + share
  {
    if skipped {
      SumOverSame(keys, g, h);
    } else {
      BumpOne(keys, g, h, k);
    }
  }

  lemma ControlSumStep(results: seq<RuleResult>, f: RuleResult -> int)
    requires results != []
    ensures var n := |results| - 1;
            forall c :: ControlSum(results, f)(c) ==
                        ControlSum(results[..n], f)(c) + (if c == results[n].control then f(results[n]) else 0)
  {
    SumSkips(results, f);
  }

  /** The last result counts for its own control only. */
  lemma SumSkips(results: seq<RuleResult>, f: RuleResult -> int)
    requires results != []
    ensures var n := |results| - 1;
            forall c :: Sum(OfControl(results, c), f) ==
                        Sum(OfControl(results[..n], c), f) + if c == results[n].control then f(results[n]) else 0
  {
    var n := |results| - 1;
    forall c
      ensures Sum(OfControl(results, c), f) ==
              Sum(OfControl(results[..n], c), f) + if c == results[n].control then f(results[n]) else 0
    {
      SumAppend(OfControl(results[..n], c), results[n], f);
    }
  }

  lemma LastAddsTo(before: seq<RuleResult>, last: RuleResult, control: string, f: RuleResult -> int)
    ensures Sum(OfControl(before + [last], control), f) ==
            Sum(OfControl(before, control), f) + if control == last.control then f(last) else 0
  {
    SumSkips(before + [last], f);
    assert (before + [last])[..|before|] == before;
  }

  /** A figure of the control summaries, as a function of the control. */
  ghost function Column(report: Report, figure: ControlSummary -> int): string -> int {
    c => if c in report.controls then figure(report.controls[c]) else 0
  }

  lemma ControlsAddUp(report: Report, results: seq<RuleResult>)
    requires Reports(report, results)
    ensures SumOver(report.controls.Keys, Column(report, (s: ControlSummary) => s.earned)) == report.earned
    ensures SumOver(report.controls.Keys, Column(report, (s: ControlSummary) => s.possible)) == report.possible
    ensures SumOver(report.controls.Keys, Column(report, (s: ControlSummary) => s.passed)) ==
            report.passCount + report.exceptionCount
    ensures SumOver(report.controls.Keys, Column(report, (s: ControlSummary) => s.failed)) ==
            report.failCount + report.warnCount + report.errorCount
    ensures SumOver(report.controls.Keys, Column(report, (s: ControlSummary) => s.total)) ==
            |results| - report.skippedCount
  {
    ColumnAddsUp(report, results, (s: ControlSummary) => s.earned, Earned);
    ColumnAddsUp(report, results, (s: ControlSummary) => s.possible, Possible);
    ColumnAddsUp(report, results, (s: ControlSummary) => s.passed, PassedShare);
    ColumnAddsUp(report, results, (s: ControlSummary) => s.failed, FailedShare);
    ColumnAddsUp(report, results, (s: ControlSummary) => s.total, Counts);
    SharesAreCounts(results);
  }

  lemma ColumnAddsUp(report: Report, results: seq<RuleResult>, figure: ControlSummary -> int, f: RuleResult -> int)
    requires report.controls.Keys == ControlsOf(results)
    requires forall c | c in report.controls :: figure(report.controls[c]) == Sum(OfControl(results, c), f)
    requires forall r: RuleResult | r.verdict == Skipped :: f(r) == 0
    ensures SumOver(report.controls.Keys, Column(report, figure)) == Sum(results, f)
  {
    SplitByControl(results, f);
    SumOverSame(report.controls.Keys, Column(report, figure), ControlSum(results, f));
  }

  lemma {:induction false} SharesAreCounts(results: seq<RuleResult>)
    ensures Sum(results, PassedShare) == Sum(results, Is(Pass)) + Sum(results, Is(Exception))
    ensures Sum(results, FailedShare) == Sum(results, Is(Fail)) + Sum(results, Is(Warn)) + Sum(results, Is(Error))
    ensures Sum(results, Counts) == |results| - Sum(results, Is(Skipped))
  {
    if results == [] {
    } else {
      SharesAreCounts(results[..|results| - 1]);
    }
  }

  /** The six verdict counts partition the results. */
  lemma CountsAddUp(report: Report, results: seq<RuleResult>)
    requires Reports(report, results)
    ensures report.passCount + report.failCount + report.warnCount + report.errorCount
            + report.skippedCount + report.exceptionCount == |results|
  {
    SharesAreCounts(results);
    PassedAndFailed(results);
  }

  lemma {:induction false} PassedAndFailed(results: seq<RuleResult>)
    ensures Sum(results, Counts) == Sum(results, PassedShare) + Sum(results, FailedShare)
  {
    if results == [] {
    } else {
      PassedAndFailed(results[..|results| - 1]);
    }
  }

  /* The score */

  lemma {:induction false} EarnedWithinPossible(results: seq<RuleResult>)
    ensures 0 <= Sum(results, Earned) <= Sum(results, Possible)
    ensures Sum(results, Earned) == Sum(results, Possible) <==>
            forall r | r in results :: r.verdict == Skipped || r.Passed()
    ensures Sum(results, Possible) > 0 <==> exists r :: r in results && r.verdict != Skipped
  {
    if results == [] {
    } else {
      var n := |results| - 1;
      EarnedWithinPossible(results[..n]);
      assert results == results[..n] + [results[n]];
      assert results[n] in results;
      if r :| r in results[..n] && r.verdict != Skipped {
        assert r in results;
      }
    }
  }

  /** The unrounded score is a percentage, and full exactly when something was evaluated and all of it passed. */
  lemma ScoreIsPercentage(report: Report, results: seq<RuleResult>)
    requires Reports(report, results)
    ensures 0.0 <= report.overall <= 100.0
    ensures report.overall == 100.0 <==>
            (exists r :: r in results && r.verdict != Skipped)
            && (forall r | r in results :: r.verdict == Skipped || r.Passed())
  {
    EarnedWithinPossible(results);
    if report.possible > 0 {
      Ratio(report.earned, report.possible);
    }
  }

  lemma Cancel(x: real, y: real, m: real)
    requires m > 0.0 && x * m <= y * m
    ensures x <= y
  {
    assert x > y ==> x * m > y * m;
  }

  lemma Ratio(a: nat, b: nat)
    requires 0 < b && a <= b
    ensures 0.0 <= a as real / b as real <= 1.0
    ensures a as real / b as real == 1.0 <==> a == b
  {
    var q := a as real / b as real;
    assert q * b as real == a as real;
    Cancel(q, 1.0, b as real);
    Cancel(0.0, q, b as real);
  }

  ghost function WithoutSkipped(results: seq<RuleResult>): seq<RuleResult> {
    if results == [] then [] else
      var n := |results| - 1;
      var before := WithoutSkipped(results[..n]);
      if results[n].verdict == Skipped then before else before + [results[n]]
  }

  lemma {:induction false} SkippedWeighNothing(results: seq<RuleResult>, f: RuleResult -> int)
    requires forall r: RuleResult | r.verdict == Skipped :: f(r) == 0
    ensures Sum(WithoutSkipped(results), f) == Sum(results, f)
  {
    if results == [] {
    } else {
      var n := |results| - 1;
      SkippedWeighNothing(results[..n], f);
      SumAppend(WithoutSkipped(results[..n]), results[n], f);
    }
  }

  /** Deleting the skipped results leaves the score and every control figure unchanged. */
  lemma SkippedDoNotPenalise(report: Report, results: seq<RuleResult>, other: Report)
    requires Reports(report, results) && Reports(other, WithoutSkipped(results))
    ensures other.overall == report.overall && other.controls == report.controls
  {
    SkippedWeighNothing(results, Earned);
    SkippedWeighNothing(results, Possible);
    SameControls(report.controls, other.controls, results);
  }

  lemma SameControls(a: map<string, ControlSummary>, b: map<string, ControlSummary>, results: seq<RuleResult>)
    requires a.Keys == ControlsOf(results) && forall c | c in a :: Summarises(a[c], results, c)
    requires b.Keys == ControlsOf(WithoutSkipped(results))
    requires forall c | c in b :: Summarises(b[c], WithoutSkipped(results), c)
    ensures a == b
  {
    KeepsControls(results);
    forall c | c in a
      ensures b[c] == a[c]
    {
      KeepsSummary(a[c], results, c);
      OneSummary(a[c], b[c], WithoutSkipped(results), c);
    }
  }

  lemma KeepsSummary(summary: ControlSummary, results: seq<RuleResult>, control: string)
    requires Summarises(summary, results, control)
    ensures Summarises(summary, WithoutSkipped(results), control)
  {
    KeepsFigure(results, control, PassedShare);
    KeepsFigure(results, control, FailedShare);
    KeepsFigure(results, control, Counts);
    KeepsFigure(results, control, Earned);
    KeepsFigure(results, control, Possible);
  }

  lemma OneSummary(a: ControlSummary, b: ControlSummary, results: seq<RuleResult>, control: string)
    requires Summarises(a, results, control) && Summarises(b, results, control)
    ensures a == b
  {
  }

  lemma {:induction false} KeepsControls(results: seq<RuleResult>)
    ensures ControlsOf(WithoutSkipped(results)) == ControlsOf(results)
  {
    if results == [] {
    } else {
      var n := |results| - 1;
      KeepsControls(results[..n]);
      ControlsStep(results, n);
      assert results[..n + 1] == results;
      var kept := WithoutSkipped(results[..n]) + [results[n]];
      ControlsStep(kept, |kept| - 1);
      assert kept[..|kept| - 1] == WithoutSkipped(results[..n]) && kept[..|kept|] == kept;
    }
  }

  lemma {:induction false} KeepsFigure(results: seq<RuleResult>, control: string, f: RuleResult -> int)
    requires forall r: RuleResult | r.verdict == Skipped :: f(r) == 0
    ensures Sum(OfControl(WithoutSkipped(results), control), f) == Sum(OfControl(results, control), f)
  {
    if results == [] {
    } else {
      var n := |results| - 1;
      var before, last := results[..n], results[n];
      KeepsFigure(before, control, f);
      LastAddsTo(before, last, control, f);
      LastAddsTo(WithoutSkipped(before), last, control, f);
      assert before + [last] == results;
      if last.verdict == Skipped {
        assert f(last) == 0 && WithoutSkipped(results) == WithoutSkipped(before);
      } else {
        assert WithoutSkipped(results) == WithoutSkipped(before) + [last];
      }
    }
  }

  /** Turning one evaluated failure into a pass strictly raises the score. */
  lemma FixingAFailureRaisesScore(report: Report, results: seq<RuleResult>, i: nat, fixed: RuleResult, other: Report)
    requires Reports(report, results) && i < |results|
    requires results[i].verdict != Skipped && !results[i].Passed()
    requires fixed.Passed() && fixed.severity == results[i].severity
    requires Reports(other, results[i := fixed])
    ensures other.overall > report.overall
  {
    var changed := results[i := fixed];
    SumRemove(results, Earned, i);
    SumRemove(changed, Earned, i);
    SumRemove(results, Possible, i);
    SumRemove(changed, Possible, i);
    assert results[..i] + results[i + 1..] == changed[..i] + changed[i + 1..];
    EarnedWithinPossible(results[..i] + results[i + 1..]);
    RatioGrows(report.earned, other.earned, report.possible);
  }

  lemma RatioGrows(a: nat, b: nat, m: nat)
    requires a < b && 0 < m
    ensures a as real / m as real < b as real / m as real
  {
    var x, y := a as real / m as real, b as real / m as real;
    assert x * m as real == a as real && y * m as real == b as real;
  }

  /* A report depends on which results there are, not on their order */

  lemma {:induction false} ControlMultiset(results: seq<RuleResult>, control: string, r: RuleResult)
    ensures multiset(OfControl(results, control))[r] == if r.control == control then multiset(results)[r] else 0
  {
    if results == [] {
    } else {
      var n := |results| - 1;
      ControlMultiset(results[..n], control, r);
      assert results == results[..n] + [results[n]];
    }
  }

  lemma ControlPermutation(a: seq<RuleResult>, b: seq<RuleResult>, control: string)
    requires multiset(a) == multiset(b)
    ensures multiset(OfControl(a, control)) == multiset(OfControl(b, control))
  {
    forall r: RuleResult
      ensures multiset(OfControl(a, control))[r] == multiset(OfControl(b, control))[r]
    {
      ControlMultiset(a, control, r);
      ControlMultiset(b, control, r);
    }
  }

  lemma SummaryIgnoresOrder(s: ControlSummary, a: seq<RuleResult>, t: ControlSummary, b: seq<RuleResult>,
                            control: string)
    requires Summarises(s, a, control) && Summarises(t, b, control) && multiset(a) == multiset(b)
    ensures s == t
  {
    ControlPermutation(a, b, control);
    var x, y := OfControl(a, control), OfControl(b, control);
    SumOfPermutation(x, y, PassedShare);
    SumOfPermutation(x, y, FailedShare);
    SumOfPermutation(x, y, Counts);
    SumOfPermutation(x, y, Earned);
    SumOfPermutation(x, y, Possible);
  }

  lemma VerdictsIgnoreOrder(a: seq<RuleResult>, b: seq<RuleResult>)
    requires multiset(a) == multiset(b)
    ensures forall v :: Sum(a, Is(v)) == Sum(b, Is(v))
  {
    forall v: Verdict
      ensures Sum(a, Is(v)) == Sum(b, Is(v))
    {
      SumOfPermutation(a, b, Is(v));
    }
  }

  lemma ControlsIgnoreOrder(a: seq<RuleResult>, b: seq<RuleResult>)
    requires multiset(a) == multiset(b)
    ensures ControlsOf(a) == ControlsOf(b)
  {
    assert forall r :: r in a <==> r in multiset(a);
    assert forall r :: r in b <==> r in multiset(b);
  }

  lemma ReportIgnoresOrder(p: Report, a: seq<RuleResult>, q: Report, b: seq<RuleResult>)
    requires Reports(p, a) && Reports(q, b) && multiset(a) == multiset(b)
    ensures p.(results := q.results) == q
  {
    SumOfPermutation(a, b, Earned);
    SumOfPermutation(a, b, Possible);
    VerdictsIgnoreOrder(a, b);
    ControlsIgnoreOrder(a, b);
    forall c | c in p.controls
      ensures p.controls[c] == q.controls[c]
    {
      SummaryIgnoresOrder(p.controls[c], a, q.controls[c], b, c);
    }
    assert p.controls == q.controls;
  }

  /* The score, from the numbers of results of each severity */

  ghost function HowMany(results: seq<RuleResult>, p: RuleResult -> bool): nat {
    if results == [] then 0 else
      HowMany(results[..|results| - 1], p) + if p(results[|results| - 1]) then 1 else 0
  }

  /** The results of one severity that were not skipped. */
  ghost function Evaluated(results: seq<RuleResult>, severity: Severity): nat {
    HowMany(results, (r: RuleResult) => r.severity == severity && r.verdict != Verdict.Skipped)
  }

  /** Those that passed, or are covered by an exception. */
  ghost function Passing(results: seq<RuleResult>, severity: Severity): nat {
    HowMany(results, (r: RuleResult) => r.severity == severity && r.verdict in {Verdict.Pass, Verdict.Exception})
  }

  /** Critical, high, medium, low and informational results weigh 10, 7.5, 5, 2.5 and 0.5, here doubled. */
  ghost function WeightEvaluated(results: seq<RuleResult>): nat {
    20 * Evaluated(results, Critical) + 15 * Evaluated(results, High) + 10 * Evaluated(results, Medium)
    + 5 * Evaluated(results, Low) + Evaluated(results, Informational)
  }

  ghost function WeightPassing(results: seq<RuleResult>): nat {
    20 * Passing(results, Critical) + 15 * Passing(results, High) + 10 * Passing(results, Medium)
    + 5 * Passing(results, Low) + Passing(results, Informational)
  }

  lemma {:induction false} WeighedBySeverity(results: seq<RuleResult>)
    ensures Sum(results, Possible) == WeightEvaluated(results) && Sum(results, Earned) == WeightPassing(results)
  {
    if results == [] {
    } else {
      WeighedBySeverity(results[..|results| - 1]);
    }
  }

  /** The unrounded score is the weight of what passed as a percentage of the weight of what was evaluated. */
  lemma ScoreBySeverity(report: Report, results: seq<RuleResult>)
    requires Reports(report, results)
    ensures report.earned == WeightPassing(results) && report.possible == WeightEvaluated(results)
    ensures report.overall * report.possible as real == 100.0 * report.earned as real
    ensures report.possible == 0 ==> report.overall == 0.0
  {
    WeighedBySeverity(results);
    ScoreIsShare(report, results);
  }

  lemma ScoreIsShare(report: Report, results: seq<RuleResult>)
    requires Reports(report, results)
    ensures report.overall * report.possible as real == 100.0 * report.earned as real
    ensures report.possible == 0 ==> report.overall == 0.0
  {
    EarnedWithinPossible(results);
    Percentage(report.earned, report.possible);
  }

  lemma Percentage(a: nat, b: nat)
    requires a <= b
    ensures Score(a, b) * b as real == 100.0 * a as real && (b == 0 ==> Score(a, b) == 0.0)
  {
    if b > 0 {
      var q := a as real / b as real;
      assert q * b as real == a as real;
    }
  }

  /* Rounding */

  /** `round(overall, 2)`: to the nearest hundredth, ties to the even one. */
  function Rounded(x: real): real {
    var floor := (x * 100.0).Floor;
    var rest := x * 100.0 - floor as real;
    var hundredths := if rest > 0.5 || (rest == 0.5 && floor % 2 == 1) then floor + 1 else floor;
    hundredths as real / 100.0
  }

  /** Rounding gives a whole number of hundredths that is nearest, and the even one of two. */
  lemma RoundedIsNearest(x: real) returns (hundredths: int)
    ensures Rounded(x) * 100.0 == hundredths as real
    ensures -0.5 <= x * 100.0 - hundredths as real <= 0.5
    ensures x * 100.0 - hundredths as real in {-0.5, 0.5} ==> hundredths % 2 == 0
  {
    var floor := (x * 100.0).Floor;
    var rest := x * 100.0 - floor as real;
    hundredths := if rest > 0.5 || (rest == 0.5 && floor % 2 == 1) then floor + 1 else floor;
  }

  /** A report reads 100.00 exactly when the weight it misses is at most one part in 20000. */
  lemma ReadsFullScore(earned: nat, possible: nat)
    requires 0 < possible && earned <= possible
    ensures Rounded(Score(earned, possible)) == 100.0 <==> 20000 * (possible - earned) <= possible
  {
    var x := Score(earned, possible);
    Ratio(earned, possible);
    RoundsToFull(x);
    assert x * possible as real == earned as real * 100.0;
    MissingWeight(x, earned, possible);
  }

  lemma RoundsToFull(x: real)
    requires 0.0 <= x <= 100.0
    ensures Rounded(x) == 100.0 <==> x >= 99.995
  {
    var floor := (x * 100.0).Floor;
    assert floor <= 10000;
    if x >= 99.995 {
      assert floor >= 9999;
    }
  }

  lemma MissingWeight(x: real, earned: nat, possible: nat)
    requires 0 < possible && x * possible as real == earned as real * 100.0
    ensures x >= 99.995 <==> 20000 * (possible - earned) <= possible
  {
    var m := possible as real;
    if x >= 99.995 {
      assert x * m >= 99.995 * m;
    } else {
      assert x * m < 99.995 * m;
    }
  }
}
