/**
 `ComplianceOrchestrator._aggregate_report`: the totals of a report, its
 per-control summaries and its score.
 */
module ComplianceReport {
  import opened RuleModel
  import opened Sums

  datatype ControlSummary = ControlSummary(passed: nat, failed: nat, total: nat, earned: nat, possible: nat)

  datatype Report = Report(
    overall: real, earned: nat, possible: nat,
    passCount: nat, failCount: nat, warnCount: nat, errorCount: nat, skippedCount: nat, exceptionCount: nat,
    results: seq<RuleResult>, controls: map<string, ControlSummary>)

  /* What one result contributes to each figure of the report */

  function Counts(r: RuleResult): int { if r.verdict == Skipped then 0 else 1 }

  function Possible(r: RuleResult): int { if r.verdict == Skipped then 0 else Weight(r.severity) }

  function Earned(r: RuleResult): int { if r.Passed() then Weight(r.severity) else 0 }

  function PassedShare(r: RuleResult): int { if r.Passed() then 1 else 0 }

  function FailedShare(r: RuleResult): int { Counts(r) - PassedShare(r) }

  function Is(verdict: Verdict): RuleResult -> int {
    (r: RuleResult) => if r.verdict == verdict then 1 else 0
  }

  /** The results of one control. */
  ghost function OfControl(results: seq<RuleResult>, control: string): seq<RuleResult> {
    if results == [] then [] else
      var n := |results| - 1;
      var before := OfControl(results[..n], control);
      if results[n].control == control then before + [results[n]] else before
  }

  /** The controls with at least one result that was not skipped. */
  ghost function ControlsOf(results: seq<RuleResult>): set<string> {
    set r | r in results && r.verdict != Skipped :: r.control
  }

  /** The unrounded score: 0 when nothing was evaluated. */
  function Score(earned: int, possible: int): real {
    if possible == 0 then 0.0 else earned as real / possible as real * 100.0
  }

  ghost predicate Summarises(summary: ControlSummary, results: seq<RuleResult>, control: string) {
    && summary.passed == Sum(OfControl(results, control), PassedShare)
    && summary.failed == Sum(OfControl(results, control), FailedShare)
    && summary.total == Sum(OfControl(results, control), Counts)
    && summary.earned == Sum(OfControl(results, control), Earned)
    && summary.possible == Sum(OfControl(results, control), Possible)
  }

  /** What the report says about the results it was made from. */
  ghost predicate Reports(report: Report, results: seq<RuleResult>) {
    && report.results == results
    && report.earned == Sum(results, Earned) && report.possible == Sum(results, Possible)
    && report.overall == Score(report.earned, report.possible)
    && report.passCount == Sum(results, Is(Pass)) && report.failCount == Sum(results, Is(Fail))
    && report.warnCount == Sum(results, Is(Warn)) && report.errorCount == Sum(results, Is(Error))
    && report.skippedCount == Sum(results, Is(Skipped)) && report.exceptionCount == Sum(results, Is(Exception))
    && report.controls.Keys == ControlsOf(results)
    && (forall c | c in report.controls :: Summarises(report.controls[c], results, c))
  }

  lemma FiguresAppend(s: seq<RuleResult>, r: RuleResult)
    ensures Sum(s + [r], PassedShare) == Sum(s, PassedShare) + PassedShare(r)
    ensures Sum(s + [r], FailedShare) == Sum(s, FailedShare) + FailedShare(r)
    ensures Sum(s + [r], Counts) == Sum(s, Counts) + Counts(r)
    ensures Sum(s + [r], Earned) == Sum(s, Earned) + Earned(r)
    ensures Sum(s + [r], Possible) == Sum(s, Possible) + Possible(r)
  {
    SumAppend(s, r, PassedShare);
    SumAppend(s, r, FailedShare);
    SumAppend(s, r, Counts);
    SumAppend(s, r, Earned);
    SumAppend(s, r, Possible);
  }

  method CountVerdict(results: seq<RuleResult>, verdict: Verdict) returns (n: nat)
    ensures n == Sum(results, Is(verdict))
  {
    n := 0;
    for k := 0 to |results|
      invariant n == Sum(results[..k], Is(verdict))
    {
      assert results[..k + 1][..k] == results[..k];
      if results[k].verdict == verdict {
        n := n + 1;
      }
    }
    assert results[..|results|] == results;
  }

  /** A summary of one control after one more result. */
  function Extended(summary: ControlSummary, r: RuleResult, control: string): ControlSummary {
    if r.control != control || r.verdict == Skipped then summary
    else if r.Passed() then
      ControlSummary(summary.passed + 1, summary.failed, summary.total + 1,
                     summary.earned + Weight(r.severity), summary.possible + Weight(r.severity))
    else
      ControlSummary(summary.passed, summary.failed + 1, summary.total + 1,
                     summary.earned, summary.possible + Weight(r.severity))
  }

  lemma SummaryStep(results: seq<RuleResult>, k: nat, control: string, summary: ControlSummary)
    requires k < |results| && Summarises(summary, results[..k], control)
    ensures Summarises(Extended(summary, results[k], control), results[..k + 1], control)
  {
    FigureStep(results, k, control, PassedShare);
    FigureStep(results, k, control, FailedShare);
    FigureStep(results, k, control, Counts);
    FigureStep(results, k, control, Earned);
    FigureStep(results, k, control, Possible);
  }

  /** One more result adds its share to the figure of its own control. */
  lemma FigureStep(results: seq<RuleResult>, k: nat, control: string, f: RuleResult -> int)
    requires k < |results|
    ensures Sum(OfControl(results[..k + 1], control), f) ==
            Sum(OfControl(results[..k], control), f) + if results[k].control == control then f(results[k]) else 0
  {
    assert results[..k + 1][..k] == results[..k];
    SumAppend(OfControl(results[..k], control), results[k], f);
  }

  lemma {:induction false} NoResults(results: seq<RuleResult>, control: string)
    requires control !in ControlsOf(results)
    ensures Summarises(ControlSummary(0, 0, 0, 0, 0), results, control)
  {
    if results == [] {
    } else {
      var n := |results| - 1;
      assert results[n] in results;
      assert forall r | r in results[..n] :: r in results;
      NoResults(results[..n], control);
      FiguresAppend(OfControl(results[..n], control), results[n]);
    }
  }

  lemma ControlsStep(results: seq<RuleResult>, k: nat)
    requires k < |results|
    ensures ControlsOf(results[..k + 1]) ==
            ControlsOf(results[..k]) + (if results[k].verdict == Skipped then {} else {results[k].control})
  {
    assert results[..k + 1] == results[..k] + [results[k]];
  }

  /** The running totals of a prefix of the results. */
  ghost predicate Totals(earned: int, possible: int, controls: map<string, ControlSummary>, results: seq<RuleResult>) {
    && earned == Sum(results, Earned) && possible == Sum(results, Possible)
    && controls.Keys == ControlsOf(results)
    && (forall c | c in controls :: Summarises(controls[c], results, c))
  }

  /** `setdefault` and the updates of the control a result belongs to. */
  method RecordControl(controls: map<string, ControlSummary>, result: RuleResult)
    returns (updated: map<string, ControlSummary>)
    requires result.verdict != Skipped
    ensures updated == controls[result.control :=
      Extended(if result.control in controls then controls[result.control] else ControlSummary(0, 0, 0, 0, 0),
               result, result.control)]
  {
    var ctrl := if result.control in controls then controls[result.control] else ControlSummary(0, 0, 0, 0, 0);
    ctrl := ctrl.(total := ctrl.total + 1, possible := ctrl.possible + Weight(result.severity));
    if result.Passed() {
      ctrl := ctrl.(passed := ctrl.passed + 1, earned := ctrl.earned + Weight(result.severity));
    } else {
      ctrl := ctrl.(failed := ctrl.failed + 1);
    }
    updated := controls[result.control := ctrl];
  }

  /** Recording one result keeps every summary right. */
  lemma RecordKeepsSummaries(results: seq<RuleResult>, k: nat, before: map<string, ControlSummary>,
                             after: map<string, ControlSummary>)
    requires k < |results|
    requires before.Keys == ControlsOf(results[..k]) && forall c | c in before :: Summarises(before[c], results[..k], c)
    requires var r := results[k];
             if r.verdict == Skipped then after == before
             else after == before[r.control :=
               Extended(if r.control in before then before[r.control] else ControlSummary(0, 0, 0, 0, 0), r, r.control)]
    ensures after.Keys == ControlsOf(results[..k + 1])
    ensures forall c | c in after :: Summarises(after[c], results[..k + 1], c)
  {
    var r := results[k];
    ControlsStep(results, k);
    forall c | c in after
      ensures Summarises(after[c], results[..k + 1], c)
    {
      if c in before {
        SummaryStep(results, k, c, before[c]);
      } else {
        NoResults(results[..k], c);
        SummaryStep(results, k, c, ControlSummary(0, 0, 0, 0, 0));
      }
    }
  }

  method TotalUp(results: seq<RuleResult>)
    returns (earned: int, possible: int, controls: map<string, ControlSummary>)
    ensures Totals(earned, possible, controls, results) && earned >= 0 && possible >= 0
  {
    earned, possible, controls := 0, 0, map[];
    for k := 0 to |results|
      invariant Totals(earned, possible, controls, results[..k]) && earned >= 0 && possible >= 0
    {
      var result := results[k];
      assert results[..k + 1] == results[..k] + [result];
      FiguresAppend(results[..k], result);
      ghost var before := controls;
      var weight := Weight(result.severity);
      possible := possible + weight;
      if result.verdict == Skipped {
        possible := possible - weight;
      } else {
        if result.Passed() {
          earned := earned + weight;
        }
        controls := RecordControl(controls, result);
      }
      RecordKeepsSummaries(results, k, before, controls);
    }
    assert results[..|results|] == results;
  }

  method AggregateReport(results: seq<RuleResult>) returns (report: Report)
    ensures Reports(report, results)
  {
    var earned, possible, controls := TotalUp(results);
    var passCount := CountVerdict(results, Pass);
    var failCount := CountVerdict(results, Fail);
    var warnCount := CountVerdict(results, Warn);
    var errorCount := CountVerdict(results, Error);
    var skippedCount := CountVerdict(results, Skipped);
    var exceptionCount := CountVerdict(results, Exception);
    report := Report(Score(earned, possible), earned, possible,
                     passCount, failCount, warnCount, errorCount, skippedCount, exceptionCount, results, controls);
  }
}
