/** Drift events and their severities (backend/app/services/compliance/detection/drift_detector.py). */
module DriftDetection {
  import RuleModel
  import ComplianceReport

  datatype DriftSeverity = Critical | High | Medium | Low

  datatype DriftEvent = DriftEvent(
    ruleId: string, severity: DriftSeverity, scoreDelta: real, hashBefore: string, hashAfter: string)

  function Abs(x: real): real { if x < 0.0 then -x else x }

  /** The overall severity: from a critical failure, or else from how far the score moved. */
  function CalculateSeverity(results: seq<RuleModel.RuleResult>, scoreDelta: real): DriftSeverity {
    if (exists r :: r in results && r.Failed() && r.severity == RuleModel.Critical)
       || Abs(scoreDelta) > 20.0 then Critical
    else if Abs(scoreDelta) > 10.0 then High
    else if Abs(scoreDelta) > 5.0 then Medium
    else Low
  }

  /** A rule's own severity, where drift has one of that name. */
  function MapSeverity(severity: RuleModel.Severity, overall: DriftSeverity): DriftSeverity {
    match severity
    case Critical => DriftSeverity.Critical
    case High => DriftSeverity.High
    case Medium => DriftSeverity.Medium
    case Low => DriftSeverity.Low
    case Informational => overall
  }

  /** One event for each failed result, in order, whether or not the rule had failed before. */
  ghost function DriftsOf(results: seq<RuleModel.RuleResult>, overall: DriftSeverity, scoreDelta: real,
                          hashBefore: string, hashAfter: string): seq<DriftEvent>
  {
    if results == [] then [] else
      var last := results[|results| - 1];
      var before := DriftsOf(results[..|results| - 1], overall, scoreDelta, hashBefore, hashAfter);
      if last.Failed()
      then before + [DriftEvent(last.ruleId, MapSeverity(last.severity, overall), scoreDelta, hashBefore, hashAfter)]
      else before
  }

  /** The results with verdict FAIL or ERROR, in order. */
  ghost function FailedAmong(results: seq<RuleModel.RuleResult>): seq<RuleModel.RuleResult> {
    if results == [] then [] else
      var n := |results| - 1;
      var before := FailedAmong(results[..n]);
      if results[n].verdict in {RuleModel.Verdict.Fail, RuleModel.Verdict.Error} then before + [results[n]] else before
  }

  /**
   The severity of a rule's drift: the rule's own, and for an informational rule the
   overall one, which is critical after a critical failure or a move by more than 20, and
   else high above 10, medium above 5, and low.
   */
  ghost predicate SeverityIs(severity: DriftSeverity, rule: RuleModel.Severity,
                             failed: seq<RuleModel.RuleResult>, delta: real)
  {
    match rule
    case Critical => severity == DriftSeverity.Critical
    case High => severity == DriftSeverity.High
    case Medium => severity == DriftSeverity.Medium
    case Low => severity == DriftSeverity.Low
    case Informational =>
      if (exists r :: r in failed && r.severity == RuleModel.Severity.Critical) || delta > 20.0 || delta < -20.0
      then severity == DriftSeverity.Critical
      else if delta > 10.0 || delta < -10.0 then severity == DriftSeverity.High
      else if delta > 5.0 || delta < -5.0 then severity == DriftSeverity.Medium
      else severity == DriftSeverity.Low
  }

  /** One event for each failed result, in order. */
  ghost predicate Reported(drifts: seq<DriftEvent>, results: seq<RuleModel.RuleResult>, delta: real,
                           hashBefore: string, hashAfter: string)
  {
    var failed := FailedAmong(results);
    && |drifts| == |failed|
    && forall i | 0 <= i < |failed| ::
         && drifts[i].ruleId == failed[i].ruleId && drifts[i].scoreDelta == delta
         && drifts[i].hashBefore == hashBefore && drifts[i].hashAfter == hashAfter
         && SeverityIs(drifts[i].severity, failed[i].severity, failed, delta)
  }

  lemma {:induction false} DriftsFollowFailures(results: seq<RuleModel.RuleResult>, overall: DriftSeverity, delta: real,
                                                hashBefore: string, hashAfter: string)
    ensures var drifts, failed := DriftsOf(results, overall, delta, hashBefore, hashAfter), FailedAmong(results);
            && |drifts| == |failed|
            && forall i | 0 <= i < |failed| ::
                 drifts[i] == DriftEvent(failed[i].ruleId, MapSeverity(failed[i].severity, overall),
                                         delta, hashBefore, hashAfter)
  {
    if results == [] {
    } else {
      DriftsFollowFailures(results[..|results| - 1], overall, delta, hashBefore, hashAfter);
    }
  }

  lemma {:induction false} FailedAmongIs(results: seq<RuleModel.RuleResult>)
    ensures forall r :: r in FailedAmong(results) <==>
                        r in results && r.verdict in {RuleModel.Verdict.Fail, RuleModel.Verdict.Error}
  {
    if results == [] {
    } else {
      var n := |results| - 1;
      FailedAmongIs(results[..n]);
      assert results == results[..n] + [results[n]];
    }
  }

  lemma DriftsAreReported(results: seq<RuleModel.RuleResult>, delta: real, hashBefore: string, hashAfter: string)
    ensures Reported(DriftsOf(results, CalculateSeverity(results, delta), delta, hashBefore, hashAfter),
                     results, delta, hashBefore, hashAfter)
  {
    DriftsFollowFailures(results, CalculateSeverity(results, delta), delta, hashBefore, hashAfter);
    FailedAmongIs(results);
    var failed := FailedAmong(results);
    assert (exists r :: r in results && r.Failed() && r.severity == RuleModel.Severity.Critical) <==>
           (exists r :: r in failed && r.severity == RuleModel.Severity.Critical);
  }

  method DetectDrift(report: ComplianceReport.Report, scoreDelta: real, hashBefore: string, hashAfter: string)
    returns (drifts: seq<DriftEvent>)
    ensures drifts ==
            DriftsOf(report.results, CalculateSeverity(report.results, scoreDelta), scoreDelta, hashBefore, hashAfter)
    ensures Reported(drifts, report.results, scoreDelta, hashBefore, hashAfter)
  {
    var severity := CalculateSeverity(report.results, scoreDelta);
    drifts := [];
    for k := 0 to |report.results|
      invariant drifts == DriftsOf(report.results[..k], severity, scoreDelta, hashBefore, hashAfter)
    {
      var result := report.results[k];
      assert report.results[..k + 1][..k] == report.results[..k];
      if result.Failed() {
        var mapped := MapSeverity(result.severity, severity);
        drifts := drifts + [DriftEvent(result.ruleId, mapped, scoreDelta, hashBefore, hashAfter)];
      }
    }
    assert report.results[..|report.results|] == report.results;
    DriftsAreReported(report.results, scoreDelta, hashBefore, hashAfter);
  }
}
