/** What every run of polls of one device satisfies. */
module PollingLaws {
  import DriftDetection
  import ReportLaws
  import opened Polling
  import opened RuleModel

  ghost function Run(setting: Setting, fetches: seq<Fetch>, always: bool): Device {
    if fetches == [] then REGISTERED
    else Monitored(setting, Run(setting, fetches[..|fetches| - 1], always), fetches[|fetches| - 1], always)
  }

  /* The stored score belongs to the stored hash */

  ghost predicate Faithful(setting: Setting, device: Device) {
    && (device.configHash == "" <==> device.baseline.None?)
    && (device.configHash == "" ==> device.score == 0.0)
    && (forall c | setting.hash(c) == device.configHash :: device.score == ScoreOf(setting, c))
  }

  /** In every run, checks that raise included, the score is that of the configuration whose hash is stored. */
  lemma {:induction false} ScoreMatchesHash(setting: Setting, fetches: seq<Fetch>, always: bool)
    requires HashesWell(setting)
    ensures Faithful(setting, Run(setting, fetches, always))
  {
    if fetches == [] {
    } else {
      ScoreMatchesHash(setting, fetches[..|fetches| - 1], always);
    }
  }

  /* Skipping unchanged configurations refines always checking */

  /** The two pollers differ at most in the failure count and the monitoring state. */
  ghost predicate Agree(a: Device, b: Device) {
    a.configHash == b.configHash && a.score == b.score && a.baseline == b.baseline && a.drifts == b.drifts
  }

  lemma StepAgrees(setting: Setting, a: Device, b: Device, fetch: Fetch)
    requires HashesWell(setting) && Faithful(setting, a) && Faithful(setting, b) && Agree(a, b)
    ensures Agree(Monitored(setting, a, fetch, false), Monitored(setting, b, fetch, true))
  {
    if fetch.Fetched? && !NeedsCheck(setting, a, fetch.config) {
      // the extra check finds the stored hash again, and no drift
      assert b.drifts + [] == b.drifts;
    }
  }

  /**
   Over every run of fetches, including checks that raise, the poller that skips unchanged
   configurations has the same hash, score, baseline and drift events as one that never does.
   */
  lemma {:induction false} SkippingRefinesAlwaysChecking(setting: Setting, fetches: seq<Fetch>)
    requires HashesWell(setting)
    ensures Agree(Run(setting, fetches, false), Run(setting, fetches, true))
  {
    if fetches == [] {
    } else {
      var n := |fetches| - 1;
      SkippingRefinesAlwaysChecking(setting, fetches[..n]);
      ScoreMatchesHash(setting, fetches[..n], false);
      ScoreMatchesHash(setting, fetches[..n], true);
      StepAgrees(setting, Run(setting, fetches[..n], false), Run(setting, fetches[..n], true), fetches[n]);
    }
  }

  /* What the skipping poller shows */

  /** The state a reachable device should be in. */
  ghost function Expected(device: Device): MonitoringState {
    if device.drifts != [] then Drifting else Healthy
  }

  /**
   Since the last check that completed, a fetch has failed, or a check that raised has
   recorded the device's first drift events.
   */
  ghost predicate Behind(setting: Setting, fetches: seq<Fetch>) {
    if fetches == [] then false else
      var n := |fetches| - 1;
      BehindNext(setting, Run(setting, fetches[..n], false), fetches[n], Behind(setting, fetches[..n]))
  }

  ghost predicate BehindNext(setting: Setting, before: Device, fetch: Fetch, behind: bool) {
    match fetch
    case NoConfig => true
    case Fetched(config, fault) =>
      if !NeedsCheck(setting, before, config) then behind
      else if !Raises(setting, before, config, fault) then false
      else behind || (fault == DispatchRaises && before.drifts == [] && NewDrifts(setting, before, config) != [])
  }

  ghost predicate ShowsUnless(device: Device, behind: bool) {
    && (device.monitoring == Expected(device) <==> !behind)
    && (device.monitoring == Drifting ==> device.drifts != [])
  }

  lemma ShowsStep(setting: Setting, before: Device, fetch: Fetch, behind: bool)
    requires ShowsUnless(before, behind)
    ensures ShowsUnless(Monitored(setting, before, fetch, false), BehindNext(setting, before, fetch, behind))
  {
    assert before.drifts + [] == before.drifts;
  }

  /** After every run, checks that raise included, the state shown is the expected one unless the poller is behind. */
  lemma {:induction false} ShownUnlessBehind(setting: Setting, fetches: seq<Fetch>)
    ensures ShowsUnless(Run(setting, fetches, false), Behind(setting, fetches))
  {
    if fetches == [] {
    } else {
      var n := |fetches| - 1;
      ShownUnlessBehind(setting, fetches[..n]);
      ShowsStep(setting, Run(setting, fetches[..n], false), fetches[n], Behind(setting, fetches[..n]));
    }
  }

  /**
   After a good fetch, the poller that always checks shows the expected state. The one that
   skips shows the same exactly if it checked, or was not behind. So an unreachable device
   that comes back with its old configuration stays unreachable.
   */
  lemma UnchangedDeviceStaysUnreachable(setting: Setting, fetches: seq<Fetch>, config: Config)
    requires HashesWell(setting)
    ensures var fetch := Fetched(config, NoFault);
            var before := Run(setting, fetches, false);
            var after, checked := Run(setting, fetches + [fetch], false), Run(setting, fetches + [fetch], true);
            && checked.monitoring == Expected(checked)
            && (after.monitoring == checked.monitoring <==>
                NeedsCheck(setting, before, config) || !Behind(setting, fetches))
  {
    var all := fetches + [Fetched(config, NoFault)];
    assert all[..|fetches|] == fetches;
    ShownUnlessBehind(setting, fetches);
    SkippingRefinesAlwaysChecking(setting, fetches);
    SkippingRefinesAlwaysChecking(setting, all);
    ScoreMatchesHash(setting, fetches, false);
  }

  /* Drift events name old failures too */

  /** The rule fails in the compliance report of a configuration. */
  ghost predicate FailsIn(setting: Setting, config: Config, rule: string) {
    exists r :: r in setting.evaluate(config).results
                && r.verdict in {Verdict.Fail, Verdict.Error} && r.ruleId == rule
  }

  /** The rounded score of a configuration. */
  ghost function Score(setting: Setting, config: Config): real {
    ReportLaws.Rounded(setting.evaluate(config).overall)
  }

  lemma PollAddsNewDrifts(setting: Setting, fetches: seq<Fetch>, config: Config, fault: Fault)
    requires HashesWell(setting) && Run(setting, fetches, false).configHash != "" && fault != CheckRaises
    ensures var device := Run(setting, fetches, false);
            Run(setting, fetches + [Fetched(config, fault)], false).drifts ==
            device.drifts + NewDrifts(setting, device, config)
  {
    var all := fetches + [Fetched(config, fault)];
    assert all[..|fetches|] == fetches;
    ScoreMatchesHash(setting, fetches, false);
    CheckAddsNewDrifts(setting, Run(setting, fetches, false), config, fault);
  }

  lemma CheckAddsNewDrifts(setting: Setting, device: Device, config: Config, fault: Fault)
    requires device.baseline.Some? && fault != CheckRaises
    ensures Monitored(setting, device, Fetched(config, fault), false).drifts ==
            device.drifts + NewDrifts(setting, device, config)
  {
    assert device.drifts + [] == device.drifts;
  }

  ghost predicate Names(drifts: seq<DriftDetection.DriftEvent>, rule: string) {
    exists d :: d in drifts && d.ruleId == rule
  }

  /**
   In every run, a poll that fetches a configuration, and whose check does not raise before
   the dispatch, adds drift events for a rule if and only if the configuration differs from
   the one last evaluated, its score lies at least the threshold's fraction of that one's
   positive score above or below it, and the rule fails now. So a rule that failed in the
   one last evaluated is reported again exactly if it still fails.
   */
  lemma DriftNamesAllFailures(setting: Setting, fetches: seq<Fetch>, last: Config, config: Config, fault: Fault,
                              rule: string, s: real, n: real)
    requires HashesWell(setting) && setting.hash(last) == Run(setting, fetches, false).configHash
    requires fault != CheckRaises && s == Score(setting, last) && n == Score(setting, config)
    ensures var before := Run(setting, fetches, false).drifts;
            var after := Run(setting, fetches + [Fetched(config, fault)], false).drifts;
            && before <= after
            && (Names(after[|before|..], rule) <==>
                && config != last && FailsIn(setting, config, rule)
                && s > 0.0 && (n <= s * (1.0 - setting.threshold) || n >= s * (1.0 + setting.threshold)))
  {
    var device := Run(setting, fetches, false);
    StoredScore(setting, fetches, last);
    PollAddsNewDrifts(setting, fetches, config, fault);
    NewDriftsName(setting, device, last, config, rule, s, n);
    Appended(device.drifts, NewDrifts(setting, device, config));
  }

  lemma StoredScore(setting: Setting, fetches: seq<Fetch>, last: Config)
    requires HashesWell(setting) && setting.hash(last) == Run(setting, fetches, false).configHash
    ensures Run(setting, fetches, false).score == Score(setting, last) && Run(setting, fetches, false).configHash != ""
  {
    ScoreMatchesHash(setting, fetches, false);
  }

  lemma Appended(drifts: seq<DriftDetection.DriftEvent>, found: seq<DriftDetection.DriftEvent>)
    ensures (drifts + found)[|drifts|..] == found
  {
  }

  lemma NewDriftsName(setting: Setting, device: Device, last: Config, config: Config, rule: string, s: real, n: real)
    requires HashesWell(setting) && setting.hash(last) == device.configHash
    requires device.score == s && Score(setting, config) == n
    ensures Names(NewDrifts(setting, device, config), rule) <==>
            && config != last && s > 0.0 && (n <= s * (1.0 - setting.threshold) || n >= s * (1.0 + setting.threshold))
            && FailsIn(setting, config, rule)
  {
    NewDriftsAre(setting, device, config, rule, n);
    DifferentHashes(setting, last, config);
  }

  lemma DifferentHashes(setting: Setting, a: Config, b: Config)
    requires HashesWell(setting)
    ensures a == b <==> setting.hash(a) == setting.hash(b)
  {
  }

  lemma NewDriftsAre(setting: Setting, device: Device, config: Config, rule: string, n: real)
    requires Score(setting, config) == n
    ensures Names(NewDrifts(setting, device, config), rule) <==>
            && setting.hash(config) != device.configHash
            && Moved(device.score, n, setting.threshold) && FailsIn(setting, config, rule)
  {
    var results, delta := setting.evaluate(config).results, ScoreOf(setting, config) - device.score;
    DriftsWhenMoved(setting, device.score, Score(setting, config));
    DriftsNameFailures(results, DriftDetection.CalculateSeverity(results, delta), delta,
                       device.configHash, setting.hash(config), rule);
  }

  lemma {:induction false} DriftsNameFailures(
      results: seq<RuleResult>, overall: DriftDetection.DriftSeverity, delta: real, before: string, after: string,
      rule: string)
    ensures Names(DriftDetection.DriftsOf(results, overall, delta, before, after), rule) <==>
            exists r :: r in results && r.Failed() && r.ruleId == rule
  {
    if results == [] {
    } else {
      var n := |results| - 1;
      var earlier := DriftDetection.DriftsOf(results[..n], overall, delta, before, after);
      DriftsNameFailures(results[..n], overall, delta, before, after, rule);
      assert results == results[..n] + [results[n]];
      NamesNext(earlier, DriftDetection.DriftsOf(results, overall, delta, before, after), results[n], rule);
      FailureNext(results[..n], results[n], rule);
    }
  }

  lemma NamesNext(earlier: seq<DriftDetection.DriftEvent>, drifts: seq<DriftDetection.DriftEvent>,
                  last: RuleResult, rule: string)
    requires if !last.Failed() then drifts == earlier else
               && |drifts| == |earlier| + 1 && drifts[..|earlier|] == earlier
               && drifts[|earlier|].ruleId == last.ruleId
    ensures Names(drifts, rule) <==> Names(earlier, rule) || (last.Failed() && last.ruleId == rule)
  {
    if last.Failed() {
      assert drifts == earlier + [drifts[|earlier|]];
      assert forall d :: d in drifts <==> d in earlier || d == drifts[|earlier|];
    }
  }

  lemma FailureNext(results: seq<RuleResult>, last: RuleResult, rule: string)
    ensures (exists r :: r in results + [last] && r.Failed() && r.ruleId == rule) <==>
            (exists r :: r in results && r.Failed() && r.ruleId == rule) || (last.Failed() && last.ruleId == rule)
  {
    assert forall r :: r in results + [last] <==> r in results || r == last;
  }

  /* The unreachable alert */

  /** The number of polls at the end of the run that fetched nothing. */
  ghost function Outage(fetches: seq<Fetch>): nat {
    if fetches == [] || fetches[|fetches| - 1] != NoConfig then 0 else 1 + Outage(fetches[..|fetches| - 1])
  }

  /** Whether the poll just before the final outage fetched a configuration whose check raised. */
  ghost predicate AfterRaise(setting: Setting, fetches: seq<Fetch>) {
    if fetches == [] then false
    else
      var n := |fetches| - 1;
      if fetches[n] == NoConfig then AfterRaise(setting, fetches[..n])
      else StatusOf(setting, Run(setting, fetches[..n], false), fetches[n], false) == CheckFailed
  }

  /** The count is the length of the outage, plus one if the poll before it raised. */
  lemma {:induction false} FailuresCountOutage(setting: Setting, fetches: seq<Fetch>)
    ensures Run(setting, fetches, false).failures == Outage(fetches) + if AfterRaise(setting, fetches) then 1 else 0
  {
    if fetches == [] {
    } else {
      FailuresCountOutage(setting, fetches[..|fetches| - 1]);
    }
  }

  /** Whether the k-th poll of a run sends the alert. */
  ghost predicate AlertAt(setting: Setting, fetches: seq<Fetch>, k: nat)
    requires k < |fetches|
  {
    Alerts(setting, Run(setting, fetches[..k], false), fetches[k])
  }

  /** A maximal outage: the polls from `i` to just before `j`. */
  ghost predicate MaximalOutage(fetches: seq<Fetch>, i: nat, j: nat) {
    && i < j <= |fetches|
    && (forall k | i <= k < j :: fetches[k] == NoConfig)
    && (i > 0 ==> fetches[i - 1] != NoConfig)
    && (j < |fetches| ==> fetches[j] != NoConfig)
  }

  lemma {:induction false} OutageWithin(setting: Setting, fetches: seq<Fetch>, i: nat, k: nat)
    requires i <= k <= |fetches| && (forall l | i <= l < k :: fetches[l] == NoConfig)
    requires i > 0 ==> fetches[i - 1] != NoConfig
    ensures Outage(fetches[..k]) == k - i
    ensures AfterRaise(setting, fetches[..k]) == AfterRaise(setting, fetches[..i])
    decreases k
  {
    if k == i {
    } else {
      OutageWithin(setting, fetches, i, k - 1);
      assert fetches[..k][..k - 1] == fetches[..k - 1];
    }
  }

  /**
   An outage sends exactly one alert if it lasts three polls, at the third; after a check
   that raised, two polls are enough. A shorter one sends none.
   */
  lemma OneAlertPerOutage(setting: Setting, fetches: seq<Fetch>, i: nat, j: nat, k: nat)
    requires MaximalOutage(fetches, i, j) && i <= k < j
    ensures AlertAt(setting, fetches, k) <==> k == i + if AfterRaise(setting, fetches[..i]) then 1 else 2
  {
    OutageWithin(setting, fetches, i, k);
    FailuresCountOutage(setting, fetches[..k]);
  }

  /** No alert is ever sent by a poll that fetched a configuration. */
  lemma NoAlertOutsideOutages(setting: Setting, fetches: seq<Fetch>, k: nat)
    requires k < |fetches| && AlertAt(setting, fetches, k)
    ensures exists i: nat, j: nat :: MaximalOutage(fetches, i, j) && i <= k < j
  {
    var i, j := k, k + 1;
    while i > 0 && fetches[i - 1] == NoConfig
      invariant 0 <= i <= k && forall l | i <= l < j :: fetches[l] == NoConfig
    {
      i := i - 1;
    }
    while j < |fetches| && fetches[j] == NoConfig
      invariant k < j <= |fetches| && forall l | i <= l < j :: fetches[l] == NoConfig
    {
      j := j + 1;
    }
    assert MaximalOutage(fetches, i, j);
  }
}
