/**
 Polling one device (backend/app/services/compliance/orchestration/polling_orchestrator.py)
 and the monitor's reaction to it (backend/app/services/compliance/continuous_monitor_refactored.py).
 */
module Polling {
  import opened Wrappers
  import opened DriftDetection
  import ComplianceReport
  import ReportLaws

  /** A fetched configuration, in the canonical form that is hashed. */
  type Config = string

  datatype MonitoringState = Healthy | Drifting | Unreachable

  /** The fields of a device's monitoring state that polls change. */
  datatype Device = Device(
    configHash: string, score: real, baseline: Option<real>, monitoring: MonitoringState,
    failures: nat, drifts: seq<DriftEvent>)

  const REGISTERED := Device("", 0.0, None, Healthy, 0, [])

  /** What one device's polls depend on: the hash, the compliance engine, and the drift threshold. */
  datatype Setting = Setting(
    hash: Config -> string, evaluate: Config -> ComplianceReport.Report, threshold: real)

  /**
   Whether, and where, a compliance check raises: in the evaluation or snapshot, or while
   dispatching drift events.
   */
  datatype Fault = NoFault | CheckRaises | DispatchRaises

  datatype Fetch = NoConfig | Fetched(config: Config, fault: Fault)

  datatype Status = Success | FetchFailed | CheckFailed

  ghost predicate HashesWell(setting: Setting) {
    && (forall c :: setting.hash(c) != "")
    && (forall a, b | setting.hash(a) == setting.hash(b) :: a == b)
  }

  function ScoreOf(setting: Setting, config: Config): real {
    ReportLaws.Rounded(setting.evaluate(config).overall)
  }

  /** The score moved by at least the threshold, relative to a positive score. */
  predicate Drifts(setting: Setting, oldScore: real, newScore: real) {
    oldScore > 0.0 && Abs(newScore - oldScore) / oldScore >= setting.threshold
  }

  /** The events of a check that finds the configuration changed. */
  ghost function NewDrifts(setting: Setting, device: Device, config: Config): seq<DriftEvent> {
    var newScore := ScoreOf(setting, config);
    if setting.hash(config) != device.configHash && Drifts(setting, device.score, newScore)
    then
      var results, delta := setting.evaluate(config).results, newScore - device.score;
      DriftsOf(results, CalculateSeverity(results, delta), delta, device.configHash, setting.hash(config))
    else []
  }

  /** The dispatch can only raise when there is drift to dispatch. */
  ghost predicate Raises(setting: Setting, device: Device, config: Config, fault: Fault) {
    fault == CheckRaises
    || (fault == DispatchRaises && setting.hash(config) != device.configHash
        && Drifts(setting, device.score, ScoreOf(setting, config)))
  }

  /** A check that raises while dispatching has already recorded its drift events, and nothing else. */
  ghost function Checked(setting: Setting, device: Device, config: Config, fault: Fault): Device {
    var drifts := device.drifts + NewDrifts(setting, device, config);
    if fault == CheckRaises then device
    else if Raises(setting, device, config, fault) then device.(drifts := drifts)
    else
      var score := ScoreOf(setting, config);
      Device(setting.hash(config), score, if device.baseline.None? then Some(score) else device.baseline,
             if drifts != [] then Drifting else Healthy, device.failures, drifts)
  }

  /** The poller runs a check only on a changed configuration, or before there is a baseline. */
  predicate NeedsCheck(setting: Setting, device: Device, config: Config) {
    setting.hash(config) != device.configHash || device.baseline.None?
  }

  ghost function StatusOf(setting: Setting, device: Device, fetch: Fetch, always: bool): Status {
    match fetch
    case NoConfig => FetchFailed
    case Fetched(config, fault) =>
      if (always || NeedsCheck(setting, device, config)) && Raises(setting, device, config, fault)
      then CheckFailed else Success
  }

  /** One poll; `always` is the poller that would check every configuration it fetches. */
  ghost function Polled(setting: Setting, device: Device, fetch: Fetch, always: bool): Device {
    match fetch
    case NoConfig => device
    case Fetched(config, fault) =>
      var reset := device.(failures := 0);
      var checks := always || NeedsCheck(setting, device, config);
      var checked := if checks then Checked(setting, reset, config, fault) else reset;
      if StatusOf(setting, device, fetch, always) == CheckFailed
      then checked.(failures := checked.failures + 1) else checked
  }

  /** The monitor counts the fetches that failed in a row. */
  ghost function Monitored(setting: Setting, device: Device, fetch: Fetch, always: bool): Device {
    var polled := Polled(setting, device, fetch, always);
    if fetch == NoConfig then polled.(failures := polled.failures + 1, monitoring := Unreachable) else polled
  }

  /** The unreachable alert goes out when the count becomes three. */
  ghost predicate Alerts(setting: Setting, device: Device, fetch: Fetch) {
    fetch == NoConfig && Monitored(setting, device, fetch, false).failures == 3
  }

  /* What a check does, in terms of the two scores */

  /** The score was positive, and moved up or down by at least the fraction `t` of it. */
  ghost predicate Moved(s: real, n: real, t: real) {
    s > 0.0 && (n <= s * (1.0 - t) || n >= s * (1.0 + t))
  }

  lemma DriftsWhenMoved(setting: Setting, s: real, n: real)
    ensures Drifts(setting, s, n) <==> Moved(s, n, setting.threshold)
  {
    if s > 0.0 {
      DividedAtLeast(Abs(n - s), setting.threshold, s);
      Fractions(s, setting.threshold);
    }
  }

  lemma Fractions(s: real, t: real)
    ensures s * (1.0 - t) == s - t * s && s * (1.0 + t) == s + t * s
  {
  }

  lemma DividedAtLeast(a: real, t: real, s: real)
    requires s > 0.0
    ensures a / s >= t <==> a >= t * s
  {
    var ratio := a / s;
    assert ratio * s == a;
    RatioAtLeast(ratio, t, s);
  }

  lemma RatioAtLeast(x: real, y: real, s: real)
    requires s > 0.0
    ensures x >= y <==> x * s >= y * s
  {
    var d := x - y;
    assert d * s == x * s - y * s;
    assert d >= 0.0 ==> d * s >= 0.0;
    assert d < 0.0 ==> d * s < 0.0;
  }

  /**
   The three endings of a check: nothing at all if it raises early; else drift events for
   exactly the failed rules if the hash changed and the score moved; and, unless dispatching
   them raises, the new hash, score and state, and the first score as the baseline.
   */
  ghost predicate CheckEnds(setting: Setting, before: Device, config: Config, fault: Fault, raised: bool, after: Device)
  {
    var report := setting.evaluate(config);
    var n := ReportLaws.Rounded(report.overall);
    var moved := setting.hash(config) != before.configHash && Moved(before.score, n, setting.threshold);
    && after.failures == before.failures
    && (raised <==> fault == CheckRaises || (fault == DispatchRaises && moved))
    && before.drifts <= after.drifts
    && (if moved && fault != CheckRaises
        then Reported(after.drifts[|before.drifts|..], report.results, n - before.score,
                      before.configHash, setting.hash(config))
        else after.drifts == before.drifts)
    && (if raised
        then after.configHash == before.configHash && after.score == before.score
             && after.baseline == before.baseline && after.monitoring == before.monitoring
        else after.configHash == setting.hash(config) && after.score == n
             && after.baseline == (if before.baseline.None? then Some(n) else before.baseline)
             && after.monitoring == (if after.drifts == [] then Healthy else Drifting))
  }

  /** What `RunComplianceCheck` does. */
  lemma CheckedEnds(setting: Setting, device: Device, config: Config, fault: Fault)
    ensures CheckEnds(setting, device, config, fault, Raises(setting, device, config, fault),
                      Checked(setting, device, config, fault))
  {
    var report, after := setting.evaluate(config), Checked(setting, device, config, fault);
    var n := ReportLaws.Rounded(report.overall);
    DriftsWhenMoved(setting, device.score, n);
    DriftsAreReported(report.results, n - device.score, device.configHash, setting.hash(config));
    var found := NewDrifts(setting, device, config);
    assert (device.drifts + found)[|device.drifts|..] == found;
    assert device.drifts + [] == device.drifts;
  }

  /** What one poll leaves of the device, and whether it alerts. */
  ghost predicate PollEnds(setting: Setting, before: Device, fetch: Fetch, alerted: bool, after: Device) {
    match fetch
    case NoConfig =>
      && after == before.(failures := before.failures + 1, monitoring := Unreachable)
      && (alerted <==> after.failures == 3)
    case Fetched(config, fault) =>
      && !alerted
      && if setting.hash(config) == before.configHash && before.baseline.Some? then after == before.(failures := 0)
         else exists raised ::
           && CheckEnds(setting, before.(failures := 0), config, fault, raised, after.(failures := 0))
           && after.failures == if raised then 1 else 0
  }

  lemma MonitoredEnds(setting: Setting, device: Device, fetch: Fetch)
    ensures PollEnds(setting, device, fetch, Alerts(setting, device, fetch), Monitored(setting, device, fetch, false))
  {
    if fetch.Fetched? && NeedsCheck(setting, device, fetch.config) {
      var reset := device.(failures := 0);
      CheckedEnds(setting, reset, fetch.config, fetch.fault);
      var after := Monitored(setting, device, fetch, false);
      var raised := Raises(setting, reset, fetch.config, fetch.fault);
      assert after.(failures := 0) == Checked(setting, reset, fetch.config, fetch.fault);
      assert CheckEnds(setting, reset, fetch.config, fetch.fault, raised, after.(failures := 0));
    }
  }

  class DeviceMonitor {
    const setting: Setting
    var configHash: string
    var score: real
    var baseline: Option<real>
    var monitoring: MonitoringState
    var failures: nat
    var drifts: seq<DriftEvent>

    ghost function State(): Device
      reads this
    {
      Device(configHash, score, baseline, monitoring, failures, drifts)
    }

    constructor (setting: Setting)
      ensures this.setting == setting && State() == REGISTERED
    {
      this.setting := setting;
      configHash, score, baseline, monitoring, failures, drifts := "", 0.0, None, Healthy, 0, [];
    }

    /** `_run_compliance_check`: `raised` stands for the exception that leaves it. */
    method RunComplianceCheck(config: Config, newHash: string, changed: bool, fault: Fault) returns (raised: bool)
      requires newHash == setting.hash(config) && changed == (newHash != configHash)
      modifies this
      ensures raised == Raises(setting, old(State()), config, fault)
      ensures State() == Checked(setting, old(State()), config, fault)
    {
      if fault == CheckRaises {
        return true;
      }
      var report := setting.evaluate(config);
      var newScore := ReportLaws.Rounded(report.overall);
      var oldScore := score;
      if changed && oldScore > 0.0 {
        var scoreDelta := newScore - oldScore;
        var relativeChange := Abs(scoreDelta) / oldScore;
        if relativeChange >= setting.threshold {
          var found := DetectDrift(report, scoreDelta, configHash, newHash);
          drifts := drifts + found;
          if fault == DispatchRaises {
            return true;
          }
        }
      }
      configHash, score := newHash, newScore;
      if baseline.None? {
        baseline := Some(newScore);
      }
      monitoring := if drifts != [] then Drifting else Healthy;
      raised := false;
    }

    /** `poll_device` */
    method PollDevice(fetch: Fetch) returns (status: Status)
      modifies this
      ensures status == StatusOf(setting, old(State()), fetch, false)
      ensures State() == Polled(setting, old(State()), fetch, false)
    {
      if fetch.NoConfig? {
        return FetchFailed;
      }
      failures := 0;
      var newHash := setting.hash(fetch.config);
      var changed := newHash != configHash;
      if changed || baseline.None? {
        var raised := RunComplianceCheck(fetch.config, newHash, changed, fetch.fault);
        if raised {
          failures := failures + 1;
          return CheckFailed;
        }
      }
      status := Success;
    }

    /** `_poll_device`: `alerted` tells whether the unreachable alert was dispatched. */
    method Poll(fetch: Fetch) returns (alerted: bool)
      modifies this
      ensures alerted == Alerts(setting, old(State()), fetch)
      ensures State() == Monitored(setting, old(State()), fetch, false)
      ensures PollEnds(setting, old(State()), fetch, alerted, State())
    {
      MonitoredEnds(setting, State(), fetch);
      var status := PollDevice(fetch);
      alerted := false;
      if status == FetchFailed {
        failures := failures + 1;
        monitoring := Unreachable;
        if failures == 3 {
          alerted := true;
        }
      }
    }
  }
}
