/** What every completion order of a fleet's tasks leads to. */
module FleetLaws {
  import opened Wrappers
  import opened FleetModel

  /** The first execution from `attempt` on whose result is kept. */
  ghost function KeptAttempt(fleet: Fleet, device: nat, attempt: nat): nat
    requires device < |fleet.protocols|
    decreases fleet.maxRetries - attempt
  {
    if Final(fleet, device, attempt) then attempt else KeptAttempt(fleet, device, attempt + 1)
  }

  /** What a device's slot should hold: nothing if its task cannot make an attempt. */
  ghost function Expected(fleet: Fleet, device: nat): Option<ExecResult>
    requires device < |fleet.protocols|
  {
    if Started(fleet, device) == Crashed then None else Some(fleet.execute(device, KeptAttempt(fleet, device, 0)))
  }

  /** The kept attempt is the first success, or the last one allowed, and for NETCONF the only one. */
  lemma {:induction false} KeptAttemptIs(fleet: Fleet, device: nat, attempt: nat)
    requires device < |fleet.protocols|
    ensures var kept := KeptAttempt(fleet, device, attempt);
            && attempt <= kept
            && (forall k: nat | attempt <= k < kept :: !fleet.execute(device, k).success)
            && (fleet.protocols[device] == Netconf ==> kept == attempt)
            && (fleet.protocols[device] == Ssh && attempt < fleet.maxRetries ==>
                kept < fleet.maxRetries && (fleet.execute(device, kept).success || kept == fleet.maxRetries - 1))
    decreases fleet.maxRetries - attempt
  {
    if !Final(fleet, device, attempt) {
      KeptAttemptIs(fleet, device, attempt + 1);
    }
  }

  /** The number of tasks that hold a permit of one protocol. */
  ghost function Holders(fleet: Fleet, tasks: seq<Progress>, protocol: Protocol): nat
    requires |tasks| <= |fleet.protocols|
  {
    if tasks == [] then 0 else
      var n := |tasks| - 1;
      Holders(fleet, tasks[..n], protocol) + if tasks[n].Holding? && fleet.protocols[n] == protocol then 1 else 0
  }

  lemma {:induction false} HoldersStep(fleet: Fleet, tasks: seq<Progress>, i: nat, task: Progress, protocol: Protocol)
    requires i < |tasks| <= |fleet.protocols|
    ensures Holders(fleet, tasks[i := task], protocol) ==
            Holders(fleet, tasks, protocol)
            + (if task.Holding? && fleet.protocols[i] == protocol then 1 else 0)
            - (if tasks[i].Holding? && fleet.protocols[i] == protocol then 1 else 0)
  {
    var n := |tasks| - 1;
    if i < n {
      assert tasks[i := task][..n] == tasks[..n][i := task];
      HoldersStep(fleet, tasks[..n], i, task, protocol);
    } else {
      assert tasks[i := task][..n] == tasks[..n];
    }
  }

  /** Each task is on its way to its kept attempt, and its slot is filled exactly when it is done. */
  ghost predicate OnTrack(fleet: Fleet, run: Run, i: nat)
    requires i < |fleet.protocols| == |run.tasks| == |run.results|
  {
    match run.tasks[i]
    case Waiting(k) => Ahead(fleet, i, k) && run.results[i] == None
    case Holding(k) => Ahead(fleet, i, k) && run.results[i] == None
    case Backoff(k) => Ahead(fleet, i, k + 1) && run.results[i] == None
    case Done => run.results[i] == Expected(fleet, i) && run.results[i].Some?
    case Crashed => run.results[i] == Expected(fleet, i) == None
  }

  ghost predicate Ahead(fleet: Fleet, i: nat, attempt: nat)
    requires i < |fleet.protocols|
  {
    Started(fleet, i) == Waiting(0) && KeptAttempt(fleet, i, attempt) == KeptAttempt(fleet, i, 0)
  }

  /** The progress reports count up from one, and report each finished device exactly once. */
  ghost predicate Counted(run: Run) {
    && run.completed == |run.reports|
    && (forall k | 0 <= k < |run.reports| :: run.reports[k].completed == k + 1)
    && (forall k | 0 <= k < |run.reports| ::
      run.reports[k].device < |run.tasks| == |run.results| && run.tasks[run.reports[k].device] == Done
      && run.results[run.reports[k].device] == Some(run.reports[k].result))
    && (forall k, l | 0 <= k < l < |run.reports| :: run.reports[k].device != run.reports[l].device)
    && (forall i | 0 <= i < |run.tasks| && run.tasks[i] == Done ::
          exists k :: 0 <= k < |run.reports| && run.reports[k].device == i)
  }

  ghost predicate Sound(fleet: Fleet, run: Run, sshPermits: nat, netconfPermits: nat) {
    && |run.tasks| == |run.results| == |fleet.protocols|
    && (forall i: nat | i < |fleet.protocols| :: OnTrack(fleet, run, i))
    && Counted(run)
    && run.gauge == Holders(fleet, run.tasks, Ssh) && run.gauge + run.sshFree == sshPermits
    && Holders(fleet, run.tasks, Netconf) + run.netconfFree == netconfPermits
  }

  lemma CountedStep(run: Run, i: nat, task: Progress)
    requires Counted(run) && i < |run.tasks| && run.tasks[i] != Done && task != Done
    ensures Counted(run.(tasks := run.tasks[i := task]))
  {
    var next := run.(tasks := run.tasks[i := task]);
    forall j | 0 <= j < |next.tasks| && next.tasks[j] == Done
      ensures exists k :: 0 <= k < |next.reports| && next.reports[k].device == j
    {
      assert run.tasks[j] == Done;
      var k :| 0 <= k < |run.reports| && run.reports[k].device == j;
      assert next.reports[k].device == j;
    }
  }

  lemma CountedFinish(run: Run, i: nat, result: ExecResult)
    requires Counted(run) && i < |run.tasks| == |run.results| && run.tasks[i] != Done
    ensures Counted(run.(tasks := run.tasks[i := Done], results := run.results[i := Some(result)],
                         completed := run.completed + 1,
                         reports := run.reports + [Report(run.completed + 1, i, result)]))
  {
    var n := |run.reports|;
    var next := run.(tasks := run.tasks[i := Done], results := run.results[i := Some(result)],
                     completed := run.completed + 1, reports := run.reports + [Report(run.completed + 1, i, result)]);
    forall j | 0 <= j < |next.tasks| && next.tasks[j] == Done
      ensures exists k :: 0 <= k < |next.reports| && next.reports[k].device == j
    {
      if j == i {
        assert next.reports[n].device == j;
      } else {
        var k :| 0 <= k < n && run.reports[k].device == j;
        assert next.reports[k].device == j;
      }
    }
  }

  lemma StaysOnTrack(fleet: Fleet, run: Run, step: Step, j: nat)
    requires Enabled(fleet, run, step) && j < |fleet.protocols| && OnTrack(fleet, run, j)
    ensures OnTrack(fleet, Apply(fleet, run, step), j)
  {
  }

  lemma PermitsAddUp(fleet: Fleet, run: Run, step: Step)
    requires Enabled(fleet, run, step)
    ensures var next := Apply(fleet, run, step);
            && |next.tasks| == |run.tasks|
            && Holders(fleet, next.tasks, Ssh) - next.gauge == Holders(fleet, run.tasks, Ssh) - run.gauge
            && next.gauge + next.sshFree == run.gauge + run.sshFree
            && Holders(fleet, next.tasks, Netconf) + next.netconfFree ==
                Holders(fleet, run.tasks, Netconf) + run.netconfFree
  {
    var i := step.device;
    var next := Apply(fleet, run, step);
    HoldersStep(fleet, run.tasks, i, next.tasks[i], Ssh);
    HoldersStep(fleet, run.tasks, i, next.tasks[i], Netconf);
    assert next.tasks == run.tasks[i := next.tasks[i]];
  }

  lemma StaysCounted(fleet: Fleet, run: Run, step: Step)
    requires Enabled(fleet, run, step) && Counted(run)
    ensures Counted(Apply(fleet, run, step))
  {
    var i := step.device;
    var next := Apply(fleet, run, step);
    if next.tasks[i] == Done {
      CountedFinish(run, i, fleet.execute(i, run.tasks[i].attempt));
    } else {
      CountedStep(run, i, next.tasks[i]);
    }
  }

  lemma ApplyKeepsSound(fleet: Fleet, run: Run, step: Step, sshPermits: nat, netconfPermits: nat)
    requires Sound(fleet, run, sshPermits, netconfPermits)
    ensures Sound(fleet, Apply(fleet, run, step), sshPermits, netconfPermits)
  {
    if Enabled(fleet, run, step) {
      var next := Apply(fleet, run, step);
      PermitsAddUp(fleet, run, step);
      StaysCounted(fleet, run, step);
      forall j: nat | j < |fleet.protocols|
        ensures OnTrack(fleet, next, j)
      {
        assert OnTrack(fleet, run, j);
        StaysOnTrack(fleet, run, step, j);
      }
    }
  }

  lemma {:induction false} NobodyHolds(fleet: Fleet, tasks: seq<Progress>, protocol: Protocol)
    requires |tasks| <= |fleet.protocols| && forall t | t in tasks :: !t.Holding?
    ensures Holders(fleet, tasks, protocol) == 0
  {
    if tasks == [] {
    } else {
      NobodyHolds(fleet, tasks[..|tasks| - 1], protocol);
    }
  }

  /**
   Whatever the interleaving, the invariant holds; so the gauge is the number of SSH
   permits held, never above their number.
   */
  lemma {:induction false} RunIsSound(fleet: Fleet, sshPermits: nat, netconfPermits: nat, steps: seq<Step>)
    ensures Sound(fleet, RunAll(fleet, Start(fleet, sshPermits, netconfPermits), steps), sshPermits, netconfPermits)
  {
    var start := Start(fleet, sshPermits, netconfPermits);
    if steps == [] {
      NobodyHolds(fleet, start.tasks, Ssh);
      NobodyHolds(fleet, start.tasks, Netconf);
    } else {
      var n := |steps| - 1;
      RunIsSound(fleet, sshPermits, netconfPermits, steps[..n]);
      ApplyKeepsSound(fleet, RunAll(fleet, start, steps[..n]), steps[n], sshPermits, netconfPermits);
    }
  }

  /**
   When no task can go on, slot i holds device i's outcome, and each of them has been
   reported once, in order of completion.
   */
  lemma SlotsHoldOutcomes(fleet: Fleet, sshPermits: nat, netconfPermits: nat, steps: seq<Step>, run: Run)
    requires run == RunAll(fleet, Start(fleet, sshPermits, netconfPermits), steps)
    requires forall i | 0 <= i < |run.tasks| :: run.tasks[i].Done? || run.tasks[i].Crashed?
    ensures |run.results| == |fleet.protocols|
    ensures forall i: nat | i < |fleet.protocols| :: run.results[i] == Expected(fleet, i)
    ensures fleet.maxRetries > 0 ==> |run.reports| == |fleet.protocols|
    ensures forall k | 0 <= k < |run.reports| ::
      && run.reports[k].completed == k + 1 && run.reports[k].device < |run.results|
      && run.results[run.reports[k].device] == Some(run.reports[k].result)
    ensures forall k, l | 0 <= k < l < |run.reports| :: run.reports[k].device != run.reports[l].device
  {
    RunIsSound(fleet, sshPermits, netconfPermits, steps);
    forall i: nat | i < |fleet.protocols|
      ensures run.results[i] == Expected(fleet, i)
    {
      assert OnTrack(fleet, run, i);
    }
    if fleet.maxRetries > 0 {
      forall i | 0 <= i < |run.tasks|
        ensures run.tasks[i] == Done
      {
        assert OnTrack(fleet, run, i);
        assert Expected(fleet, i).Some?;
      }
      OneReportEach(run);
    }
  }

  /**
   So each slot holds the first success of its device, or the last allowed failure; a NETCONF
   device's only attempt; and nothing for an SSH device that is allowed no attempt.
   */
  lemma SlotsHoldFirstSuccess(fleet: Fleet, sshPermits: nat, netconfPermits: nat, steps: seq<Step>, run: Run, i: nat)
    requires run == RunAll(fleet, Start(fleet, sshPermits, netconfPermits), steps)
    requires forall j | 0 <= j < |run.tasks| :: run.tasks[j].Done? || run.tasks[j].Crashed?
    requires i < |fleet.protocols|
    ensures |run.results| == |fleet.protocols|
    ensures run.results[i].None? <==> fleet.protocols[i] == Ssh && fleet.maxRetries == 0
    ensures run.results[i].Some? ==>
      exists k: nat ::
        && run.results[i].value == fleet.execute(i, k)
        && (fleet.protocols[i] == Netconf ==> k == 0)
        && (fleet.protocols[i] == Ssh ==>
             && k < fleet.maxRetries && (fleet.execute(i, k).success || k == fleet.maxRetries - 1)
             && forall j: nat | j < k :: !fleet.execute(i, j).success)
  {
    SlotsHoldOutcomes(fleet, sshPermits, netconfPermits, steps, run);
    KeptAttemptIs(fleet, i, 0);
  }

  lemma OneReportEach(run: Run)
    requires Counted(run) && forall i | 0 <= i < |run.tasks| :: run.tasks[i] == Done
    ensures |run.reports| == |run.tasks|
  {
    var devices := seq(|run.reports|, k requires 0 <= k < |run.reports| => run.reports[k].device);
    forall i: nat | i < |run.tasks|
      ensures i in devices
    {
      assert run.tasks[i] == Done;
      var k :| 0 <= k < |run.reports| && run.reports[k].device == i;
      assert devices[k] == i;
    }
    CoversAll(devices, |run.tasks|);
  }

  /** Distinct numbers below `n` that include every one of them are `n` in number. */
  lemma {:induction false} CoversAll(s: seq<nat>, n: nat)
    requires forall k, l | 0 <= k < l < |s| :: s[k] != s[l]
    requires forall k | 0 <= k < |s| :: s[k] < n
    requires forall i: nat | i < n :: i in s
    ensures |s| == n
    decreases n
  {
    if s == [] {
      assert n > 0 ==> 0 in s;
    } else {
      assert s[0] < n;
      assert n - 1 in s;
      var k :| 0 <= k < |s| && s[k] == n - 1;
      var rest := s[..k] + s[k + 1..];
      forall i: nat | i < n - 1
        ensures i in rest
      {
        assert i in s;
        var l :| 0 <= l < |s| && s[l] == i;
        assert rest[if l < k then l else l - 1] == i;
      }
      CoversAll(rest, n - 1);
    }
  }

  /* Every run ends */

  /** How far a task is from its end. */
  ghost function Distance(fleet: Fleet, i: nat, task: Progress): nat
    requires i < |fleet.protocols|
  {
    match task
    case Waiting(k) => 3 * (KeptAttempt(fleet, i, k) - Min(k, KeptAttempt(fleet, i, k))) + 2
    case Holding(k) => 3 * (KeptAttempt(fleet, i, k) - Min(k, KeptAttempt(fleet, i, k))) + 1
    case Backoff(k) => 3 * (KeptAttempt(fleet, i, k + 1) - Min(k, KeptAttempt(fleet, i, k + 1)))
    case Done => 0
    case Crashed => 0
  }

  ghost function Min(a: nat, b: nat): nat { if a < b then a else b }

  ghost function Total(fleet: Fleet, tasks: seq<Progress>): nat
    requires |tasks| <= |fleet.protocols|
  {
    if tasks == [] then 0 else Total(fleet, tasks[..|tasks| - 1]) + Distance(fleet, |tasks| - 1, tasks[|tasks| - 1])
  }

  lemma {:induction false} TotalStep(fleet: Fleet, tasks: seq<Progress>, i: nat, task: Progress)
    requires i < |tasks| <= |fleet.protocols| && Distance(fleet, i, task) < Distance(fleet, i, tasks[i])
    ensures Total(fleet, tasks[i := task]) < Total(fleet, tasks)
  {
    var n := |tasks| - 1;
    if i < n {
      assert tasks[i := task][..n] == tasks[..n][i := task];
      TotalStep(fleet, tasks[..n], i, task);
    } else {
      assert tasks[i := task][..n] == tasks[..n];
    }
  }

  /** Each step brings the fleet nearer to its end. */
  lemma EveryStepAdvances(fleet: Fleet, run: Run, step: Step, sshPermits: nat, netconfPermits: nat)
    requires Sound(fleet, run, sshPermits, netconfPermits) && Enabled(fleet, run, step)
    ensures Total(fleet, Apply(fleet, run, step).tasks) < Total(fleet, run.tasks)
  {
    var i := step.device;
    var next := Apply(fleet, run, step);
    assert OnTrack(fleet, run, i);
    var k := run.tasks[i].attempt;
    KeptAttemptIs(fleet, i, k);
    KeptAttemptIs(fleet, i, k + 1);
    assert next.tasks == run.tasks[i := next.tasks[i]];
    TotalStep(fleet, run.tasks, i, next.tasks[i]);
  }

  /** With a permit of each kind there is, somebody can always go on until every task has ended. */
  lemma NeverStuck(fleet: Fleet, run: Run, sshPermits: nat, netconfPermits: nat) returns (step: Step)
    requires Sound(fleet, run, sshPermits, netconfPermits) && sshPermits > 0 && netconfPermits > 0
    requires exists t :: t in run.tasks && !(t.Done? || t.Crashed?)
    ensures Enabled(fleet, run, step)
  {
    var i :| 0 <= i < |run.tasks| && !(run.tasks[i].Done? || run.tasks[i].Crashed?);
    match run.tasks[i]
    case Holding(_) => step := Finish(i);
    case Backoff(_) => step := Wake(i);
    case Waiting(_) =>
      var protocol := fleet.protocols[i];
      if Holders(fleet, run.tasks, protocol) > 0 {
        var j := SomeHolder(fleet, run.tasks, protocol);
        step := Finish(j);
      } else {
        step := Acquire(i);
      }
  }

  lemma {:induction false} SomeHolder(fleet: Fleet, tasks: seq<Progress>, protocol: Protocol) returns (j: nat)
    requires |tasks| <= |fleet.protocols| && Holders(fleet, tasks, protocol) > 0
    ensures j < |tasks| && tasks[j].Holding?
  {
    j := |tasks| - 1;
    if !(tasks[j].Holding? && fleet.protocols[j] == protocol) {
      j := SomeHolder(fleet, tasks[..j], protocol);
    }
  }
}
