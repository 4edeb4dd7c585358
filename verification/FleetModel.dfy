/**
 Bulk execution over a fleet (backend/app/services/network/device_executor.py): one
 concurrent task per device, a semaphore per protocol, and one result slot per device.
 A task's steps are taking a permit, finishing its execution, and waking after a backoff.
 */
module FleetModel {
  import opened Wrappers

  datatype Protocol = Ssh | Netconf

  datatype ExecResult = ExecResult(host: string, success: bool, output: string)

  /** What the fleet run is given; `execute(i, k)` is what the k-th execution on device i comes to. */
  datatype Fleet = Fleet(protocols: seq<Protocol>, maxRetries: nat, execute: (nat, nat) -> ExecResult)

  /** Where a task stands; the number is the current attempt. A task crashes when there is no attempt to make. */
  datatype Progress = Waiting(attempt: nat) | Holding(attempt: nat) | Backoff(attempt: nat) | Done | Crashed

  /** One call of the progress callback. */
  datatype Report = Report(completed: nat, device: nat, result: ExecResult)

  datatype Run = Run(
    tasks: seq<Progress>, results: seq<Option<ExecResult>>, completed: nat, reports: seq<Report>,
    sshFree: nat, netconfFree: nat, gauge: int)

  datatype Step = Acquire(device: nat) | Finish(device: nat) | Wake(device: nat)

  /** NETCONF makes a single attempt; SSH retries a failure as long as attempts are left. */
  predicate Final(fleet: Fleet, device: nat, attempt: nat)
    requires device < |fleet.protocols|
  {
    fleet.protocols[device] == Netconf || fleet.execute(device, attempt).success || attempt + 1 >= fleet.maxRetries
  }

  function Started(fleet: Fleet, device: nat): Progress
    requires device < |fleet.protocols|
  {
    if fleet.protocols[device] == Ssh && fleet.maxRetries == 0 then Crashed else Waiting(0)
  }

  function Start(fleet: Fleet, sshPermits: nat, netconfPermits: nat): Run {
    Run(seq(|fleet.protocols|, i requires 0 <= i < |fleet.protocols| => Started(fleet, i)),
        seq(|fleet.protocols|, _ => None), 0, [], sshPermits, netconfPermits, 0)
  }

  predicate Enabled(fleet: Fleet, run: Run, step: Step) {
    && step.device < |fleet.protocols| == |run.tasks| == |run.results|
    && match step
       case Acquire(i) =>
         run.tasks[i].Waiting? && (if fleet.protocols[i] == Ssh then run.sshFree > 0 else run.netconfFree > 0)
       case Finish(i) => run.tasks[i].Holding?
       case Wake(i) => run.tasks[i].Backoff?
  }

  /** One step; a step that is not enabled changes nothing. */
  function Apply(fleet: Fleet, run: Run, step: Step): Run {
    if !Enabled(fleet, run, step) then run else
    var i := step.device;
    match step
    case Acquire(_) =>
      var held := run.(tasks := run.tasks[i := Holding(run.tasks[i].attempt)]);
      if fleet.protocols[i] == Ssh then held.(sshFree := run.sshFree - 1, gauge := run.gauge + 1)
      else held.(netconfFree := run.netconfFree - 1)
    case Finish(_) =>
      var attempt := run.tasks[i].attempt;
      var freed := if fleet.protocols[i] == Ssh then run.(sshFree := run.sshFree + 1, gauge := run.gauge - 1)
                   else run.(netconfFree := run.netconfFree + 1);
      if !Final(fleet, i, attempt) then freed.(tasks := run.tasks[i := Backoff(attempt)])
      else
        var result := fleet.execute(i, attempt);
        freed.(tasks := run.tasks[i := Done], results := run.results[i := Some(result)],
               completed := run.completed + 1, reports := run.reports + [Report(run.completed + 1, i, result)])
    case Wake(_) =>
      run.(tasks := run.tasks[i := Waiting(run.tasks[i].attempt + 1)])
  }

  function RunAll(fleet: Fleet, start: Run, steps: seq<Step>): Run {
    if steps == [] then start
    else Apply(fleet, RunAll(fleet, start, steps[..|steps| - 1]), steps[|steps| - 1])
  }

  /** The locals that the tasks of one `execute_fleet` call share, with the semaphores and the connection gauge. */
  class FleetRun {
    const fleet: Fleet
    const results: array<Option<ExecResult>>
    var tasks: seq<Progress>
    var completed: nat
    var reports: seq<Report>
    var sshFree: nat
    var netconfFree: nat
    var gauge: int

    ghost predicate Valid()
      reads this, results
    {
      |tasks| == |fleet.protocols| == results.Length
    }

    ghost function State(): Run
      reads this, results
    {
      Run(tasks, results[..], completed, reports, sshFree, netconfFree, gauge)
    }

    constructor (fleet: Fleet, sshPermits: nat, netconfPermits: nat)
      ensures Valid() && fresh(results) && this.fleet == fleet
      ensures State() == Start(fleet, sshPermits, netconfPermits)
      ensures forall i | 0 <= i < |tasks| ::
        tasks[i] == if fleet.protocols[i] == Ssh && fleet.maxRetries == 0 then Crashed else Waiting(0)
    {
      this.fleet := fleet;
      results := new Option<ExecResult>[|fleet.protocols|](_ => None);
      tasks := seq(|fleet.protocols|, i requires 0 <= i < |fleet.protocols| => Started(fleet, i));
      completed, reports := 0, [];
      sshFree, netconfFree, gauge := sshPermits, netconfPermits, 0;
    }

    method AcquirePermit(i: nat)
      requires Valid() && Enabled(fleet, State(), Acquire(i))
      modifies this
      ensures Valid() && State() == Apply(fleet, old(State()), Acquire(i))
      ensures tasks == old(tasks)[i := Holding(old(tasks)[i].attempt)]
      ensures if fleet.protocols[i] == Ssh
              then sshFree == old(sshFree) - 1 && gauge == old(gauge) + 1 && netconfFree == old(netconfFree)
              else netconfFree == old(netconfFree) - 1 && gauge == old(gauge) && sshFree == old(sshFree)
    {
      if fleet.protocols[i] == Ssh {
        sshFree := sshFree - 1;
        gauge := gauge + 1;
      } else {
        netconfFree := netconfFree - 1;
      }
      tasks := tasks[i := Holding(tasks[i].attempt)];
    }

    /** The execution ends: the permit is returned, and the result is either kept or tried again. */
    method FinishExecution(i: nat)
      requires Valid() && Enabled(fleet, State(), Finish(i))
      modifies this, results
      ensures Valid() && State() == Apply(fleet, old(State()), Finish(i))
      ensures if fleet.protocols[i] == Ssh
              then sshFree == old(sshFree) + 1 && gauge == old(gauge) - 1 && netconfFree == old(netconfFree)
              else netconfFree == old(netconfFree) + 1 && gauge == old(gauge) && sshFree == old(sshFree)
      ensures var attempt := old(tasks)[i].attempt;
              var result := fleet.execute(i, attempt);
              if fleet.protocols[i] == Ssh && !result.success && attempt + 1 < fleet.maxRetries
              then tasks == old(tasks)[i := Backoff(attempt)] && completed == old(completed) && reports == old(reports)
                   && results[..] == old(results[..])
              else tasks == old(tasks)[i := Done] && results[..] == old(results[..])[i := Some(result)]
                   && completed == old(completed) + 1 && reports == old(reports) + [Report(completed, i, result)]
    {
      var attempt := tasks[i].attempt;
      var result := fleet.execute(i, attempt);
      if fleet.protocols[i] == Ssh {
        gauge := gauge - 1;
        sshFree := sshFree + 1;
        if !result.success && attempt + 1 < fleet.maxRetries {
          tasks := tasks[i := Backoff(attempt)];
          return;
        }
      } else {
        netconfFree := netconfFree + 1;
      }
      results[i] := Some(result);
      completed := completed + 1;
      reports := reports + [Report(completed, i, result)];
      tasks := tasks[i := Done];
    }

    method WakeUp(i: nat)
      requires Valid() && Enabled(fleet, State(), Wake(i))
      modifies this
      ensures Valid() && State() == Apply(fleet, old(State()), Wake(i))
      ensures tasks == old(tasks)[i := Waiting(old(tasks)[i].attempt + 1)]
    {
      tasks := tasks[i := Waiting(tasks[i].attempt + 1)];
    }

    /** The list that is returned: a slot left empty reads as a failed task of an unknown device. */
    method Outcomes() returns (outcomes: seq<ExecResult>)
      requires Valid()
      ensures |outcomes| == results.Length
      ensures forall i | 0 <= i < results.Length ::
        outcomes[i] == if results[i].Some? then results[i].value else ExecResult("unknown", false, "Task failed")
    {
      outcomes := [];
      for i := 0 to results.Length
        invariant |outcomes| == i
        invariant forall k | 0 <= k < i ::
          outcomes[k] == if results[k].Some? then results[k].value else ExecResult("unknown", false, "Task failed")
      {
        var outcome := if results[i].Some? then results[i].value else ExecResult("unknown", false, "Task failed");
        outcomes := outcomes + [outcome];
      }
    }
  }
}
