/**
 The poll schedule (backend/app/services/compliance/orchestration/scheduler.py) under the
 monitor that registers devices and runs their polls
 (backend/app/services/compliance/continuous_monitor_refactored.py), inside a running loop.
 */
module Scheduling {

  class PollScheduler {
    var devices: map<string, int>

    constructor ()
      ensures devices == map[]
    {
      devices := map[];
    }

    method Register(id: string, pollAt: int)
      modifies this
      ensures devices == old(devices)[id := pollAt]
    {
      devices := devices[id := pollAt];
    }

    method Deregister(id: string)
      modifies this
      ensures devices == old(devices) - {id}
    {
      devices := devices - {id};
    }

    /** Only a device that is still scheduled gets a new time. */
    method Reschedule(id: string, pollAt: int)
      modifies this
      ensures devices == if id in old(devices) then old(devices)[id := pollAt] else old(devices)
    {
      if id in devices {
        devices := devices[id := pollAt];
      }
    }

    function DueDevices(now: int): set<string>
      reads this
    {
      Due(devices, now)
    }
  }

  function Due(schedule: map<string, int>, now: int): set<string> {
    set id | id in schedule && schedule[id] <= now
  }

  /* The monitor around it, as a machine of steps */

  /** A scheduler call that the monitor has queued as a task of its own. */
  datatype Task = Register(id: string, pollAt: int) | Deregister(id: string)

  /** A poll that has started: when, and with what interval. */
  datatype Start = Start(time: int, interval: int)

  /**
   `intervals` are the known devices. `waiting`, `admitted` and `running` are the polls of
   the current round: not begun, holding the device's state but not yet a permit, and
   started. The loop looks for due devices again only when all of them have ended.
   */
  datatype Monitor = Monitor(
    now: int, intervals: map<string, int>, tasks: seq<Task>, schedule: map<string, int>,
    waiting: set<string>, admitted: map<string, int>, running: map<string, Start>)

  datatype Step =
    | Tick(now: int)
    | RegisterDevice(id: string, interval: int, now: int)
    | DeregisterDevice(id: string, now: int)
    | RunTask(now: int)
    | BeginPoll(id: string, now: int)
    | StartPoll(id: string, now: int)
    | EndPoll(id: string, now: int, rescheduled: bool)

  ghost predicate Enabled(m: Monitor, step: Step) {
    && m.now <= step.now
    && match step
       case Tick(_) => m.waiting == {} && m.admitted == map[] && m.running == map[]
       case RegisterDevice(_, _, _) => true
       case DeregisterDevice(_, _) => true
       case RunTask(_) => m.tasks != []
       case BeginPoll(id, _) => id in m.waiting
       case StartPoll(id, _) => id in m.admitted
       case EndPoll(id, _, _) => id in m.running
  }

  /** The schedule after a queued call has run. */
  function Performed(schedule: map<string, int>, task: Task): map<string, int> {
    match task
    case Register(id, pollAt) => schedule[id := pollAt]
    case Deregister(id) => schedule - {id}
  }

  /** One step; a step that is not enabled changes nothing. */
  ghost function Apply(m: Monitor, step: Step): Monitor {
    if !Enabled(m, step) then m else
    var m := m.(now := step.now);
    match step
    case Tick(now) =>
      m.(waiting := Due(m.schedule, now))
    case RegisterDevice(id, interval, now) =>
      m.(intervals := m.intervals[id := interval], tasks := m.tasks + [Register(id, now)])
    case DeregisterDevice(id, _) =>
      m.(intervals := m.intervals - {id}, tasks := m.tasks + [Deregister(id)])
    case RunTask(_) =>
      m.(tasks := m.tasks[1..], schedule := Performed(m.schedule, m.tasks[0]))
    case BeginPoll(id, _) =>
      // a device that is no longer known is not polled
      if id !in m.intervals then m.(waiting := m.waiting - {id}) else
        m.(waiting := m.waiting - {id}, admitted := m.admitted[id := m.intervals[id]])
    case StartPoll(id, now) =>
      m.(admitted := m.admitted - {id}, running := m.running[id := Start(now, m.admitted[id])])
    case EndPoll(id, _, rescheduled) =>
      var start := m.running[id];
      var ended := m.(running := m.running - {id});
      if rescheduled && id in m.schedule
      then ended.(schedule := m.schedule[id := start.time + start.interval])
      else ended
  }

  ghost function Run(m: Monitor, steps: seq<Step>): Monitor {
    if steps == [] then m else Apply(Run(m, steps[..|steps| - 1]), steps[|steps| - 1])
  }

  ghost function Empty(now: int): Monitor {
    Monitor(now, map[], [], map[], {}, map[], map[])
  }

  /* The monitor's own code */

  /** Each method is one step of the machine, taken when it is enabled. */
  class ContinuousMonitor {
    const scheduler: PollScheduler
    var devices: map<string, int>
    var tasks: seq<Task>
    var waiting: set<string>
    var admitted: map<string, int>
    var running: map<string, Start>
    ghost var clock: int

    ghost function State(): Monitor
      reads this, scheduler
    {
      Monitor(clock, devices, tasks, scheduler.devices, waiting, admitted, running)
    }

    constructor (now: int)
      ensures State() == Empty(now) && fresh(scheduler)
    {
      scheduler := new PollScheduler();
      devices, tasks, waiting, admitted, running := map[], [], {}, map[], map[];
      clock := now;
    }

    method RegisterDevice(id: string, interval: int, now: int)
      requires Enabled(State(), Step.RegisterDevice(id, interval, now))
      modifies this
      ensures State() == Apply(old(State()), Step.RegisterDevice(id, interval, now))
      ensures devices == old(devices)[id := interval] && tasks == old(tasks) + [Task.Register(id, now)]
    {
      clock := now;
      devices := devices[id := interval];
      tasks := tasks + [Task.Register(id, now)];
    }

    method DeregisterDevice(id: string, now: int)
      requires Enabled(State(), Step.DeregisterDevice(id, now))
      modifies this
      ensures State() == Apply(old(State()), Step.DeregisterDevice(id, now))
      ensures id !in devices && tasks == old(tasks) + [Task.Deregister(id)]
      ensures forall other | other != id && other in old(devices) ::
        other in devices && devices[other] == old(devices)[other]
    {
      clock := now;
      devices := devices - {id};
      tasks := tasks + [Task.Deregister(id)];
    }

    /** The event loop runs the oldest queued scheduler call. */
    method RunTask(now: int)
      requires Enabled(State(), Step.RunTask(now))
      modifies this, scheduler
      ensures State() == Apply(old(State()), Step.RunTask(now))
      ensures tasks == old(tasks)[1..]
      ensures match old(tasks)[0]
              case Register(id, pollAt) => id in scheduler.devices && scheduler.devices[id] == pollAt
              case Deregister(id) => id !in scheduler.devices
    {
      clock := now;
      match tasks[0] {
        case Register(id, pollAt) => scheduler.Register(id, pollAt);
        case Deregister(id) => scheduler.Deregister(id);
      }
      tasks := tasks[1..];
    }

    /** One look at the schedule, and the polls of the devices that are due. */
    method Tick(now: int)
      requires Enabled(State(), Step.Tick(now))
      modifies this
      ensures State() == Apply(old(State()), Step.Tick(now))
      ensures forall id :: id in waiting <==> id in scheduler.devices && scheduler.devices[id] <= now
    {
      clock := now;
      waiting := scheduler.DueDevices(now);
    }

    /** A poll looks its device up. */
    method BeginPoll(id: string, now: int)
      requires Enabled(State(), Step.BeginPoll(id, now))
      modifies this
      ensures State() == Apply(old(State()), Step.BeginPoll(id, now))
      ensures id !in waiting
      ensures id in devices ==> id in admitted && admitted[id] == devices[id]
      ensures id !in devices ==> admitted == old(admitted)
    {
      clock := now;
      waiting := waiting - {id};
      if id in devices {
        admitted := admitted[id := devices[id]];
      }
    }

    /** The poll gets its permit, and fixes the time of the next one. */
    method StartPoll(id: string, now: int)
      requires Enabled(State(), Step.StartPoll(id, now))
      modifies this
      ensures State() == Apply(old(State()), Step.StartPoll(id, now))
      ensures id !in admitted && id in running && running[id] == Start(now, old(admitted)[id])
    {
      clock := now;
      running := running[id := Start(now, admitted[id])];
      admitted := admitted - {id};
    }

    /** The poll ends; one that raised does not get as far as its reschedule. */
    method EndPoll(id: string, now: int, raised: bool)
      requires Enabled(State(), Step.EndPoll(id, now, !raised))
      modifies this, scheduler
      ensures State() == Apply(old(State()), Step.EndPoll(id, now, !raised))
      ensures id !in running && scheduler.devices.Keys == old(scheduler.devices).Keys
      ensures !raised && id in scheduler.devices ==>
                scheduler.devices[id] == old(running)[id].time + old(running)[id].interval
      ensures raised ==> scheduler.devices == old(scheduler.devices)
    {
      clock := now;
      var start := running[id];
      running := running - {id};
      if !raised {
        scheduler.Reschedule(id, start.time + start.interval);
      }
    }
  }

  /* Polls of one device */

  /** What every run keeps: a device has at most one poll in a round. */
  ghost predicate OnePollEach(m: Monitor) {
    && (forall id | id in m.admitted :: id !in m.waiting)
    && (forall id | id in m.running :: id !in m.waiting && id !in m.admitted)
  }

  lemma {:induction false} RunKeepsOnePollEach(now: int, steps: seq<Step>)
    ensures OnePollEach(Run(Empty(now), steps))
  {
    if steps == [] {
    } else {
      RunKeepsOnePollEach(now, steps[..|steps| - 1]);
    }
  }

  /** The k-th step of a run is enabled. */
  ghost predicate Happens(now: int, steps: seq<Step>, k: nat)
    requires k < |steps|
  {
    Enabled(Run(Empty(now), steps[..k]), steps[k])
  }

  ghost predicate Starts(now: int, steps: seq<Step>, k: nat, id: string)
    requires k < |steps|
  {
    Happens(now, steps, k) && steps[k].StartPoll? && steps[k].id == id
  }

  /** The k-th step runs a queued registration of the device. */
  ghost predicate Registers(now: int, steps: seq<Step>, k: nat, id: string)
    requires k < |steps|
  {
    var m := Run(Empty(now), steps[..k]);
    Happens(now, steps, k) && steps[k].RunTask? && m.tasks[0].Register? && m.tasks[0].id == id
  }

  /** The interval with which the poll that starts at step `k` is scheduled again. */
  ghost function IntervalAt(now: int, steps: seq<Step>, k: nat): int
    requires k < |steps| && steps[k].StartPoll?
  {
    var m := Run(Empty(now), steps[..k]);
    if steps[k].id in m.admitted then m.admitted[steps[k].id] else 0
  }

  lemma RunNext(now: int, steps: seq<Step>, k: nat)
    requires k < |steps|
    ensures Run(Empty(now), steps[..k + 1]) == Apply(Run(Empty(now), steps[..k]), steps[k])
  {
    assert steps[..k + 1][..k] == steps[..k];
  }

  /** Until another poll of the device starts, only the one that started at `start` can be running. */
  lemma {:induction false} StillTheSamePoll(now: int, steps: seq<Step>, i: nat, k: nat, id: string, start: Start)
    requires i < k <= |steps| && Starts(now, steps, i, id) && start == Start(steps[i].now, IntervalAt(now, steps, i))
    requires forall l | i < l < k :: !Starts(now, steps, l, id)
    ensures var m := Run(Empty(now), steps[..k]); id in m.running ==> m.running[id] == start
    decreases k
  {
    RunNext(now, steps, k - 1);
    if k - 1 > i {
      StillTheSamePoll(now, steps, i, k - 1, id, start);
      assert !Starts(now, steps, k - 1, id);
      OtherStepsKeepPoll(Run(Empty(now), steps[..k - 1]), steps[k - 1], id, start);
    } else {
      assert steps[i] == StartPoll(id, steps[i].now);
    }
  }

  lemma OtherStepsKeepPoll(m: Monitor, step: Step, id: string, start: Start)
    requires id in m.running ==> m.running[id] == start
    requires !(Enabled(m, step) && step.StartPoll? && step.id == id)
    ensures id in Apply(m, step).running ==> Apply(m, step).running[id] == start
  {
  }

  /** Before `time`, no poll of the device is on its way, and none is scheduled. */
  ghost predicate NotBefore(m: Monitor, id: string, time: int) {
    m.now < time ==>
      && id !in m.waiting && id !in m.admitted && id !in m.running
      && (id in m.schedule ==> time <= m.schedule[id])
  }

  lemma StepKeepsNotBefore(m: Monitor, step: Step, id: string, time: int)
    requires NotBefore(m, id, time)
    requires step.RunTask? && m.tasks != [] && m.tasks[0].Register? ==> m.tasks[0].id != id
    ensures NotBefore(Apply(m, step), id, time)
  {
  }

  lemma {:induction false} RunKeepsNotBefore(now: int, steps: seq<Step>, k: nat, j: nat, id: string, time: int)
    requires k <= j <= |steps| && NotBefore(Run(Empty(now), steps[..k]), id, time)
    requires forall l | k <= l < j :: !Registers(now, steps, l, id)
    ensures NotBefore(Run(Empty(now), steps[..j]), id, time)
    decreases j
  {
    if k == j {
    } else {
      RunKeepsNotBefore(now, steps, k, j - 1, id, time);
      RunNext(now, steps, j - 1);
      assert !Registers(now, steps, j - 1, id);
      if Happens(now, steps, j - 1) {
        StepKeepsNotBefore(Run(Empty(now), steps[..j - 1]), steps[j - 1], id, time);
      }
    }
  }

  /**
   In every run, if a poll of a device starts at step i and ends with its reschedule at
   step k, then every later start of one, at step j, is at least the interval of the first
   poll after it, unless a registration of the device has run in between.
   */
  lemma PollsAreSpaced(now: int, steps: seq<Step>, i: nat, k: nat, j: nat, id: string)
    requires i < k < j < |steps| && Starts(now, steps, i, id) && Starts(now, steps, j, id)
    requires Happens(now, steps, k) && steps[k] == EndPoll(id, steps[k].now, true)
    requires forall l | i < l < k :: !Starts(now, steps, l, id)
    requires forall l | k < l < j :: !Registers(now, steps, l, id)
    ensures steps[j].now - steps[i].now >= IntervalAt(now, steps, i)
  {
    var interval := IntervalAt(now, steps, i);
    RunKeepsOnePollEach(now, steps[..k]);
    StillTheSamePoll(now, steps, i, k, id, Start(steps[i].now, interval));
    RunNext(now, steps, k);
    RunKeepsNotBefore(now, steps, k + 1, j, id, steps[i].now + interval);
  }

  /* Deregistration */

  /** No registration of the device is queued. */
  ghost predicate NotQueued(m: Monitor, id: string) {
    forall t | t in m.tasks :: t.Register? ==> t.id != id
  }

  lemma StaysOut(m: Monitor, step: Step, id: string)
    requires id !in m.schedule && NotQueued(m, id)
    requires !(step.RegisterDevice? && step.id == id)
    ensures id !in Apply(m, step).schedule && NotQueued(Apply(m, step), id)
  {
    if Enabled(m, step) && step.RunTask? {
      assert m.tasks[0] in m.tasks;
      assert forall t | t in m.tasks[1..] :: t in m.tasks;
    }
  }

  /**
   Once a device has left the schedule with no registration queued, no run of steps brings
   it back, not even the end of a poll that was in flight, unless it is registered again.
   */
  lemma {:induction false} DeregisteredStaysOut(m: Monitor, steps: seq<Step>, id: string)
    requires id !in m.schedule && NotQueued(m, id)
    requires forall s | s in steps :: !(s.RegisterDevice? && s.id == id)
    ensures id !in Run(m, steps).schedule && NotQueued(Run(m, steps), id)
  {
    if steps == [] {
    } else {
      var n := |steps| - 1;
      assert forall s | s in steps[..n] :: s in steps;
      DeregisteredStaysOut(m, steps[..n], id);
      assert steps[n] in steps;
      StaysOut(Run(m, steps[..n]), steps[n], id);
    }
  }

  /** Running the queued deregistration of a device puts it in that position, if nothing registers it after. */
  lemma DeregisterTaskRemoves(m: Monitor, id: string, now: int)
    requires Enabled(m, RunTask(now)) && m.tasks[0] == Deregister(id)
    requires forall k | 1 <= k < |m.tasks| :: m.tasks[k].Register? ==> m.tasks[k].id != id
    ensures var after := Apply(m, RunTask(now)); id !in after.schedule && NotQueued(after, id)
  {
    forall t | t in m.tasks[1..]
      ensures t.Register? ==> t.id != id
    {
      var k :| 0 <= k < |m.tasks[1..]| && m.tasks[1..][k] == t;
      assert m.tasks[k + 1] == t;
    }
  }

  /** How many queued calls have run in the steps from `i` to just before `j`. */
  ghost function RunsBetween(now: int, steps: seq<Step>, i: nat, j: nat): nat
    requires i <= j <= |steps|
  {
    if i == j then 0 else
      RunsBetween(now, steps, i, j - 1) + if Happens(now, steps, j - 1) && steps[j - 1].RunTask? then 1 else 0
  }

  /**
   What is left of the calls `queued` when `ran` of them have run: they come first, and no
   registration of the device after them; once they are all gone, the device is out.
   */
  ghost predicate Leaving(m: Monitor, id: string, queued: seq<Task>, ran: nat) {
    if ran < |queued| then
      && queued[ran..] <= m.tasks
      && forall k | |queued| - ran <= k < |m.tasks| :: m.tasks[k].Register? ==> m.tasks[k].id != id
    else id !in m.schedule && NotQueued(m, id)
  }

  ghost predicate LeavingAt(now: int, steps: seq<Step>, j: nat, id: string, queued: seq<Task>, ran: nat)
    requires j <= |steps|
  {
    Leaving(Run(Empty(now), steps[..j]), id, queued, ran)
  }

  lemma StepKeepsLeaving(m: Monitor, step: Step, id: string, queued: seq<Task>, ran: nat)
    requires Leaving(m, id, queued, ran) && queued != [] && queued[|queued| - 1] == Deregister(id)
    requires Enabled(m, step) && !(step.RegisterDevice? && step.id == id)
    ensures Leaving(Apply(m, step), id, queued, ran + if step.RunTask? then 1 else 0)
  {
    if ran >= |queued| {
      StaysOut(m, step, id);
    } else if step.RunTask? {
      assert m.tasks[0] == queued[ran];
      if ran + 1 == |queued| {
        DeregisterTaskRemoves(m, id, step.now);
      } else {
        var after := Apply(m, step);
        assert queued[ran + 1..] == queued[ran..][1..];
        assert forall k | 0 <= k < |after.tasks| :: after.tasks[k] == m.tasks[k + 1];
      }
    }
  }

  lemma LeavingUntilOut(now: int, steps: seq<Step>, i: nat, j: nat, id: string)
    requires i < j <= |steps| && Happens(now, steps, i) && steps[i] == DeregisterDevice(id, steps[i].now)
    requires forall l | i < l < j :: !(steps[l].RegisterDevice? && steps[l].id == id)
    ensures Leaving(Run(Empty(now), steps[..j]), id, Run(Empty(now), steps[..i + 1]).tasks,
                    RunsBetween(now, steps, i + 1, j))
  {
    RunNext(now, steps, i);
    var before, queued := Run(Empty(now), steps[..i]).tasks, Run(Empty(now), steps[..i + 1]).tasks;
    assert queued == before + [Deregister(id)];
    LeavingFrom(now, steps, i + 1, j, id, queued);
  }

  lemma {:induction false} LeavingFrom(now: int, steps: seq<Step>, i: nat, j: nat, id: string, queued: seq<Task>)
    requires i <= j <= |steps| && queued != [] && queued[|queued| - 1] == Deregister(id)
    requires LeavingAt(now, steps, i, id, queued, 0)
    requires forall l | i <= l < j :: !(steps[l].RegisterDevice? && steps[l].id == id)
    ensures LeavingAt(now, steps, j, id, queued, RunsBetween(now, steps, i, j))
    decreases j
  {
    if j == i {
    } else {
      var ran := RunsBetween(now, steps, i, j - 1);
      LeavingFrom(now, steps, i, j - 1, id, queued);
      LeavingNext(now, steps, j - 1, id, queued, ran);
    }
  }

  lemma LeavingNext(now: int, steps: seq<Step>, j: nat, id: string, queued: seq<Task>, ran: nat)
    requires j < |steps| && !(steps[j].RegisterDevice? && steps[j].id == id)
    requires queued != [] && queued[|queued| - 1] == Deregister(id)
    requires LeavingAt(now, steps, j, id, queued, ran)
    ensures LeavingAt(now, steps, j + 1, id, queued,
                      ran + if Happens(now, steps, j) && steps[j].RunTask? then 1 else 0)
  {
    RunNext(now, steps, j);
    if Happens(now, steps, j) {
      StepKeepsLeaving(Run(Empty(now), steps[..j]), steps[j], id, queued, ran);
    }
  }

  /**
   In every run, once a device is deregistered and the scheduler's calls queued by then have
   run, it is not in the schedule, then or ever after, unless it is registered again.
   */
  lemma DeregisteredForGood(now: int, steps: seq<Step>, i: nat, j: nat, id: string)
    requires i < j <= |steps| && Happens(now, steps, i) && steps[i] == DeregisterDevice(id, steps[i].now)
    requires forall l | i < l < j :: !(steps[l].RegisterDevice? && steps[l].id == id)
    requires RunsBetween(now, steps, i + 1, j) >= |Run(Empty(now), steps[..i + 1]).tasks|
    ensures id !in Run(Empty(now), steps[..j]).schedule
  {
    LeavingUntilOut(now, steps, i, j, id);
  }

  /* Due devices are polled */

  /** The k-th step is one of the first that the round's poll of the device takes. */
  ghost predicate Begins(now: int, steps: seq<Step>, k: nat, id: string)
    requires k < |steps|
  {
    Happens(now, steps, k) && steps[k].BeginPoll? && steps[k].id == id
  }

  /** Until its poll begins, a waiting device keeps the round from ending. */
  lemma {:induction false} WaitsForPoll(now: int, steps: seq<Step>, i: nat, j: nat, id: string)
    requires i <= j <= |steps| && id in Run(Empty(now), steps[..i]).waiting
    requires forall k | i <= k < j :: !Begins(now, steps, k, id)
    ensures id in Run(Empty(now), steps[..j]).waiting
    decreases j
  {
    if j == i {
    } else {
      WaitsForPoll(now, steps, i, j - 1, id);
      RunNext(now, steps, j - 1);
      assert !Begins(now, steps, j - 1, id);
      StillWaits(Run(Empty(now), steps[..j - 1]), steps[j - 1], id);
    }
  }

  lemma StillWaits(m: Monitor, step: Step, id: string)
    requires id in m.waiting && !(Enabled(m, step) && step.BeginPoll? && step.id == id)
    ensures id in Apply(m, step).waiting
  {
  }

  /**
   In every run, if a device is scheduled at or before the time of one look at the
   schedule, its poll begins before the next look.
   */
  lemma DueDevicesArePolled(now: int, steps: seq<Step>, i: nat, j: nat, id: string)
    requires i < j < |steps| && Happens(now, steps, i) && steps[i].Tick? && Happens(now, steps, j) && steps[j].Tick?
    requires var schedule := Run(Empty(now), steps[..i]).schedule; id in schedule && schedule[id] <= steps[i].now
    ensures exists k :: i < k < j && Begins(now, steps, k, id)
  {
    RunNext(now, steps, i);
    if forall k | i + 1 <= k < j :: !Begins(now, steps, k, id) {
      WaitsForPoll(now, steps, i + 1, j, id);
      assert false;
    }
  }
}
