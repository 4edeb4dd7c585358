/** What every interleaving of handlers keeps. */
module EventBusLaws {
  import opened EventBusModel

  /** A task that ended has made a legal number of attempts, and one that has not can make more. */
  ghost predicate WithinRetries(task: Task) {
    match task.progress
    case Pending => task.attempts < MAX_RETRIES
    case Delivered => 1 <= task.attempts <= MAX_RETRIES
    case Dead => task.attempts == MAX_RETRIES
    case Cancelled => task.attempts < MAX_RETRIES
  }

  /** The entries of the tasks that have given up. */
  ghost function DeadEntries(tasks: seq<Task>): multiset<Entry> {
    if tasks == [] then multiset{} else
      var last, rest := tasks[|tasks| - 1], DeadEntries(tasks[..|tasks| - 1]);
      if last.progress == Dead then rest + multiset{EntryOf(last)} else rest
  }

  /** The last elements of a sequence, at most `n`. */
  ghost function LastOf(s: seq<Entry>, n: nat): seq<Entry> {
    if |s| <= n then s else s[|s| - n..]
  }

  ghost predicate Sound(bus: Bus) {
    && (forall t | t in bus.tasks :: WithinRetries(t))
    && multiset(bus.pushed) == DeadEntries(bus.tasks)
    && bus.failed == |bus.pushed|
    && bus.failed == |bus.entries| + bus.evicted + bus.drained
    && bus.base <= |bus.pushed|
    && bus.entries == LastOf(bus.pushed[bus.base..], MAX_SIZE)
  }

  lemma {:induction false} NewTasksAreAlive(tasks: seq<Task>, added: seq<Task>)
    requires forall t | t in added :: t.progress == Pending
    ensures DeadEntries(tasks + added) == DeadEntries(tasks)
  {
    if added == [] {
      assert tasks + added == tasks;
    } else {
      var n := |added| - 1;
      assert added[n] in added;
      assert (tasks + added)[..|tasks| + n] == tasks + added[..n];
      assert forall t | t in added[..n] :: t in added;
      NewTasksAreAlive(tasks, added[..n]);
    }
  }

  /** Ending a pending task adds its entry exactly if it gives up. */
  lemma {:induction false} EndingATask(tasks: seq<Task>, k: nat, task: Task)
    requires k < |tasks| && tasks[k].progress == Pending
    ensures DeadEntries(tasks[k := task]) ==
            if task.progress == Dead then DeadEntries(tasks) + multiset{EntryOf(task)} else DeadEntries(tasks)
  {
    var n := |tasks| - 1;
    var ended := tasks[k := task];
    if k < n {
      assert ended[..n] == tasks[..n][k := task];
      EndingATask(tasks[..n], k, task);
    } else {
      assert ended[..n] == tasks[..n];
    }
  }

  lemma PushKeepsLast(pushed: seq<Entry>, entry: Entry)
    ensures Pushed(LastOf(pushed, MAX_SIZE), entry) == LastOf(pushed + [entry], MAX_SIZE)
  {
  }

  lemma AttemptKeepsSound(bus: Bus, task: nat, succeeds: bool)
    requires Sound(bus) && IsPending(bus, task)
    ensures Sound(Apply(bus, Attempt(task, succeeds)))
  {
    var next := Attempted(bus.tasks[task], succeeds);
    assert bus.tasks[task] in bus.tasks;
    EndingATask(bus.tasks, task, next);
    if next.progress == Dead {
      PushKeepsLast(bus.pushed[bus.base..], EntryOf(next));
      assert (bus.pushed + [EntryOf(next)])[bus.base..] == bus.pushed[bus.base..] + [EntryOf(next)];
    }
  }

  lemma ApplyKeepsSound(bus: Bus, step: Step)
    requires Sound(bus)
    ensures Sound(Apply(bus, step))
  {
    match step
    case Subscribe(_, _) =>
    case Publish(event) =>
      NewTasksAreAlive(bus.tasks, Tasks(event, HandlersOf(bus, event.kind)));
    case Attempt(task, succeeds) =>
      if IsPending(bus, task) {
        AttemptKeepsSound(bus, task, succeeds);
      }
    case Cancel(task) =>
      if IsPending(bus, task) {
        assert bus.tasks[task] in bus.tasks;
        EndingATask(bus.tasks, task, bus.tasks[task].(progress := Cancelled));
      }
    case Drain =>
      assert bus.pushed[|bus.pushed|..] == [];
  }

  /**
   After every run: no handler is called more than `MAX_RETRIES` times for an event, those
   that gave up were called exactly that often and account for exactly the entries ever
   pushed, the failure count is what is queued, evicted and drained together, and the
   queue holds the latest pushes since the last drain, in order.
   */
  lemma {:induction false} RunIsSound(steps: seq<Step>)
    ensures Sound(Run(EMPTY, steps))
  {
    if steps == [] {
    } else {
      RunIsSound(steps[..|steps| - 1]);
      ApplyKeepsSound(Run(EMPTY, steps[..|steps| - 1]), steps[|steps| - 1]);
    }
  }

  /** A task that has ended never changes again: it is delivered, dead or cancelled once and for all. */
  lemma {:induction false} EndedTasksStay(bus: Bus, steps: seq<Step>, task: nat)
    requires task < |bus.tasks| && bus.tasks[task].progress != Pending
    ensures task < |Run(bus, steps).tasks| && Run(bus, steps).tasks[task] == bus.tasks[task]
  {
    if steps == [] {
    } else {
      EndedTasksStay(bus, steps[..|steps| - 1], task);
    }
  }

  /** The attempts that pending tasks have left. */
  ghost function Remaining(tasks: seq<Task>): nat {
    if tasks == [] then 0 else Remaining(tasks[..|tasks| - 1]) + Left(tasks[|tasks| - 1])
  }

  ghost function Left(task: Task): nat {
    if task.progress == Pending && task.attempts < MAX_RETRIES then MAX_RETRIES - task.attempts else 0
  }

  lemma {:induction false} RemainingStep(tasks: seq<Task>, k: nat, task: Task)
    requires k < |tasks| && Left(task) < Left(tasks[k])
    ensures Remaining(tasks[k := task]) < Remaining(tasks)
  {
    var n := |tasks| - 1;
    if k < n {
      assert tasks[k := task][..n] == tasks[..n][k := task];
      RemainingStep(tasks[..n], k, task);
    } else {
      assert tasks[k := task][..n] == tasks[..n];
    }
  }

  /** Every attempt uses up some of what is left, so a fixed set of tasks always runs to its end. */
  lemma AttemptsRunOut(bus: Bus, task: nat, succeeds: bool)
    requires Sound(bus) && IsPending(bus, task)
    ensures Remaining(Apply(bus, Attempt(task, succeeds)).tasks) < Remaining(bus.tasks)
  {
    assert bus.tasks[task] in bus.tasks;
    RemainingStep(bus.tasks, task, Attempted(bus.tasks[task], succeeds));
  }

  lemma {:induction false} DeadMeansOneEntry(tasks: seq<Task>, entry: Entry)
    ensures DeadEntries(tasks)[entry] == |Matching(tasks, entry)|
  {
    if tasks == [] {
      assert Matching(tasks, entry) == {};
    } else {
      var n := |tasks| - 1;
      DeadMeansOneEntry(tasks[..n], entry);
      var before := Matching(tasks[..n], entry);
      if tasks[n].progress == Dead && EntryOf(tasks[n]) == entry {
        assert Matching(tasks, entry) == before + {n};
      } else {
        assert Matching(tasks, entry) == before;
      }
    }
  }

  /** The tasks that have given up with a given entry. */
  ghost function Matching(tasks: seq<Task>, entry: Entry): set<nat> {
    set i: nat | i < |tasks| && tasks[i].progress == Dead && EntryOf(tasks[i]) == entry
  }

  /** Each entry has been pushed exactly as often as tasks have given up with it. */
  lemma OnePushPerDeadTask(steps: seq<Step>, entry: Entry)
    ensures var bus := Run(EMPTY, steps); multiset(bus.pushed)[entry] == |Matching(bus.tasks, entry)|
  {
    RunIsSound(steps);
    DeadMeansOneEntry(Run(EMPTY, steps).tasks, entry);
  }

  /* Every handler gets its own task */

  /** How often the handler had been subscribed to an event type before step `k`. */
  ghost function Subscriptions(steps: seq<Step>, k: nat, kind: string, handler: string): nat
    requires k <= |steps|
  {
    if k == 0 then 0 else
      Subscriptions(steps, k - 1, kind, handler) + if steps[k - 1] == Subscribe(kind, handler) then 1 else 0
  }

  /** Summed over the publications of the event before step `k`: how often the handler was subscribed at the time. */
  ghost function Deliveries(steps: seq<Step>, k: nat, event: Event, handler: string): nat
    requires k <= |steps|
  {
    if k == 0 then 0 else
      Deliveries(steps, k - 1, event, handler)
      + if steps[k - 1] == Publish(event) then Subscriptions(steps, k - 1, event.kind, handler) else 0
  }

  ghost function Count(handlers: seq<string>, handler: string): nat {
    if handlers == [] then 0 else
      Count(handlers[..|handlers| - 1], handler) + if handlers[|handlers| - 1] == handler then 1 else 0
  }

  ghost function TasksFor(tasks: seq<Task>, event: Event, handler: string): nat {
    if tasks == [] then 0 else
      var last := tasks[|tasks| - 1];
      TasksFor(tasks[..|tasks| - 1], event, handler) + if last.event == event && last.handler == handler then 1 else 0
  }

  lemma {:induction false} SubscribedHandlers(steps: seq<Step>, k: nat, kind: string, handler: string)
    requires k <= |steps|
    ensures Count(HandlersOf(Run(EMPTY, steps[..k]), kind), handler) == Subscriptions(steps, k, kind, handler)
  {
    if k == 0 {
    } else {
      SubscribedHandlers(steps, k - 1, kind, handler);
      assert steps[..k][..k - 1] == steps[..k - 1];
      var before := HandlersOf(Run(EMPTY, steps[..k - 1]), kind);
      if steps[k - 1].Subscribe? && steps[k - 1].kind == kind {
        assert (before + [steps[k - 1].handler])[..|before|] == before;
      }
    }
  }

  lemma {:induction false} NewTasks(
      tasks: seq<Task>, published: Event, names: seq<string>, event: Event, handler: string)
    ensures TasksFor(tasks + Tasks(published, names), event, handler) ==
            TasksFor(tasks, event, handler) + if published == event then Count(names, handler) else 0
  {
    if names == [] {
      assert tasks + Tasks(published, names) == tasks;
    } else {
      var n := |names| - 1;
      NewTasks(tasks, published, names[..n], event, handler);
      var all := tasks + Tasks(published, names);
      assert all[..|all| - 1] == tasks + Tasks(published, names[..n]);
    }
  }

  lemma {:induction false} SameTasksFor(a: seq<Task>, b: seq<Task>, event: Event, handler: string)
    requires |a| == |b| && forall k | 0 <= k < |a| :: a[k].event == b[k].event && a[k].handler == b[k].handler
    ensures TasksFor(a, event, handler) == TasksFor(b, event, handler)
  {
    if a == [] {
    } else {
      SameTasksFor(a[..|a| - 1], b[..|b| - 1], event, handler);
    }
  }

  /**
   In every interleaving, an event has as many tasks for a handler as the handler was
   subscribed, summed over the publications of the event: so none is left out, and none
   sees the event twice for one subscription.
   */
  lemma {:induction false} OneTaskPerSubscription(steps: seq<Step>, k: nat, event: Event, handler: string)
    requires k <= |steps|
    ensures TasksFor(Run(EMPTY, steps[..k]).tasks, event, handler) == Deliveries(steps, k, event, handler)
  {
    if k == 0 {
    } else {
      OneTaskPerSubscription(steps, k - 1, event, handler);
      assert steps[..k][..k - 1] == steps[..k - 1];
      var before := Run(EMPTY, steps[..k - 1]);
      if steps[k - 1].Publish? {
        SubscribedHandlers(steps, k - 1, steps[k - 1].event.kind, handler);
      }
      StepStartsTasks(before, steps[k - 1], event, handler);
    }
  }

  lemma StepStartsTasks(bus: Bus, step: Step, event: Event, handler: string)
    ensures TasksFor(Apply(bus, step).tasks, event, handler) ==
            TasksFor(bus.tasks, event, handler)
            + if step == Publish(event) then Count(HandlersOf(bus, event.kind), handler) else 0
  {
    match step
    case Publish(published) =>
      NewTasks(bus.tasks, published, HandlersOf(bus, published.kind), event, handler);
      assert bus.tasks + [] == bus.tasks;
    case Subscribe(_, _) =>
    case Attempt(_, _) =>
      SameTasksFor(bus.tasks, Apply(bus, step).tasks, event, handler);
    case Cancel(_) =>
      SameTasksFor(bus.tasks, Apply(bus, step).tasks, event, handler);
    case Drain =>
  }
}
