/**
 The domain event bus and its dead-letter queue (backend/app/infrastructure/messaging/events.py),
 as a machine whose steps are the publication of an event, one attempt of one handler,
 the cancellation of a handler's task, and a drain. Handlers of one event run
 concurrently, so the attempts of different tasks interleave freely.
 */
module EventBusModel {

  const MAX_SIZE: nat := 10_000

  const MAX_RETRIES: nat := 3

  datatype Event = Event(kind: string, id: string)

  datatype Entry = Entry(event: Event, handler: string, attempts: nat)

  datatype Progress = Pending | Delivered | Dead | Cancelled

  /** One handler's work on one event; `attempts` counts the calls of the handler so far. */
  datatype Task = Task(event: Event, handler: string, attempts: nat, progress: Progress)

  /**
   `pushed`, `evicted` and `drained` record the history of the queue; `base` is how many
   pushes the drains have seen.
   */
  datatype Bus = Bus(
    handlers: map<string, seq<string>>, tasks: seq<Task>, entries: seq<Entry>, published: nat, failed: nat,
    pushed: seq<Entry>, base: nat, evicted: nat, drained: nat)

  function HandlersOf(bus: Bus, kind: string): seq<string> {
    if kind in bus.handlers then bus.handlers[kind] else []
  }

  function Tasks(event: Event, handlers: seq<string>): (tasks: seq<Task>)
    ensures |tasks| == |handlers|
  {
    seq(|handlers|, i requires 0 <= i < |handlers| => Task(event, handlers[i], 0, Pending))
  }

  /** A push onto a full queue evicts the oldest entry. */
  function Pushed(entries: seq<Entry>, entry: Entry): seq<Entry> {
    (if |entries| >= MAX_SIZE then entries[1..] else entries) + [entry]
  }

  datatype Step =
    | Subscribe(kind: string, handler: string)
    | Publish(event: Event)
    | Attempt(task: nat, succeeds: bool)
    | Cancel(task: nat)
    | Drain

  predicate IsPending(bus: Bus, task: nat) {
    task < |bus.tasks| && bus.tasks[task].progress == Pending
  }

  function EntryOf(task: Task): Entry {
    Entry(task.event, task.handler, task.attempts)
  }

  /** The task after one more call of its handler: it gives up after the last failing attempt. */
  function Attempted(task: Task, succeeds: bool): Task {
    task.(attempts := task.attempts + 1,
          progress := if succeeds then Delivered else if task.attempts + 1 >= MAX_RETRIES then Dead else Pending)
  }

  /** One step; an attempt or a cancellation of a task that has ended changes nothing. */
  function Apply(bus: Bus, step: Step): Bus {
    match step
    case Subscribe(kind, handler) =>
      bus.(handlers := bus.handlers[kind := HandlersOf(bus, kind) + [handler]])
    case Publish(event) =>
      if HandlersOf(bus, event.kind) == [] then bus
      else bus.(published := bus.published + 1, tasks := bus.tasks + Tasks(event, HandlersOf(bus, event.kind)))
    case Attempt(task, succeeds) =>
      if !IsPending(bus, task) then bus else
        var next := Attempted(bus.tasks[task], succeeds);
        var attempted := bus.(tasks := bus.tasks[task := next]);
        if next.progress != Dead then attempted else
          attempted.(failed := bus.failed + 1, entries := Pushed(bus.entries, EntryOf(next)),
                     pushed := bus.pushed + [EntryOf(next)],
                     evicted := bus.evicted + if |bus.entries| >= MAX_SIZE then 1 else 0)
    case Cancel(task) =>
      if !IsPending(bus, task) then bus
      else bus.(tasks := bus.tasks[task := bus.tasks[task].(progress := Cancelled)])
    case Drain =>
      bus.(entries := [], base := |bus.pushed|, drained := bus.drained + |bus.entries|)
  }

  function Run(bus: Bus, steps: seq<Step>): Bus {
    if steps == [] then bus else Apply(Run(bus, steps[..|steps| - 1]), steps[|steps| - 1])
  }

  const EMPTY := Bus(map[], [], [], 0, 0, [], 0, 0, 0)

  class DeadLetterQueue {
    var entries: seq<Entry>

    constructor ()
      ensures entries == []
    {
      entries := [];
    }

    method Push(entry: Entry)
      modifies this
      ensures entries == Pushed(old(entries), entry)
      ensures entries == (if |old(entries)| < 10_000 then old(entries) else old(entries)[1..]) + [entry]
    {
      if |entries| >= MAX_SIZE {
        entries := entries[1..];
      }
      entries := entries + [entry];
    }

    method Drain() returns (drained: seq<Entry>)
      modifies this
      ensures drained == old(entries) && entries == []
    {
      drained := entries;
      entries := [];
    }

    /**
     The newest entries, oldest first. As with any slice from the end, a limit of zero asks
     for all of them, and a negative one for all but that many of the oldest.
     */
    method GetRecent(limit: int) returns (recent: seq<Entry>)
      ensures exists older :: entries == older + recent
      ensures limit > 0 ==> |recent| == if |entries| <= limit then |entries| else limit
      ensures limit <= 0 ==> |recent| == if |entries| <= -limit then 0 else |entries| + limit
    {
      var from := if limit > 0 then |entries| - limit else -limit;
      if from < 0 {
        from := 0;
      } else if from > |entries| {
        from := |entries|;
      }
      recent := entries[from..];
      assert entries == entries[..from] + recent;
    }
  }

  /** The bus; `tasks` stands for the dispatch coroutines that are suspended or have ended. */
  class EventBus {
    const dlq: DeadLetterQueue
    var handlers: map<string, seq<string>>
    var tasks: seq<Task>
    var publishedCount: nat
    var failedCount: nat
    ghost var pushed: seq<Entry>
    ghost var base: nat
    ghost var evicted: nat
    ghost var drained: nat

    ghost function State(): Bus
      reads this, dlq
    {
      Bus(handlers, tasks, dlq.entries, publishedCount, failedCount, pushed, base, evicted, drained)
    }

    constructor ()
      ensures State() == EMPTY && fresh(dlq)
    {
      dlq := new DeadLetterQueue();
      handlers, tasks, publishedCount, failedCount := map[], [], 0, 0;
      pushed, base, evicted, drained := [], 0, 0, 0;
    }

    method Subscribe(kind: string, handler: string)
      modifies this
      ensures State() == Apply(old(State()), Step.Subscribe(kind, handler))
      ensures kind in handlers
      ensures handlers[kind] == (if kind in old(handlers) then old(handlers)[kind] else []) + [handler]
    {
      handlers := handlers[kind := (if kind in handlers then handlers[kind] else []) + [handler]];
    }

    /** Starts one task per handler of the event's type; an event without handlers is not counted. */
    method Publish(event: Event)
      modifies this
      ensures State() == Apply(old(State()), Step.Publish(event))
      ensures var names := if event.kind in old(handlers) then old(handlers)[event.kind] else [];
              && |tasks| == |old(tasks)| + |names| && old(tasks) <= tasks
              && (forall k | 0 <= k < |names| :: tasks[|old(tasks)| + k] == Task(event, names[k], 0, Pending))
              && publishedCount == old(publishedCount) + if names == [] then 0 else 1
    {
      var names := if event.kind in handlers then handlers[event.kind] else [];
      if names == [] {
        return;
      }
      publishedCount := publishedCount + 1;
      ghost var before := tasks;
      for k := 0 to |names|
        invariant tasks == before + Tasks(event, names)[..k]
        invariant unchanged(dlq)
        invariant publishedCount == old(publishedCount) + 1
        invariant handlers == old(handlers) && failedCount == old(failedCount)
        invariant pushed == old(pushed) && base == old(base) && evicted == old(evicted) && drained == old(drained)
      {
        tasks := tasks + [Task(event, names[k], 0, Pending)];
      }
    }

    /** One turn of the loop in `_dispatch_with_retry`, up to its next suspension or its end. */
    method Attempt(task: nat, succeeds: bool)
      requires task < |tasks| && tasks[task].progress == Pending
      modifies this, dlq
      ensures State() == Apply(old(State()), Step.Attempt(task, succeeds))
      ensures |tasks| == |old(tasks)| && forall k | 0 <= k < |tasks| && k != task :: tasks[k] == old(tasks)[k]
      ensures tasks[task] == old(tasks)[task].(attempts := old(tasks)[task].attempts + 1, progress :=
        if succeeds then Delivered else if old(tasks)[task].attempts >= 2 then Dead else Pending)
      ensures dlq.entries == old(dlq.entries) || tasks[task].progress == Dead
      ensures tasks[task].progress == Dead ==>
        && dlq.entries != [] && failedCount == old(failedCount) + 1
        && dlq.entries[|dlq.entries| - 1] == Entry(tasks[task].event, tasks[task].handler, tasks[task].attempts)
    {
      var attempts := tasks[task].attempts + 1;
      if succeeds {
        tasks := tasks[task := tasks[task].(attempts := attempts, progress := Delivered)];
        return;
      }
      tasks := tasks[task := tasks[task].(attempts := attempts)];
      if attempts < MAX_RETRIES {
        return;
      }
      tasks := tasks[task := tasks[task].(progress := Dead)];
      failedCount := failedCount + 1;
      evicted := evicted + if |dlq.entries| >= MAX_SIZE then 1 else 0;
      pushed := pushed + [EntryOf(tasks[task])];
      dlq.Push(EntryOf(tasks[task]));
    }

    /** A new task run to its end with nothing in between: `handles(k)` is the outcome of the k-th attempt. */
    method DispatchWithRetry(task: nat, handles: nat -> bool) returns (delivered: bool)
      requires task < |tasks| && tasks[task].progress == Pending && tasks[task].attempts == 0
      modifies this, dlq
      ensures delivered <==> exists k :: 0 <= k < MAX_RETRIES && handles(k)
      ensures |tasks| == |old(tasks)|
      ensures delivered ==>
              tasks[task].progress == Delivered && dlq.entries == old(dlq.entries) && failedCount == old(failedCount)
      ensures delivered ==>
              && tasks[task].attempts > 0 && handles(tasks[task].attempts - 1)
              && forall k | 0 <= k < tasks[task].attempts - 1 :: !handles(k)
      ensures !delivered ==> tasks[task].progress == Dead && failedCount == old(failedCount) + 1
      ensures !delivered ==>
        dlq.entries == Pushed(old(dlq.entries), Entry(old(tasks)[task].event, old(tasks)[task].handler, MAX_RETRIES))
    {
      var attempt := 0;
      while tasks[task].progress == Pending
        invariant |tasks| == |old(tasks)| && task < |tasks|
        invariant tasks[task].event == old(tasks)[task].event && tasks[task].handler == old(tasks)[task].handler
        invariant tasks[task].attempts == attempt <= MAX_RETRIES
        invariant tasks[task].progress in {Pending, Delivered, Dead}
        invariant tasks[task].progress == Pending ==>
          attempt < MAX_RETRIES && (forall k | 0 <= k < attempt :: !handles(k))
          && dlq.entries == old(dlq.entries) && failedCount == old(failedCount)
        invariant tasks[task].progress == Delivered ==>
          attempt > 0 && handles(attempt - 1) && (forall k | 0 <= k < attempt - 1 :: !handles(k))
          && dlq.entries == old(dlq.entries) && failedCount == old(failedCount)
        invariant tasks[task].progress == Dead ==>
          attempt == MAX_RETRIES && (forall k | 0 <= k < MAX_RETRIES :: !handles(k))
          && failedCount == old(failedCount) + 1
          && dlq.entries ==
              Pushed(old(dlq.entries), Entry(old(tasks)[task].event, old(tasks)[task].handler, MAX_RETRIES))
        decreases MAX_RETRIES - attempt
      {
        Attempt(task, handles(attempt));
        attempt := attempt + 1;
      }
      delivered := tasks[task].progress == Delivered;
    }

    method DrainDeadLetters() returns (entries: seq<Entry>)
      modifies this, dlq
      ensures entries == old(dlq.entries)
      ensures State() == Apply(old(State()), Step.Drain)
    {
      base := |pushed|;
      drained := drained + |dlq.entries|;
      entries := dlq.Drain();
    }
  }
}
