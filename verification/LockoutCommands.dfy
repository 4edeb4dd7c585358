/**
 The lockout bound at the grain of single Redis commands. Every command that a login sends
 is a step of its own, at its own time, and the commands of different logins of one user
 interleave freely; a login is pending until its last one.
 */
module LockoutCommands {
  import opened Wrappers
  import opened LoginLockout
  import LockoutBound

  /**
   The logins that have passed the lock check, by what they do next: check the password,
   start the counter's time to live, set the lock, or delete the lock after a success.
   */
  datatype Guard = Guard(account: Account, entered: nat, expiring: nat, locking: nat, unlocking: nat)

  datatype Step =
    | Check(now: int)
    | Incr(now: int)
    | Expire(now: int)
    | SetEx(now: int)
    | DeleteCounter(now: int)
    | DeleteLock(now: int)

  const UNKNOWN := Guard(Account(None, None), 0, 0, 0, 0)

  function Pending(g: Guard): nat {
    g.entered + g.expiring + g.locking + g.unlocking
  }

  /** Some login is about to send this command. */
  ghost predicate Enabled(g: Guard, step: Step) {
    match step
    case Check(now) => !Live(g.account.lock, now)
    case Incr(_) => g.entered > 0
    case Expire(_) => g.expiring > 0
    case SetEx(_) => g.locking > 0
    case DeleteCounter(_) => g.entered > 0
    case DeleteLock(_) => g.unlocking > 0
  }

  /** The counter after INCR: an absent or expired one starts from zero, without expiry. */
  function Incremented(counter: Option<Entry>, now: int): Entry {
    if Live(counter, now) then Entry(counter.value.value + 1, counter.value.expiresAt) else Entry(1, None)
  }

  /** One step; a step that is not enabled changes nothing. */
  ghost function Apply(g: Guard, step: Step, maxAttempts: int, lockout: int): Guard {
    if !Enabled(g, step) then g else
    var Account(counter, lock) := g.account;
    match step
    case Check(_) =>
      g.(entered := g.entered + 1)
    case Incr(now) =>
      var next := Incremented(counter, now);
      var sent := g.(account := Account(Some(next), lock), entered := g.entered - 1);
      if next.value == 1 then sent.(expiring := g.expiring + 1)
      else if next.value >= maxAttempts then sent.(locking := g.locking + 1)
      else sent
    case Expire(now) =>
      var timed := if Live(counter, now) then Some(counter.value.(expiresAt := Some(now + lockout))) else counter;
      var sent := g.(account := Account(timed, lock), expiring := g.expiring - 1);
      // this login's own INCR gave 1
      if 1 >= maxAttempts then sent.(locking := g.locking + 1) else sent
    case SetEx(now) =>
      g.(account := Account(counter, Some(Entry(1, Some(now + lockout)))), locking := g.locking - 1)
    case DeleteCounter(_) =>
      g.(account := Account(None, lock), entered := g.entered - 1, unlocking := g.unlocking + 1)
    case DeleteLock(_) =>
      g.(account := Account(counter, None), unlocking := g.unlocking - 1)
  }

  ghost predicate Ordered(steps: seq<Step>) {
    forall i | 0 <= i < |steps| - 1 :: steps[i].now <= steps[i + 1].now
  }

  /** At no time are more than `k` logins pending. */
  ghost predicate AtMost(g: Guard, steps: seq<Step>, k: nat, maxAttempts: int, lockout: int)
    decreases |steps|
  {
    Pending(g) <= k
    && (steps == [] || AtMost(Apply(g, steps[0], maxAttempts, lockout), steps[1..], k, maxAttempts, lockout))
  }

  ghost predicate Fails(g: Guard, step: Step, from: int, to: int) {
    step.Incr? && Enabled(g, step) && from <= step.now < to
  }

  ghost predicate Succeeds(g: Guard, step: Step, from: int, to: int) {
    (step.DeleteCounter? || step.DeleteLock?) && Enabled(g, step) && from <= step.now < to
  }

  /** The wrong passwords that are counted from `from` to just before `to`. */
  ghost function Failures(g: Guard, steps: seq<Step>, from: int, to: int, maxAttempts: int, lockout: int): nat
    decreases |steps|
  {
    if steps == [] then 0 else
      (if Fails(g, steps[0], from, to) then 1 else 0)
      + Failures(Apply(g, steps[0], maxAttempts, lockout), steps[1..], from, to, maxAttempts, lockout)
  }

  /** No command of a success is sent from `from` to just before `to`. */
  ghost predicate NoSuccess(g: Guard, steps: seq<Step>, from: int, to: int, maxAttempts: int, lockout: int)
    decreases |steps|
  {
    steps == [] ||
    (&& !Succeeds(g, steps[0], from, to)
     && NoSuccess(Apply(g, steps[0], maxAttempts, lockout), steps[1..], from, to, maxAttempts, lockout))
  }

  /* The bound */

  /** What every run keeps: counters are positive, and locks have a time to live. */
  ghost predicate Sound(g: Guard, k: nat) {
    && Pending(g) <= k
    && (g.account.attempts.Some? ==> g.account.attempts.value.value >= 1)
    && (g.account.lock.Some? ==> g.account.lock.value.expiresAt.Some?)
  }

  /** The logins that will set the lock before they end. */
  ghost function Locking(g: Guard, maxAttempts: int): nat {
    g.locking + if 1 >= maxAttempts then g.expiring else 0
  }

  /** How many failures can still be counted before `to` that do not lead their login to set the lock. */
  ghost function Free(counter: Option<Entry>, to: int, maxAttempts: int): int {
    if maxAttempts <= 1 then 0
    else if counter.None? then maxAttempts - 1
    else
      var rest := if counter.value.value < maxAttempts then maxAttempts - 1 - counter.value.value else 0;
      // a counter that runs out before `to` can be followed by one more
      if counter.value.expiresAt.Some? && counter.value.expiresAt.value < to then rest + maxAttempts - 1 else rest
  }

  /**
   How many failures can still be counted before `to`, once `to - lockout` has been
   reached. A login that is about to set the lock keeps its place until it has, and then
   the lock lasts until `to`.
   */
  ghost function Allowance(g: Guard, to: int, k: nat, maxAttempts: int): int {
    var lock := g.account.lock;
    if lock.Some? && lock.value.expiresAt.Some? && to <= lock.value.expiresAt.value then g.entered
    else Free(g.account.attempts, to, maxAttempts) + k - Locking(g, maxAttempts)
  }

  lemma AllowanceStep(g: Guard, step: Step, to: int, k: nat, maxAttempts: int, lockout: int)
    requires Sound(g, k) && lockout > 0 && to - lockout <= step.now < to
    requires Pending(Apply(g, step, maxAttempts, lockout)) <= k
    requires !Succeeds(g, step, to - lockout, to)
    ensures Sound(Apply(g, step, maxAttempts, lockout), k)
    ensures Allowance(Apply(g, step, maxAttempts, lockout), to, k, maxAttempts)
            + (if Fails(g, step, to - lockout, to) then 1 else 0) <= Allowance(g, to, k, maxAttempts)
  {
  }

  lemma AllowanceWithinBound(g: Guard, to: int, k: nat, maxAttempts: int)
    requires Sound(g, k) && k > 0
    ensures 0 <= Allowance(g, to, k, maxAttempts) <= LockoutBound.Bound(maxAttempts, k)
  {
  }

  lemma {:induction false} NothingAfter(g: Guard, steps: seq<Step>, from: int, to: int, maxAttempts: int, lockout: int)
    requires Ordered(steps) && (steps != [] ==> to <= steps[0].now)
    ensures Failures(g, steps, from, to, maxAttempts, lockout) == 0
    decreases |steps|
  {
    if steps == [] {
    } else {
      NothingAfter(Apply(g, steps[0], maxAttempts, lockout), steps[1..], from, to, maxAttempts, lockout);
    }
  }

  lemma {:induction false} FailuresWithinAllowance(
      g: Guard, steps: seq<Step>, to: int, k: nat, maxAttempts: int, lockout: int)
    requires Sound(g, k) && k > 0 && lockout > 0 && Ordered(steps)
    requires steps != [] ==> to - lockout <= steps[0].now
    requires AtMost(g, steps, k, maxAttempts, lockout)
    requires NoSuccess(g, steps, to - lockout, to, maxAttempts, lockout)
    ensures Failures(g, steps, to - lockout, to, maxAttempts, lockout) <= Allowance(g, to, k, maxAttempts)
    decreases |steps|
  {
    AllowanceWithinBound(g, to, k, maxAttempts);
    if steps == [] {
    } else if steps[0].now < to {
      AllowanceStep(g, steps[0], to, k, maxAttempts, lockout);
      FailuresWithinAllowance(Apply(g, steps[0], maxAttempts, lockout), steps[1..], to, k, maxAttempts, lockout);
    } else {
      NothingAfter(g, steps, to - lockout, to, maxAttempts, lockout);
    }
  }

  /**
   Whatever the interleaving of single commands: if at most `k` logins are pending at any
   time, then in any half-open interval of the lockout's length in which no success is
   recorded, at most 2 * maxAttempts - 3 + k wrong passwords are counted (k, if maxAttempts
   is at most 1).
   */
  lemma {:induction false} CommandsBoundFailures(
      g: Guard, steps: seq<Step>, from: int, k: nat, maxAttempts: int, lockout: int)
    requires Sound(g, k) && k > 0 && lockout > 0 && Ordered(steps)
    requires AtMost(g, steps, k, maxAttempts, lockout)
    requires NoSuccess(g, steps, from, from + lockout, maxAttempts, lockout)
    ensures Failures(g, steps, from, from + lockout, maxAttempts, lockout) <= LockoutBound.Bound(maxAttempts, k)
    decreases |steps|
  {
    if steps == [] {
    } else if steps[0].now < from {
      CommandsBoundFailures(Apply(g, steps[0], maxAttempts, lockout), steps[1..], from, k, maxAttempts, lockout);
    } else {
      AllowanceWithinBound(g, from + lockout, k, maxAttempts);
      FailuresWithinAllowance(g, steps, from + lockout, k, maxAttempts, lockout);
    }
  }

  /* Counters and locks */

  ghost function Run(g: Guard, steps: seq<Step>, maxAttempts: int, lockout: int): Guard
    decreases |steps|
  {
    if steps == [] then g else Run(Apply(g, steps[0], maxAttempts, lockout), steps[1..], maxAttempts, lockout)
  }

  /** A counter lasts at most `lockout` from now, unless a login is still about to start its time to live. */
  ghost predicate WillExpire(g: Guard, last: int, lockout: int) {
    g.account.attempts.Some? ==>
      var expiresAt := g.account.attempts.value.expiresAt;
      if expiresAt.Some? then expiresAt.value <= last + lockout else g.expiring > 0
  }

  /** In every run, no counter is left without a time to live by logins that have ended. */
  lemma {:induction false} CountersWillExpire(g: Guard, steps: seq<Step>, last: int, maxAttempts: int, lockout: int)
    requires WillExpire(g, last, lockout) && Ordered(steps) && (steps != [] ==> last <= steps[0].now)
    ensures WillExpire(Run(g, steps, maxAttempts, lockout),
                       if steps == [] then last else steps[|steps| - 1].now, lockout)
    decreases |steps|
  {
    if steps == [] {
    } else {
      CountersWillExpire(Apply(g, steps[0], maxAttempts, lockout), steps[1..], steps[0].now, maxAttempts, lockout);
    }
  }

  /**
   In every run, a lock that is set outlives the counter exactly if the counter's time to
   live has been started; if not, a login that is to start it is still pending.
   */
  lemma LockOutlivesCounter(g: Guard, steps: seq<Step>, last: int, now: int, maxAttempts: int, lockout: int)
    requires WillExpire(g, last, lockout) && Ordered(steps) && (steps != [] ==> last <= steps[0].now)
    requires (if steps == [] then last else steps[|steps| - 1].now) <= now
    requires Enabled(Run(g, steps, maxAttempts, lockout), SetEx(now))
    requires Run(g, steps, maxAttempts, lockout).account.attempts.Some?
    ensures var after := Apply(Run(g, steps, maxAttempts, lockout), SetEx(now), maxAttempts, lockout);
            var Account(attempts, lock) := after.account;
            && lock.Some? && lock.value.expiresAt.Some?
            && ((forall t | Live(attempts, t) :: Live(lock, t)) <==> attempts.value.expiresAt.Some?)
            && (attempts.value.expiresAt.None? ==> after.expiring > 0)
  {
    CountersWillExpire(g, steps, last, maxAttempts, lockout);
    var Account(attempts, lock) := Apply(Run(g, steps, maxAttempts, lockout), SetEx(now), maxAttempts, lockout).account;
    if attempts.value.expiresAt.None? {
      assert Live(attempts, now + lockout) && !Live(lock, now + lockout);
    }
  }

  /* Recordings whose commands nothing comes between */

  /** The commands of one step of the coarser machine, all at its time. */
  ghost function CommandsOf(g: LockoutBound.Guard, step: LockoutBound.Step, maxAttempts: int, lockout: int): seq<Step> {
    match step
    case Check(now) => [Check(now)]
    case Record(now, passwordOk) =>
      if g.pending == 0 then []
      else if passwordOk then [DeleteCounter(now), DeleteLock(now)]
      else
        var next := Incremented(g.account.attempts, now);
        [Incr(now)] + (if next.value == 1 then [Expire(now)] else [])
                    + (if next.value >= maxAttempts then [SetEx(now)] else [])
  }

  ghost function AllCommands(g: LockoutBound.Guard, steps: seq<LockoutBound.Step>, maxAttempts: int, lockout: int)
    : seq<Step>
    decreases |steps|
  {
    if steps == [] then [] else
      CommandsOf(g, steps[0], maxAttempts, lockout)
      + AllCommands(LockoutBound.Apply(g, steps[0], maxAttempts, lockout), steps[1..], maxAttempts, lockout)
  }

  ghost function Between(g: LockoutBound.Guard): Guard {
    Guard(g.account, g.pending, 0, 0, 0)
  }

  /** What the two machines must agree on. */
  ghost predicate Agrees(g: Guard, steps: seq<Step>, n: nat, k: nat, from: int, to: int, maxAttempts: int, lockout: int)
  {
    AtMost(g, steps, k, maxAttempts, lockout) && Failures(g, steps, from, to, maxAttempts, lockout) == n
  }

  lemma OneCommand(g: Guard, step: Step, rest: seq<Step>, n: nat, k: nat, from: int, to: int,
                   maxAttempts: int, lockout: int)
    requires Pending(g) <= k
    requires Agrees(Apply(g, step, maxAttempts, lockout), rest, n, k, from, to, maxAttempts, lockout)
    ensures Agrees(g, [step] + rest, n + if Fails(g, step, from, to) then 1 else 0, k, from, to, maxAttempts, lockout)
  {
    var steps := [step] + rest;
    assert steps[0] == step && steps[1..] == rest;
  }

  /** Counters are positive. */
  ghost predicate Positive(account: Account) {
    account.attempts.Some? ==> account.attempts.value.value >= 1
  }

  /** The commands of a recording have its effect on the account, and count it once. */
  lemma RecordIsItsCommands(g: LockoutBound.Guard, step: LockoutBound.Step, rest: seq<Step>, n: nat, k: nat,
                            from: int, to: int, maxAttempts: int, lockout: int)
    requires g.pending <= k && Positive(g.account) && lockout > 0
    requires Agrees(Between(LockoutBound.Apply(g, step, maxAttempts, lockout)), rest,
                    n, k, from, to, maxAttempts, lockout)
    ensures Agrees(Between(g), CommandsOf(g, step, maxAttempts, lockout) + rest,
                   n + if LockoutBound.Ends(g, step, false, from, to) then 1 else 0, k, from, to, maxAttempts, lockout)
  {
    var h, now := Between(g), step.now;
    match step
    case Check(_) =>
      OneCommand(h, Check(now), rest, n, k, from, to, maxAttempts, lockout);
    case Record(_, passwordOk) =>
      if g.pending == 0 {
        assert [] + rest == rest;
      } else if passwordOk {
        var first, second := DeleteCounter(now), DeleteLock(now);
        OneCommand(Apply(h, first, maxAttempts, lockout), second, rest, n, k, from, to, maxAttempts, lockout);
        OneCommand(h, first, [second] + rest, n, k, from, to, maxAttempts, lockout);
        assert [first, second] + rest == [first] + ([second] + rest);
      } else {
        FailureIsItsCommands(g, now, rest, n, k, from, to, maxAttempts, lockout);
      }
  }

  lemma FailureIsItsCommands(g: LockoutBound.Guard, now: int, rest: seq<Step>, n: nat, k: nat,
                             from: int, to: int, maxAttempts: int, lockout: int)
    requires 0 < g.pending <= k && Positive(g.account) && lockout > 0
    requires Agrees(Between(LockoutBound.Apply(g, LockoutBound.Record(now, false), maxAttempts, lockout)), rest,
                    n, k, from, to, maxAttempts, lockout)
    ensures Agrees(Between(g), CommandsOf(g, LockoutBound.Record(now, false), maxAttempts, lockout) + rest,
                   n + if from <= now < to then 1 else 0, k, from, to, maxAttempts, lockout)
  {
    var h, next := Between(g), Incremented(g.account.attempts, now);
    var sent := Apply(h, Incr(now), maxAttempts, lockout);
    var tail := rest;
    var timed := if next.value == 1 then Apply(sent, Expire(now), maxAttempts, lockout) else sent;
    if next.value >= maxAttempts {
      OneCommand(timed, SetEx(now), rest, n, k, from, to, maxAttempts, lockout);
      tail := [SetEx(now)] + rest;
    }
    assert Agrees(timed, tail, n, k, from, to, maxAttempts, lockout);
    if next.value == 1 {
      OneCommand(sent, Expire(now), tail, n, k, from, to, maxAttempts, lockout);
      tail := [Expire(now)] + tail;
    }
    OneCommand(h, Incr(now), tail, n, k, from, to, maxAttempts, lockout);
    assert CommandsOf(g, LockoutBound.Record(now, false), maxAttempts, lockout) + rest == [Incr(now)] + tail;
  }

  /** A run of whole recordings is a run of commands with as many failures and no more logins at a time. */
  lemma {:induction false} RecordingsAreCommands(g: LockoutBound.Guard, steps: seq<LockoutBound.Step>, k: nat,
                                                 from: int, to: int, maxAttempts: int, lockout: int)
    requires Positive(g.account) && lockout > 0 && LockoutBound.AtMost(g, steps, k, maxAttempts, lockout)
    ensures Agrees(Between(g), AllCommands(g, steps, maxAttempts, lockout),
                   LockoutBound.Failures(g, steps, from, to, maxAttempts, lockout), k, from, to, maxAttempts, lockout)
    decreases |steps|
  {
    if steps == [] {
    } else {
      var next, rest := LockoutBound.Apply(g, steps[0], maxAttempts, lockout), steps[1..];
      RecordingsAreCommands(next, rest, k, from, to, maxAttempts, lockout);
      RecordIsItsCommands(g, steps[0], AllCommands(next, rest, maxAttempts, lockout),
                          LockoutBound.Failures(next, rest, from, to, maxAttempts, lockout),
                          k, from, to, maxAttempts, lockout);
    }
  }

  /** So the bound is sharp here too. */
  lemma CommandBoundIsReached(maxAttempts: int, lockout: int, k: nat)
    requires lockout >= 2 && k > 0
    ensures var worst := LockoutBound.WorstRun(maxAttempts, lockout, k);
            var steps := AllCommands(LockoutBound.UNKNOWN, worst, maxAttempts, lockout);
            && AtMost(UNKNOWN, steps, k, maxAttempts, lockout)
            && Failures(UNKNOWN, steps, 1, 1 + lockout, maxAttempts, lockout) == LockoutBound.Bound(maxAttempts, k)
  {
    LockoutBound.BoundIsReached(maxAttempts, lockout, k);
    var worst := LockoutBound.WorstRun(maxAttempts, lockout, k);
    RecordingsAreCommands(LockoutBound.UNKNOWN, worst, k, 1, 1 + lockout, maxAttempts, lockout);
  }
}
