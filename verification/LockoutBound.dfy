/**
 How many wrong passwords the lockout lets through in any interval of the lockout's length.
 A login is two steps, the check of the lock and the recording of the outcome; between
 them, other logins of the same user may take theirs.
 */
module LockoutBound {
  import opened Wrappers
  import opened LoginLockout

  /** One user's account, and how many logins have passed the lock check and not recorded their outcome yet. */
  datatype Guard = Guard(account: Account, pending: nat)

  datatype Step = Check(now: int) | Record(now: int, passwordOk: bool)

  const UNKNOWN := Guard(Account(None, None), 0)

  /** A login that finds the account locked ends there. */
  ghost function Apply(g: Guard, step: Step, maxAttempts: int, lockout: int): Guard {
    match step
    case Check(now) =>
      if Live(g.account.lock, now) then g else g.(pending := g.pending + 1)
    case Record(now, passwordOk) =>
      if g.pending == 0 then g else
        Guard(if passwordOk then Account(None, None) else Failed(g.account, now, maxAttempts, lockout), g.pending - 1)
  }

  ghost function Run(g: Guard, steps: seq<Step>, maxAttempts: int, lockout: int): Guard
    decreases |steps|
  {
    if steps == [] then g else Run(Apply(g, steps[0], maxAttempts, lockout), steps[1..], maxAttempts, lockout)
  }

  ghost predicate Ordered(steps: seq<Step>) {
    forall i | 0 <= i < |steps| - 1 :: steps[i].now <= steps[i + 1].now
  }

  /** At no time have more than `k` logins passed the check without having recorded their outcome. */
  ghost predicate AtMost(g: Guard, steps: seq<Step>, k: nat, maxAttempts: int, lockout: int)
    decreases |steps|
  {
    g.pending <= k
    && (steps == [] || AtMost(Apply(g, steps[0], maxAttempts, lockout), steps[1..], k, maxAttempts, lockout))
  }

  /** A login ends at this step, from `from` to just before `to`, with a right password or with a wrong one. */
  ghost predicate Ends(g: Guard, step: Step, passwordOk: bool, from: int, to: int) {
    step.Record? && g.pending > 0 && step.passwordOk == passwordOk && from <= step.now < to
  }

  /** The wrong passwords that reach the check and are recorded from `from` to just before `to`. */
  ghost function Failures(g: Guard, steps: seq<Step>, from: int, to: int, maxAttempts: int, lockout: int): nat
    decreases |steps|
  {
    if steps == [] then 0 else
      (if Ends(g, steps[0], false, from, to) then 1 else 0)
      + Failures(Apply(g, steps[0], maxAttempts, lockout), steps[1..], from, to, maxAttempts, lockout)
  }

  ghost predicate NoSuccess(g: Guard, steps: seq<Step>, from: int, to: int, maxAttempts: int, lockout: int)
    decreases |steps|
  {
    steps == [] ||
    (&& !Ends(g, steps[0], true, from, to)
     && NoSuccess(Apply(g, steps[0], maxAttempts, lockout), steps[1..], from, to, maxAttempts, lockout))
  }

  function Limit(maxAttempts: int): nat {
    if maxAttempts <= 1 then 1 else maxAttempts
  }

  /** The bound for logins of which at most `k` overlap. */
  function Bound(maxAttempts: int, k: nat): int {
    (if maxAttempts <= 1 then 1 else 2 * maxAttempts - 2) + k - 1
  }

  /**
   The state kept by every run: a counter has an expiry, and passes the limit only by
   logins that were pending when it was reached; a counter that has reached it comes with a
   lock that lasts at least as long. `last` is the time of the latest step.
   */
  ghost predicate Sound(g: Guard, last: int, k: nat, maxAttempts: int, lockout: int) {
    var Account(attempts, lock) := g.account;
    && g.pending <= k
    && (lock.Some? ==> lock.value.expiresAt.Some? && lock.value.expiresAt.value <= last + lockout)
    && (attempts.Some? ==>
      var Entry(count, expiresAt) := attempts.value;
      && 1 <= count <= Limit(maxAttempts) + k - 1
      && expiresAt.Some? && expiresAt.value <= last + lockout
      && (count >= maxAttempts ==>
        && lock.Some? && expiresAt.value <= lock.value.expiresAt.value
        && (last < expiresAt.value ==> count + g.pending <= Limit(maxAttempts) + k - 1)))
  }

  lemma SoundStep(g: Guard, step: Step, last: int, k: nat, maxAttempts: int, lockout: int)
    requires Sound(g, last, k, maxAttempts, lockout) && k > 0 && lockout > 0 && last <= step.now
    requires Apply(g, step, maxAttempts, lockout).pending <= k
    ensures Sound(Apply(g, step, maxAttempts, lockout), step.now, k, maxAttempts, lockout)
  {
  }

  /** With at most `k` logins overlapping, the counter never passes the limit by more than `k - 1`. */
  lemma {:induction false} AlwaysSound(g: Guard, steps: seq<Step>, last: int, k: nat, maxAttempts: int, lockout: int)
    requires Sound(g, last, k, maxAttempts, lockout) && k > 0 && lockout > 0 && Ordered(steps)
    requires steps != [] ==> last <= steps[0].now
    requires AtMost(g, steps, k, maxAttempts, lockout)
    ensures Sound(Run(g, steps, maxAttempts, lockout), if steps == [] then last else steps[|steps| - 1].now,
                  k, maxAttempts, lockout)
    decreases |steps|
  {
    if steps == [] {
    } else {
      SoundStep(g, steps[0], last, k, maxAttempts, lockout);
      AlwaysSound(Apply(g, steps[0], maxAttempts, lockout), steps[1..], steps[0].now, k, maxAttempts, lockout);
    }
  }

  /**
   How many more failures can still be recorded before `to`, once `to - lockout` has been
   reached: if the lock lasts until then, those of the pending logins.
   */
  ghost function Allowance(g: Guard, to: int, k: nat, maxAttempts: int): int {
    var Account(attempts, lock) := g.account;
    if lock.Some? && lock.value.expiresAt.Some? && to <= lock.value.expiresAt.value then g.pending
    else if attempts.Some? && attempts.value.value < maxAttempts && attempts.value.expiresAt.Some? then
      (if attempts.value.expiresAt.value < to
       then 2 * maxAttempts - attempts.value.value - 1
       else maxAttempts - attempts.value.value) + k - 1
    else Limit(maxAttempts) + k - 1
  }

  /** A failure inside the interval uses up at least one unit of the allowance. */
  lemma AllowanceStep(g: Guard, step: Step, last: int, to: int, k: nat, maxAttempts: int, lockout: int)
    requires Sound(g, last, k, maxAttempts, lockout) && k > 0 && lockout > 0
    requires last <= step.now && to - lockout <= step.now < to
    requires !Ends(g, step, true, to - lockout, to)
    ensures Allowance(Apply(g, step, maxAttempts, lockout), to, k, maxAttempts)
            + (if Ends(g, step, false, to - lockout, to) then 1 else 0) <= Allowance(g, to, k, maxAttempts)
  {
  }

  lemma AllowanceWithinBound(g: Guard, last: int, to: int, k: nat, maxAttempts: int, lockout: int)
    requires Sound(g, last, k, maxAttempts, lockout) && k > 0
    ensures 0 <= Allowance(g, to, k, maxAttempts) <= Bound(maxAttempts, k)
  {
  }

  lemma {:induction false} FailuresWithinAllowance(
      g: Guard, steps: seq<Step>, last: int, to: int, k: nat, maxAttempts: int, lockout: int)
    requires Sound(g, last, k, maxAttempts, lockout) && k > 0 && lockout > 0 && Ordered(steps)
    requires steps != [] ==> last <= steps[0].now && to - lockout <= steps[0].now
    requires AtMost(g, steps, k, maxAttempts, lockout)
    requires NoSuccess(g, steps, to - lockout, to, maxAttempts, lockout)
    ensures Failures(g, steps, to - lockout, to, maxAttempts, lockout) <= Allowance(g, to, k, maxAttempts)
    decreases |steps|
  {
    AllowanceWithinBound(g, last, to, k, maxAttempts, lockout);
    if steps == [] {
    } else {
      var step := steps[0];
      if step.now < to {
        SoundStep(g, step, last, k, maxAttempts, lockout);
        var after := Apply(g, step, maxAttempts, lockout);
        FailuresWithinAllowance(after, steps[1..], step.now, to, k, maxAttempts, lockout);
        AllowanceStep(g, step, last, to, k, maxAttempts, lockout);
      } else {
        NothingAfter(g, steps, to - lockout, to, maxAttempts, lockout);
      }
    }
  }

  lemma {:induction false} NothingAfter(g: Guard, steps: seq<Step>, from: int, to: int, maxAttempts: int, lockout: int)
    requires Ordered(steps) && (steps != [] ==> to <= steps[0].now)
    ensures Failures(g, steps, from, to, maxAttempts, lockout) == 0
    decreases |steps|
  {
    if steps == [] {
    } else {
      NothingAfter(Apply(g, steps[0], maxAttempts, lockout), steps[1..], from, to, maxAttempts, lockout);
    }
  }

  /**
   If at most `k` logins overlap, then in any half-open interval of the lockout's length
   without a success in it at most 2 * maxAttempts - 3 + k wrong passwords reach the check
   (k, if maxAttempts is at most 1).
   */
  lemma {:induction false} LockoutBoundsFailures(
      g: Guard, steps: seq<Step>, last: int, from: int, k: nat, maxAttempts: int, lockout: int)
    requires Sound(g, last, k, maxAttempts, lockout) && k > 0 && lockout > 0 && Ordered(steps)
    requires steps != [] ==> last <= steps[0].now
    requires AtMost(g, steps, k, maxAttempts, lockout)
    requires NoSuccess(g, steps, from, from + lockout, maxAttempts, lockout)
    ensures Failures(g, steps, from, from + lockout, maxAttempts, lockout) <= Bound(maxAttempts, k)
    decreases |steps|
  {
    if steps == [] {
    } else {
      var step := steps[0];
      if step.now < from {
        SoundStep(g, step, last, k, maxAttempts, lockout);
        var after := Apply(g, step, maxAttempts, lockout);
        LockoutBoundsFailures(after, steps[1..], step.now, from, k, maxAttempts, lockout);
      } else {
        AllowanceWithinBound(g, last, from + lockout, k, maxAttempts, lockout);
        FailuresWithinAllowance(g, steps, last, from + lockout, k, maxAttempts, lockout);
      }
    }
  }

  /* Logins one after the other */

  /** One user's logins, each finished before the next one starts. */
  ghost predicate Sequential(logins: seq<Login>) {
    && (forall i | 0 <= i < |logins| :: logins[i].checkedAt <= logins[i].recordedAt)
    && (forall i | 0 <= i < |logins| - 1 :: logins[i].recordedAt <= logins[i + 1].checkedAt)
  }

  ghost function StepsOf(logins: seq<Login>): seq<Step> {
    if logins == [] then [] else
      [Check(logins[0].checkedAt), Record(logins[0].recordedAt, logins[0].passwordOk)] + StepsOf(logins[1..])
  }

  /** The two steps of a login that nothing comes between are the `login` route. */
  lemma TwoSteps(account: Account, login: Login, rest: seq<Step>, maxAttempts: int, lockout: int)
    ensures var steps := StepsOf([login]) + rest;
            var after := Guard(After(account, login, maxAttempts, lockout), 0);
            && Run(Guard(account, 0), steps, maxAttempts, lockout) == Run(after, rest, maxAttempts, lockout)
            && (AtMost(Guard(account, 0), steps, 1, maxAttempts, lockout) <==>
                AtMost(after, rest, 1, maxAttempts, lockout))
  {
    var check, record := Check(login.checkedAt), Record(login.recordedAt, login.passwordOk);
    var steps, next := StepsOf([login]) + rest, [record] + rest;
    assert [login][1..] == [];
    assert StepsOf([login]) == [check, record];
    assert steps == [check] + next && steps[0] == check && steps[1..] == next;
    assert next[0] == record && next[1..] == rest;
  }

  /** The account after a run of logins. */
  ghost function AfterAll(account: Account, logins: seq<Login>, maxAttempts: int, lockout: int): Account
    decreases |logins|
  {
    if logins == [] then account else
      AfterAll(After(account, logins[0], maxAttempts, lockout), logins[1..], maxAttempts, lockout)
  }

  lemma {:induction false} OneAtATime(account: Account, logins: seq<Login>, maxAttempts: int, lockout: int)
    requires Sequential(logins)
    ensures Ordered(StepsOf(logins)) && (logins != [] ==> StepsOf(logins)[0].now == logins[0].checkedAt)
    ensures Run(Guard(account, 0), StepsOf(logins), maxAttempts, lockout) ==
            Guard(AfterAll(account, logins, maxAttempts, lockout), 0)
    ensures AtMost(Guard(account, 0), StepsOf(logins), 1, maxAttempts, lockout)
    decreases |logins|
  {
    if logins == [] {
    } else {
      OneAtATime(After(account, logins[0], maxAttempts, lockout), logins[1..], maxAttempts, lockout);
      TwoSteps(account, logins[0], StepsOf(logins[1..]), maxAttempts, lockout);
      var first := [logins[0]];
      assert first[1..] == [];
      assert StepsOf(first) == [Check(logins[0].checkedAt), Record(logins[0].recordedAt, logins[0].passwordOk)];
      assert StepsOf(logins) == StepsOf(first) + StepsOf(logins[1..]);
    }
  }

  /** Sequential logins: at most 2 * maxAttempts - 2 wrong passwords (one, if maxAttempts is at most 1). */
  lemma SequentialFailures(account: Account, logins: seq<Login>, last: int, from: int, maxAttempts: int, lockout: int)
    requires Sound(Guard(account, 0), last, 1, maxAttempts, lockout) && lockout > 0 && Sequential(logins)
    requires logins != [] ==> last <= logins[0].checkedAt
    requires NoSuccess(Guard(account, 0), StepsOf(logins), from, from + lockout, maxAttempts, lockout)
    ensures Failures(Guard(account, 0), StepsOf(logins), from, from + lockout, maxAttempts, lockout)
            <= if maxAttempts <= 1 then 1 else 2 * maxAttempts - 2
  {
    OneAtATime(account, logins, maxAttempts, lockout);
    LockoutBoundsFailures(Guard(account, 0), StepsOf(logins), last, from, 1, maxAttempts, lockout);
  }

  /* The bound is reached */

  ghost function Checks(n: nat, at: int): seq<Step> {
    if n == 0 then [] else [Check(at)] + Checks(n - 1, at)
  }

  ghost function Records(n: nat, at: int): seq<Step> {
    if n == 0 then [] else [Record(at, false)] + Records(n - 1, at)
  }

  /** Wrong passwords one after the other. */
  ghost function Burst(n: nat, at: int): seq<Step> {
    if n == 0 then [] else [Check(at), Record(at, false)] + Burst(n - 1, at)
  }

  /**
   The run that reaches the bound: one early failure, a burst just before its counter
   expires, a burst just after that leaves one attempt, and then `k` logins at once.
   */
  ghost function WorstRun(maxAttempts: int, lockout: int, k: nat): seq<Step> {
    var together := Checks(k, lockout) + Records(k, lockout);
    if maxAttempts <= 1 then together else
      Burst(1, 0) + (Burst(maxAttempts - 2, lockout - 1) + (Burst(maxAttempts - 1, lockout) + together))
  }

  /** What a run of failures promises: at most `k` overlap, and `n` of them count. */
  ghost predicate Reaches(g: Guard, steps: seq<Step>, n: nat, lockout: int, k: nat, maxAttempts: int) {
    && AtMost(g, steps, k, maxAttempts, lockout)
    && Failures(g, steps, 1, 1 + lockout, maxAttempts, lockout) == n
  }

  /** The account while a counter is below the limit and nobody is locked out. */
  ghost function Counting(count: nat, expiresAt: int): Guard {
    Guard(Account(Some(Entry(count, Some(expiresAt))), None), 0)
  }

  /** One wrong password is let through if its failure does not lock the account. */
  lemma OneGetsThrough(g: Guard, after: Guard, at: int, rest: seq<Step>, n: nat, lockout: int, k: nat, maxAttempts: int)
    requires g.pending == 0 && k > 0 && g.account.lock == None
    requires after == Guard(Failed(g.account, at, maxAttempts, lockout), 0)
    requires Reaches(after, rest, n, lockout, k, maxAttempts)
    ensures Reaches(g, Burst(1, at) + rest, n + if 1 <= at < 1 + lockout then 1 else 0, lockout, k, maxAttempts)
  {
    var steps := Burst(1, at) + rest;
    assert Burst(1, at) == [Check(at), Record(at, false)];
    assert steps[0] == Check(at) && steps[1..] == [Record(at, false)] + rest && steps[1..][1..] == rest;
  }

  /** A burst within the counter's life is let through as long as it stays below the limit. */
  lemma {:induction false} BurstGetsThrough(
      count: nat, expiresAt: int, b: nat, at: int, rest: seq<Step>, n: nat, lockout: int, k: nat, maxAttempts: int)
    requires 0 < count && count + b < maxAttempts && 1 <= at < 1 + lockout && at < expiresAt && k > 0
    requires Reaches(Counting(count + b, expiresAt), rest, n, lockout, k, maxAttempts)
    ensures Reaches(Counting(count, expiresAt), Burst(b, at) + rest, b + n, lockout, k, maxAttempts)
    decreases b
  {
    if b == 0 {
      assert Burst(b, at) + rest == rest;
    } else {
      BurstGetsThrough(count + 1, expiresAt, b - 1, at, rest, n, lockout, k, maxAttempts);
      OneGetsThrough(Counting(count, expiresAt), Counting(count + 1, expiresAt), at, Burst(b - 1, at) + rest, b - 1 + n,
                     lockout, k, maxAttempts);
      assert Burst(b, at) + rest == Burst(1, at) + (Burst(b - 1, at) + rest);
    }
  }

  /** Logins that all pass the check before any of them records its failure all count. */
  lemma {:induction false} AllPending(g: Guard, c: nat, at: int, lockout: int, k: nat, maxAttempts: int)
    requires g.account.lock == None && g.pending + c <= k && 1 <= at < 1 + lockout
    ensures Reaches(g, Checks(c, at) + Records(g.pending + c, at), g.pending + c, lockout, k, maxAttempts)
    decreases c
  {
    var steps := Checks(c, at) + Records(g.pending + c, at);
    if c == 0 {
      AllRecorded(g, at, lockout, k, maxAttempts);
      assert steps == Records(g.pending, at);
    } else {
      AllPending(g.(pending := g.pending + 1), c - 1, at, lockout, k, maxAttempts);
      assert steps[0] == Check(at) && steps[1..] == Checks(c - 1, at) + Records(g.pending + c, at);
    }
  }

  lemma {:induction false} AllRecorded(g: Guard, at: int, lockout: int, k: nat, maxAttempts: int)
    requires g.pending <= k && 1 <= at < 1 + lockout
    ensures Reaches(g, Records(g.pending, at), g.pending, lockout, k, maxAttempts)
    decreases g.pending
  {
    if g.pending == 0 {
    } else {
      var steps := Records(g.pending, at);
      assert steps[0] == Record(at, false) && steps[1..] == Records(g.pending - 1, at);
      AllRecorded(Apply(g, steps[0], maxAttempts, lockout), at, lockout, k, maxAttempts);
    }
  }

  /**
   The bound is sharp for every limit, lockout and number of overlapping logins. With no
   bound on that number, there is none on the wrong passwords.
   */
  lemma BoundIsReached(maxAttempts: int, lockout: int, k: nat)
    requires lockout >= 2 && k > 0
    ensures WrongFrom(WorstRun(maxAttempts, lockout, k), 0)
    ensures Reaches(UNKNOWN, WorstRun(maxAttempts, lockout, k), Bound(maxAttempts, k), lockout, k, maxAttempts)
  {
    WorstRunIsOrdered(maxAttempts, lockout, k);
    if maxAttempts <= 1 {
      AllPending(UNKNOWN, k, lockout, lockout, k, maxAttempts);
    } else {
      EarlyFailure(maxAttempts, lockout, k);
    }
  }

  /** The part of the worst run after the first counter has nearly run out. */
  ghost function LateRun(maxAttempts: int, lockout: int, k: nat): seq<Step>
    requires maxAttempts >= 2
  {
    Burst(maxAttempts - 1, lockout) + (Checks(k, lockout) + Records(k, lockout))
  }

  lemma LateRunReaches(maxAttempts: int, lockout: int, k: nat)
    requires maxAttempts >= 2 && lockout >= 2 && k > 0
    ensures Reaches(Counting(maxAttempts - 1, lockout), LateRun(maxAttempts, lockout, k),
                    maxAttempts - 1 + k, lockout, k, maxAttempts)
  {
    var together := Checks(k, lockout) + Records(k, lockout);
    AllPending(Counting(maxAttempts - 1, 2 * lockout), k, lockout, lockout, k, maxAttempts);
    BurstGetsThrough(1, 2 * lockout, maxAttempts - 2, lockout, together, k, lockout, k, maxAttempts);
    var rest := Burst(maxAttempts - 2, lockout) + together;
    OneGetsThrough(Counting(maxAttempts - 1, lockout), Counting(1, 2 * lockout), lockout, rest, maxAttempts - 2 + k,
                   lockout, k, maxAttempts);
    assert LateRun(maxAttempts, lockout, k) == Burst(1, lockout) + rest;
  }

  lemma EarlyFailure(maxAttempts: int, lockout: int, k: nat)
    requires maxAttempts >= 2 && lockout >= 2 && k > 0
    ensures Reaches(UNKNOWN, WorstRun(maxAttempts, lockout, k), Bound(maxAttempts, k), lockout, k, maxAttempts)
  {
    var late := LateRun(maxAttempts, lockout, k);
    LateRunReaches(maxAttempts, lockout, k);
    BurstGetsThrough(1, lockout, maxAttempts - 2, lockout - 1, late, maxAttempts - 1 + k, lockout, k, maxAttempts);
    OneGetsThrough(UNKNOWN, Counting(1, lockout), 0, Burst(maxAttempts - 2, lockout - 1) + late,
                   2 * maxAttempts - 3 + k, lockout, k, maxAttempts);
  }

  /** Wrong passwords at one time. */
  ghost predicate WrongAt(steps: seq<Step>, at: int) {
    forall i | 0 <= i < |steps| :: steps[i].now == at && (steps[i].Record? ==> !steps[i].passwordOk)
  }

  lemma {:induction false} PartsAreWrongAt(n: nat, at: int)
    ensures WrongAt(Burst(n, at), at) && WrongAt(Checks(n, at), at) && WrongAt(Records(n, at), at)
  {
    if n == 0 {
    } else {
      PartsAreWrongAt(n - 1, at);
    }
  }

  /** Wrong passwords in the order of time, none before `at`. */
  ghost predicate WrongFrom(steps: seq<Step>, at: int) {
    && Ordered(steps)
    && forall i | 0 <= i < |steps| :: at <= steps[i].now && (steps[i].Record? ==> !steps[i].passwordOk)
  }

  lemma WrongFromEarlier(a: seq<Step>, at: int, b: seq<Step>, later: int)
    requires WrongAt(a, at) && WrongFrom(b, later) && at <= later
    ensures WrongFrom(a + b, at)
  {
  }

  lemma WorstRunIsOrdered(maxAttempts: int, lockout: int, k: nat)
    requires lockout >= 2
    ensures WrongFrom(WorstRun(maxAttempts, lockout, k), 0)
  {
    PartsAreWrongAt(k, lockout);
    WrongFromEarlier(Checks(k, lockout), lockout, Records(k, lockout), lockout);
    if maxAttempts >= 2 {
      var together := Checks(k, lockout) + Records(k, lockout);
      PartsAreWrongAt(1, 0);
      PartsAreWrongAt(maxAttempts - 2, lockout - 1);
      PartsAreWrongAt(maxAttempts - 1, lockout);
      var late := LateRun(maxAttempts, lockout, k);
      WrongFromEarlier(Burst(maxAttempts - 1, lockout), lockout, together, lockout);
      WrongFromEarlier(Burst(maxAttempts - 2, lockout - 1), lockout - 1, late, lockout);
      WrongFromEarlier(Burst(1, 0), 0, Burst(maxAttempts - 2, lockout - 1) + late, lockout - 1);
    }
  }
}
