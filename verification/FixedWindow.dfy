/**
 The in-process fallback of the request limiter: one fixed window per identifier
 (`_local_token_bucket` in backend/app/middleware/security_headers.py).
 */
module FixedWindow {
  import opened Wrappers

  datatype Bucket = Bucket(start: int, count: int)

  predicate Opens(bucket: Option<Bucket>, window: int, now: int) {
    bucket.None? || now - bucket.value.start >= window
  }

  /** A call that opens a window is admitted whatever the limit. */
  predicate Admits(bucket: Option<Bucket>, limit: int, window: int, now: int) {
    Opens(bucket, window, now) || bucket.value.count < limit
  }

  function After(bucket: Option<Bucket>, limit: int, window: int, now: int): Option<Bucket> {
    if Opens(bucket, window, now) then Some(Bucket(now, 1))
    else if Admits(bucket, limit, window, now) then Some(Bucket(bucket.value.start, bucket.value.count + 1))
    else bucket
  }

  class LocalLimiter {
    var localBuckets: map<string, Bucket>

    constructor ()
      ensures localBuckets == map[]
    {
      localBuckets := map[];
    }

    function Find(identifier: string): Option<Bucket>
      reads this
    {
      if identifier in localBuckets then Some(localBuckets[identifier]) else None
    }

    /** A refused call learns when its window ends; an admitted one how many calls are left in it. */
    method LocalTokenBucket(identifier: string, limit: int, window: int, now: int)
      returns (allowed: bool, remaining: int, resetAt: int)
      modifies this
      ensures var bucket := old(Find(identifier));
              && (allowed <==> bucket.None? || now - bucket.value.start >= window || bucket.value.count < limit)
              && Find(identifier) == (if bucket.None? || now - bucket.value.start >= window then Some(Bucket(now, 1))
                                      else if bucket.value.count < limit
                                      then Some(Bucket(bucket.value.start, bucket.value.count + 1)) else bucket)
      ensures allowed == Admits(old(Find(identifier)), limit, window, now)
      ensures Find(identifier) == After(old(Find(identifier)), limit, window, now)
      ensures forall other | other != identifier :: Find(other) == old(Find(other))
      ensures allowed ==> remaining == limit - Find(identifier).value.count && resetAt == now + window
      ensures !allowed ==> remaining == 0 && resetAt == Find(identifier).value.start + window && now < resetAt
    {
      if identifier !in localBuckets || now - localBuckets[identifier].start >= window {
        localBuckets := localBuckets[identifier := Bucket(now, 1)];
        return true, limit - 1, now + window;
      }
      var bucket := localBuckets[identifier];
      if bucket.count >= limit {
        return false, 0, bucket.start + window;
      }
      localBuckets := localBuckets[identifier := Bucket(bucket.start, bucket.count + 1)];
      return true, limit - bucket.count - 1, now + window;
    }
  }

  /* Runs of calls for one identifier, each with the limit of its own path, in windows of one length */

  datatype Call = Call(now: int, limit: int)

  ghost predicate Ordered(calls: seq<Call>) {
    forall i | 0 <= i < |calls| - 1 :: calls[i].now <= calls[i + 1].now
  }

  /** The calls admitted from `from` to just before `to`. */
  ghost function Admissions(bucket: Option<Bucket>, calls: seq<Call>, window: int, from: int, to: int): nat
    decreases |calls|
  {
    if calls == [] then 0 else
      var call := calls[0];
      (if Admits(bucket, call.limit, window, call.now) && from <= call.now < to then 1 else 0)
      + Admissions(After(bucket, call.limit, window, call.now), calls[1..], window, from, to)
  }

  function PerWindow(limit: int): nat {
    if limit <= 1 then 1 else limit
  }

  function Bound(limit: int): nat {
    2 * PerWindow(limit) - 1
  }

  ghost predicate LimitedBy(calls: seq<Call>, limit: int) {
    forall i | 0 <= i < |calls| :: calls[i].limit <= limit
  }

  /** What every run keeps: a window that is open has admitted something, and no more than its share. */
  ghost predicate Sound(bucket: Option<Bucket>, limit: int, last: int) {
    bucket.Some? ==> bucket.value.start <= last && 1 <= bucket.value.count <= PerWindow(limit)
  }

  /** How many more calls can still be admitted before `to`, once `to - window` has been reached. */
  ghost function Allowance(bucket: Option<Bucket>, limit: int, window: int, to: int): int {
    if bucket.None? then PerWindow(limit)
    else if bucket.value.start < to - window then 2 * PerWindow(limit) - bucket.value.count
    else PerWindow(limit) - bucket.value.count
  }

  lemma {:induction false} AdmissionsWithinAllowance(
      bucket: Option<Bucket>, calls: seq<Call>, limit: int, window: int, last: int, to: int)
    requires Sound(bucket, limit, last) && window > 0 && Ordered(calls) && LimitedBy(calls, limit)
    requires calls != [] ==> last <= calls[0].now && to - window <= calls[0].now
    ensures Admissions(bucket, calls, window, to - window, to) <= Allowance(bucket, limit, window, to)
    decreases |calls|
  {
    if calls == [] {
    } else {
      var after := After(bucket, calls[0].limit, window, calls[0].now);
      AdmissionsWithinAllowance(after, calls[1..], limit, window, calls[0].now, to);
      if calls[0].now >= to {
        NothingAfter(bucket, calls, window, to - window, to);
      }
    }
  }

  lemma {:induction false} NothingAfter(bucket: Option<Bucket>, calls: seq<Call>, window: int, from: int, to: int)
    requires Ordered(calls) && (calls != [] ==> to <= calls[0].now)
    ensures Admissions(bucket, calls, window, from, to) == 0
    decreases |calls|
  {
    if calls == [] {
    } else {
      NothingAfter(After(bucket, calls[0].limit, window, calls[0].now), calls[1..], window, from, to);
    }
  }

  /**
   If no call's limit exceeds `limit`, any half-open interval of one window's length holds
   at most 2 * limit - 1 admissions (one, if the limit is at most 1).
   */
  lemma {:induction false} FixedWindowBound(
      bucket: Option<Bucket>, calls: seq<Call>, limit: int, window: int, last: int, from: int)
    requires Sound(bucket, limit, last) && window > 0 && Ordered(calls) && LimitedBy(calls, limit)
    requires calls != [] ==> last <= calls[0].now
    ensures Admissions(bucket, calls, window, from, from + window) <= Bound(limit)
    decreases |calls|
  {
    if calls == [] {
    } else {
      var call := calls[0];
      if call.now < from {
        FixedWindowBound(After(bucket, call.limit, window, call.now), calls[1..], limit, window, call.now, from);
      } else {
        AdmissionsWithinAllowance(bucket, calls, limit, window, last, from + window);
      }
    }
  }

  /* The bound is reached */

  ghost function Burst(n: nat, at: int, limit: int): seq<Call> {
    seq(n, _ => Call(at, limit))
  }

  lemma {:induction false} BurstGetsThrough(start: int, count: nat, n: nat, at: int, rest: seq<Call>,
                                            limit: int, window: int, from: int, to: int)
    requires 0 < count && count + n <= limit && start <= at < start + window && from <= at < to
    ensures Admissions(Some(Bucket(start, count)), Burst(n, at, limit) + rest, window, from, to) ==
            n + Admissions(Some(Bucket(start, count + n)), rest, window, from, to)
    decreases n
  {
    var calls := Burst(n, at, limit) + rest;
    if n == 0 {
      assert calls == rest;
    } else {
      assert calls[0] == Call(at, limit) && calls[1..] == Burst(n - 1, at, limit) + rest;
      BurstGetsThrough(start, count + 1, n - 1, at, rest, limit, window, from, to);
    }
  }

  ghost function NextWindow(limit: nat, window: int): seq<Call>
    requires limit >= 1
  {
    [Call(window, limit)] + Burst(limit - 1, window, limit)
  }

  /** One call opens a window, a burst fills it just before it ends, and another burst fills the next one. */
  ghost function WorstRun(limit: nat, window: int): seq<Call>
    requires limit >= 1
  {
    [Call(0, limit)] + (Burst(limit - 1, window - 1, limit) + NextWindow(limit, window))
  }

  lemma WorstRunIs(limit: nat, window: int)
    requires limit >= 1 && window >= 2
    ensures var calls := WorstRun(limit, window);
            && |calls| == 2 * limit
            && forall i | 0 <= i < |calls| ::
                calls[i] == Call(if i == 0 then 0 else if i < limit then window - 1 else window, limit)
  {
  }

  lemma BoundIsReached(limit: nat, window: int)
    requires limit >= 1 && window >= 2
    ensures Ordered(WorstRun(limit, window)) && LimitedBy(WorstRun(limit, window), limit)
    ensures Admissions(None, WorstRun(limit, window), window, 1, 1 + window) == Bound(limit)
  {
    WorstRunIs(limit, window);
    assert WorstRun(limit, window)[1..] == Burst(limit - 1, window - 1, limit) + NextWindow(limit, window);
    BurstGetsThrough(0, 1, limit - 1, window - 1, NextWindow(limit, window), limit, window, 1, 1 + window);
    LateBurst(limit, window);
  }

  /** When the window has just ended, a whole burst gets through. */
  lemma LateBurst(limit: nat, window: int)
    requires limit >= 1 && window >= 2
    ensures Admissions(Some(Bucket(0, limit)), NextWindow(limit, window), window, 1, 1 + window) == limit
  {
    var late := NextWindow(limit, window);
    assert late[1..] == Burst(limit - 1, window, limit) + [];
    BurstGetsThrough(window, 1, limit - 1, window, [], limit, window, 1, 1 + window);
  }
}
