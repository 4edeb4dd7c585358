/**
 The Redis path of the request limiter: a sorted set of call times per identifier and
 path (`_redis_sliding_window` in backend/app/middleware/security_headers.py). Refused
 calls are logged too, and calls at the same instant share one member.
 */
module RedisWindow {
  import opened Wrappers
  import Sums

  datatype Zset = Zset(members: set<int>, expiresAt: int)

  /** What is left of a sorted set when the entries up to one window before `now` are removed. */
  function Kept(members: set<int>, window: int, now: int): set<int> {
    set m | m in members && !(0 <= m <= now - window)
  }

  function Members(zset: Option<Zset>, now: int): set<int> {
    if zset.Some? && now < zset.value.expiresAt then zset.value.members else {}
  }

  function After(zset: Option<Zset>, window: int, now: int): Zset {
    Zset(Kept(Members(zset, now), window, now) + {now}, now + window)
  }

  predicate Admits(zset: Option<Zset>, limit: int, window: int, now: int) {
    |After(zset, window, now).members| <= limit
  }

  class RedisLimiter {
    var keys: map<string, Zset>

    constructor ()
      ensures keys == map[]
    {
      keys := map[];
    }

    function Find(key: string): Option<Zset>
      reads this
    {
      if key in keys then Some(keys[key]) else None
    }

    /** ZREMRANGEBYSCORE, ZADD, ZCARD and EXPIRE, as one transaction. */
    method RedisSlidingWindow(identifier: string, limit: int, window: int, path: string, now: int)
      returns (allowed: bool, remaining: int, resetAt: int)
      modifies this
      ensures allowed == Admits(old(Find(KeyOf(identifier, path))), limit, window, now)
      ensures keys == old(keys)[KeyOf(identifier, path) := After(old(Find(KeyOf(identifier, path))), window, now)]
      ensures forall other | other != KeyOf(identifier, path) :: Find(other) == old(Find(other))
      ensures remaining >= 0 && resetAt == now + window
      ensures remaining > 0 ==> allowed && remaining + |keys[KeyOf(identifier, path)].members| == limit
      ensures allowed && remaining == 0 ==> |keys[KeyOf(identifier, path)].members| == limit
    {
      var key := KeyOf(identifier, path);
      var members := Members(Find(key), now);
      members := Kept(members, window, now);
      members := members + {now};
      var count := |members|;
      keys := keys[key := Zset(members, now + window)];
      allowed := count <= limit;
      remaining := if limit - count > 0 then limit - count else 0;
      resetAt := now + window;
    }
  }

  function KeyOf(identifier: string, path: string): string {
    "ratelimit:" + identifier + ":" + path
  }

  /** The text has a colon directly before a slash. */
  ghost predicate ColonSlash(s: string) {
    exists i :: 0 <= i < |s| - 1 && s[i] == ':' && s[i + 1] == '/'
  }

  /**
   Two callers share a key exactly if identifier and path are the same, as long as paths
   start with a slash, as they do, and no identifier holds a colon before a slash.
   */
  lemma KeysApart(identifier: string, path: string, other: string, otherPath: string)
    requires path != [] && path[0] == '/' && otherPath != [] && otherPath[0] == '/'
    requires !ColonSlash(identifier) && !ColonSlash(other)
    ensures KeyOf(identifier, path) == KeyOf(other, otherPath) <==> identifier == other && path == otherPath
  {
    var a, b := KeyOf(identifier, path), KeyOf(other, otherPath);
    if a == b {
      var m, n := |identifier|, |other|;
      assert a[10..10 + m] == identifier && a[10 + m] == ':' && a[11 + m] == '/' && a[11 + m..] == path;
      assert b[10..10 + n] == other && b[10 + n] == ':' && b[11 + n] == '/' && b[11 + n..] == otherPath;
    }
  }

  /** An identifier that does hold one shares its keys with a shorter identifier. */
  lemma ColonSlashCollides(identifier: string, path: string) returns (other: string, otherPath: string)
    requires ColonSlash(identifier)
    ensures other != identifier && otherPath != [] && otherPath[0] == '/'
    ensures KeyOf(other, otherPath) == KeyOf(identifier, path)
  {
    var i :| 0 <= i < |identifier| - 1 && identifier[i] == ':' && identifier[i + 1] == '/';
    other, otherPath := identifier[..i], identifier[i + 1..] + ":" + path;
    assert identifier == other + ":" + identifier[i + 1..];
  }

  /* Runs of calls for one key, with one limit and one window */

  /** The clock shows non-negative times and does not go back. */
  ghost predicate Timely(times: seq<int>) {
    && (forall i | 0 <= i < |times| :: 0 <= times[i])
    && (forall i, j | 0 <= i < j < |times| :: times[i] <= times[j])
  }

  ghost function StateAfter(times: seq<int>, window: int): Option<Zset> {
    if times == [] then None else Some(After(StateAfter(times[..|times| - 1], window), window, times[|times| - 1]))
  }

  /** The same store without expiry. */
  ghost function NeverExpiring(times: seq<int>, window: int): set<int> {
    if times == [] then {} else
      var n := |times| - 1;
      Kept(NeverExpiring(times[..n], window), window, times[n]) + {times[n]}
  }

  /** The distinct call times in the window that ends at `now`. */
  ghost function InWindow(times: seq<int>, window: int, now: int): set<int> {
    set t | t in times && now - window < t <= now
  }

  /** After each call, the store holds exactly the distinct call times of the last window. */
  lemma {:induction false} StoreHoldsWindow(times: seq<int>, window: int)
    requires Timely(times) && window > 0 && times != []
    ensures StateAfter(times, window) ==
            Some(Zset(InWindow(times, window, times[|times| - 1]), times[|times| - 1] + window))
  {
    var n := |times| - 1;
    var before, now := times[..n], times[n];
    TimelyPrefix(times);
    if before == [] {
      FirstCall(times, window);
    } else {
      StoreHoldsWindow(before, window);
      WindowSlides(before, window, before[n - 1], now);
      assert before + [now] == times;
      assert StateAfter(times, window) == Some(After(StateAfter(before, window), window, now));
    }
  }

  lemma NoneLater(times: seq<int>)
    requires Timely(times) && times != []
    ensures forall t | t in times :: 0 <= t <= times[|times| - 1]
  {
  }

  lemma TimelyPrefix(times: seq<int>)
    requires Timely(times) && times != []
    ensures var n := |times| - 1;
            && Timely(times[..n])
            && (n > 0 ==> times[n - 1] <= times[n] && forall t | t in times[..n] :: 0 <= t <= times[n - 1])
  {
    var n := |times| - 1;
    if n > 0 {
      NoneLater(times[..n]);
    }
  }

  lemma FirstCall(times: seq<int>, window: int)
    requires window > 0 && |times| == 1
    ensures StateAfter(times, window) == Some(Zset(InWindow(times, window, times[0]), times[0] + window))
  {
    assert times[..0] == [];
    assert Kept({}, window, times[0]) + {times[0]} == {times[0]};
    assert InWindow(times, window, times[0]) == {times[0]};
  }

  /** Pruning the window that ended at the last call, or losing it to expiry, leaves the window that ends now. */
  lemma WindowSlides(times: seq<int>, window: int, last: int, now: int)
    requires window > 0 && last <= now && forall t | t in times :: 0 <= t <= last
    ensures var kept := if now < last + window then InWindow(times, window, last) else {};
            Kept(kept, window, now) + {now} == InWindow(times + [now], window, now)
  {
    var kept := if now < last + window then InWindow(times, window, last) else {};
    forall t
      ensures t in Kept(kept, window, now) + {now} <==> t in InWindow(times + [now], window, now)
    {
      assert t in times + [now] <==> t in times || t == now;
    }
  }

  /** A key's expiry never changes a decision: the store is always as if nothing expired. */
  lemma {:induction false} ExpiryChangesNothing(times: seq<int>, window: int)
    requires Timely(times) && window > 0 && times != []
    ensures StateAfter(times, window).value.members == NeverExpiring(times, window)
  {
    var n := |times| - 1;
    var before, now := times[..n], times[n];
    if before == [] {
    } else {
      ExpiryChangesNothing(before, window);
      StoreHoldsWindow(before, window);
      assert times[n - 1] <= now;
      assert Kept(Members(StateAfter(before, window), now), window, now) ==
          Kept(NeverExpiring(before, window), window, now);
    }
  }

  /** A call is admitted exactly if at most `limit` distinct call times, its own included, lie in its window. */
  lemma DecisionCountsCalls(times: seq<int>, limit: int, window: int, now: int)
    requires Timely(times + [now]) && window > 0
    ensures Admits(StateAfter(times, window), limit, window, now) <==> |InWindow(times + [now], window, now)| <= limit
  {
    var all := times + [now];
    assert all[..|times|] == times;
    StoreHoldsWindow(all, window);
  }

  /** The times of the admitted calls. */
  ghost function Admitted(times: seq<int>, limit: int, window: int): seq<int> {
    if times == [] then [] else
      var n := |times| - 1;
      var before := Admitted(times[..n], limit, window);
      if Admits(StateAfter(times[..n], window), limit, window, times[n]) then before + [times[n]] else before
  }

  lemma {:induction false} AdmittedAreCalls(times: seq<int>, limit: int, window: int)
    ensures forall t | t in Admitted(times, limit, window) :: t in times
  {
    if times == [] {
    } else {
      var n := |times| - 1;
      AdmittedAreCalls(times[..n], limit, window);
      forall t | t in Admitted(times, limit, window)
        ensures t in times
      {
        assert t in times[..n] || t == times[n];
      }
    }
  }

  ghost function Between(times: seq<int>, from: int, to: int): set<int> {
    set t | t in times && from <= t < to
  }

  /** Any half-open interval of one window's length holds admissions at no more than `limit` distinct times. */
  lemma {:induction false} RedisWindowBound(times: seq<int>, limit: nat, window: int, from: int)
    requires Timely(times) && window > 0
    ensures |Between(Admitted(times, limit, window), from, from + window)| <= limit
  {
    if times == [] {
      assert Between([], from, from + window) == {};
    } else {
      var n := |times| - 1;
      var before, now := times[..n], times[n];
      assert times == before + [now];
      RedisWindowBound(before, limit, window, from);
      if Admits(StateAfter(before, window), limit, window, now) {
        var earlier, admitted := Admitted(before, limit, window), Admitted(times, limit, window);
        if from <= now < from + window {
          AdmittedAreCalls(times, limit, window);
          assert Between(admitted, from, from + window) <= InWindow(times, window, now);
          Sums.SubsetSize(Between(admitted, from, from + window), InWindow(times, window, now));
          DecisionCountsCalls(before, limit, window, now);
        } else {
          assert Between(admitted, from, from + window) == Between(earlier, from, from + window);
        }
      }
    }
  }

  /** No two calls share an instant. */
  ghost predicate Advancing(times: seq<int>) {
    forall i | 0 <= i < |times| - 1 :: times[i] < times[i + 1]
  }

  ghost function CountBetween(times: seq<int>, from: int, to: int): nat {
    if times == [] then 0 else
      CountBetween(times[..|times| - 1], from, to) + if from <= times[|times| - 1] < to then 1 else 0
  }

  /** The admitted calls, and not only their distinct times, in the window that starts at `from`. */
  ghost function CallsFrom(times: seq<int>, limit: nat, window: int, from: int): nat {
    CountBetween(Admitted(times, limit, window), from, from + window)
  }

  ghost predicate BoundsCalls(times: seq<int>, limit: nat, window: int) {
    forall from :: CallsFrom(times, limit, window, from) <= limit
  }

  /** One more call, and whether it is admitted. */
  lemma AdmittedNext(times: seq<int>, now: int, limit: int, window: int)
    requires Timely(times + [now]) && window > 0
    ensures Admitted(times + [now], limit, window) ==
            if |InWindow(times + [now], window, now)| <= limit
            then Admitted(times, limit, window) + [now] else Admitted(times, limit, window)
  {
    assert (times + [now])[..|times|] == times;
    DecisionCountsCalls(times, limit, window, now);
  }

  lemma CountNext(times: seq<int>, time: int, from: int, to: int)
    ensures CountBetween(times + [time], from, to) == CountBetween(times, from, to) + if from <= time < to then 1 else 0
  {
    assert (times + [time])[..|times|] == times;
  }

  lemma CallsFromNext(times: seq<int>, now: int, limit: nat, window: int, from: int)
    requires Timely(times + [now]) && window > 0
    ensures CallsFrom(times, limit, window, from) <= CallsFrom(times + [now], limit, window, from)
  {
    AdmittedNext(times, now, limit, window);
    CountNext(Admitted(times, limit, window), now, from, from + window);
  }

  lemma {:induction false} CountGrows(times: seq<int>, limit: nat, window: int, from: int, k: nat)
    requires Timely(times) && window > 0 && k <= |times|
    ensures CallsFrom(times[..k], limit, window, from) <= CallsFrom(times, limit, window, from)
  {
    if k == |times| {
      assert times[..k] == times;
    } else {
      var n := |times| - 1;
      var before, now := times[..n], times[n];
      assert before[..k] == times[..k] && times == before + [now];
      CountGrows(before, limit, window, from, k);
      CallsFromNext(before, now, limit, window, from);
    }
  }

  /** Under a limit and a window of one, every call is admitted. */
  lemma NarrowWindowAdmits(times: seq<int>, now: int)
    requires Timely(times + [now])
    ensures CallsFrom(times + [now], 1, 1, now) == CallsFrom(times, 1, 1, now) + 1
  {
    assert InWindow(times + [now], 1, now) == {now};
    AdmittedNext(times, now, 1, 1);
    CountNext(Admitted(times, 1, 1), now, now, now + 1);
  }

  lemma TimelyTake(times: seq<int>, k: nat)
    requires Timely(times) && k <= |times|
    ensures Timely(times[..k])
  {
  }

  /** Two calls at one instant are both admitted under a limit and a window of one. */
  lemma RepeatIsAdmitted(times: seq<int>, i: nat)
    requires Timely(times) && i + 1 < |times| && times[i] == times[i + 1]
    ensures CallsFrom(times, 1, 1, times[i]) >= 2
  {
    var at, before, one, two := times[i], times[..i], times[..i + 1], times[..i + 2];
    assert one == before + [at] && two == one + [at];
    TimelyTake(times, i + 1);
    TimelyTake(times, i + 2);
    NarrowWindowAdmits(before, at);
    NarrowWindowAdmits(one, at);
    CountGrows(times, 1, 1, at, i + 2);
  }

  /* Exactly how many calls a crowded instant lets through */

  ghost predicate AtMostPerInstant(times: seq<int>, m: nat) {
    forall t :: multiset(times)[t] <= m
  }

  /** The calls at the instants in a set. */
  ghost function CountAt(times: seq<int>, instants: set<int>): nat {
    if times == [] then 0 else
      CountAt(times[..|times| - 1], instants) + if times[|times| - 1] in instants then 1 else 0
  }

  lemma {:induction false} CountAtInstant(times: seq<int>, instants: set<int>, t: int)
    requires t in instants
    ensures CountAt(times, instants) == CountAt(times, instants - {t}) + multiset(times)[t]
  {
    if times == [] {
    } else {
      var n := |times| - 1;
      CountAtInstant(times[..n], instants, t);
      assert times == times[..n] + [times[n]];
    }
  }

  lemma {:induction false} CountAtMost(times: seq<int>, instants: set<int>, m: nat)
    requires AtMostPerInstant(times, m)
    ensures CountAt(times, instants) <= m * |instants|
    decreases |instants|
  {
    if instants == {} {
      NobodyCounted(times);
    } else {
      var t := Sums.SomeElement(instants);
      CountAtInstant(times, instants, t);
      CountAtMost(times, instants - {t}, m);
      assert m * |instants| == m * |instants - {t}| + m;
    }
  }

  lemma {:induction false} NobodyCounted(times: seq<int>)
    ensures CountAt(times, {}) == 0
  {
    if times == [] {
    } else {
      NobodyCounted(times[..|times| - 1]);
    }
  }

  lemma {:induction false} CountBetweenIs(times: seq<int>, from: int, to: int, instants: set<int>)
    requires forall t | t in times :: t in instants <==> from <= t < to
    ensures CountBetween(times, from, to) == CountAt(times, instants)
  {
    if times == [] {
    } else {
      var n := |times| - 1;
      assert times[n] in times && forall t | t in times[..n] :: t in times;
      CountBetweenIs(times[..n], from, to, instants);
    }
  }

  lemma {:induction false} AdmittedAtMost(times: seq<int>, limit: int, window: int, t: int)
    ensures multiset(Admitted(times, limit, window))[t] <= multiset(times)[t]
  {
    if times == [] {
    } else {
      var n := |times| - 1;
      AdmittedAtMost(times[..n], limit, window, t);
      assert times == times[..n] + [times[n]];
    }
  }

  function Instants(limit: nat, window: nat): nat {
    if limit <= window then limit else window
  }

  ghost function Range(from: int, n: nat): set<int> {
    if n == 0 then {} else Range(from, n - 1) + {from + n - 1}
  }

  lemma {:induction false} RangeIs(from: int, n: nat)
    ensures |Range(from, n)| == n && forall t :: t in Range(from, n) <==> from <= t < from + n
  {
    if n == 0 {
    } else {
      RangeIs(from, n - 1);
    }
  }

  lemma BetweenFits(times: seq<int>, from: int, window: nat)
    ensures |Between(times, from, from + window)| <= window
  {
    RangeIs(from, window);
    Sums.SubsetSize(Between(times, from, from + window), Range(from, window));
  }

  /** If no instant has more than `m` calls, a window admits at most `m` at each of the instants it can hold. */
  lemma CrowdBound(times: seq<int>, limit: nat, window: nat, from: int, m: nat)
    requires Timely(times) && window > 0 && AtMostPerInstant(times, m)
    ensures CallsFrom(times, limit, window, from) <= m * Instants(limit, window)
  {
    var admitted := Admitted(times, limit, window);
    RedisWindowBound(times, limit, window, from);
    BetweenFits(admitted, from, window);
    AdmittedCrowd(times, limit, window, m);
    CountBetweenAtMost(admitted, from, from + window, m);
    Scale(m, |Between(admitted, from, from + window)|, Instants(limit, window));
  }

  lemma AdmittedCrowd(times: seq<int>, limit: int, window: int, m: nat)
    requires AtMostPerInstant(times, m)
    ensures AtMostPerInstant(Admitted(times, limit, window), m)
  {
    forall t
      ensures multiset(Admitted(times, limit, window))[t] <= m
    {
      AdmittedAtMost(times, limit, window, t);
    }
  }

  lemma CountBetweenAtMost(times: seq<int>, from: int, to: int, m: nat)
    requires AtMostPerInstant(times, m)
    ensures CountBetween(times, from, to) <= m * |Between(times, from, to)|
  {
    CountBetweenIs(times, from, to, Between(times, from, to));
    CountAtMost(times, Between(times, from, to), m);
  }

  lemma Scale(m: nat, a: nat, b: nat)
    requires a <= b
    ensures m * a <= m * b
  {
    assert m * b == m * a + m * (b - a);
  }

  /** With a strictly advancing clock the bound counts the admitted calls themselves. */
  lemma AdvancingClockCountsCalls(times: seq<int>, limit: nat, window: nat, from: int)
    requires Timely(times) && window > 0 && Advancing(times)
    ensures CountBetween(Admitted(times, limit, window), from, from + window) <= limit
  {
    OneCallPerInstant(times);
    CrowdBound(times, limit, window, from, 1);
  }

  lemma {:induction false} OneCallPerInstant(times: seq<int>)
    requires Timely(times) && Advancing(times)
    ensures AtMostPerInstant(times, 1)
  {
    if times == [] {
    } else {
      var n := |times| - 1;
      var before, now := times[..n], times[n];
      OneCallPerInstant(before);
      TimelyPrefix(times);
      assert now !in before;
      assert times == before + [now];
    }
  }

  /** In every run, each limit bounds the admitted calls in each window if and only if no two calls share an instant. */
  lemma CallsBoundedIffAdvancing(times: seq<int>)
    requires Timely(times)
    ensures (forall limit: nat, window: nat | window > 0 :: BoundsCalls(times, limit, window)) <==> Advancing(times)
  {
    if Advancing(times) {
      forall limit: nat, window: nat | window > 0
        ensures BoundsCalls(times, limit, window)
      {
        forall from
          ensures CallsFrom(times, limit, window, from) <= limit
        {
          AdvancingClockCountsCalls(times, limit, window, from);
        }
      }
    } else {
      var i :| 0 <= i < |times| - 1 && times[i] >= times[i + 1];
      assert times[i] == times[i + 1];
      RepeatIsAdmitted(times, i);
      assert !BoundsCalls(times, 1, 1);
    }
  }

  /** As long as the calls share at most `limit` instants, all of them are admitted, however many there are. */
  lemma {:induction false} FewInstantsAllAdmitted(times: seq<int>, limit: nat, window: int, instants: set<int>)
    requires Timely(times) && window > 0 && |instants| <= limit && forall t | t in times :: t in instants
    ensures Admitted(times, limit, window) == times
  {
    if times == [] {
    } else {
      var n := |times| - 1;
      var before, now := times[..n], times[n];
      assert times == before + [now];
      FewInstantsAllAdmitted(before, limit, window, instants);
      Sums.SubsetSize(InWindow(times, window, now), instants);
      AdmittedNext(before, now, limit, window);
    }
  }

  /** Any number of calls at one instant is admitted, whatever the limit, if it is at least one. */
  lemma SameInstantEscapes(n: nat, at: nat, limit: nat, window: int)
    requires window > 0 && limit >= 1
    ensures Admitted(seq(n, _ => at), limit, window) == seq(n, _ => at)
  {
    FewInstantsAllAdmitted(seq(n, _ => at), limit, window, {at});
  }

  /** `m` calls at each of the instants 0 to `d` - 1. */
  ghost function Crowd(d: nat, m: nat): seq<int> {
    if d == 0 then [] else Crowd(d - 1, m) + Together(m, d - 1)
  }

  ghost function Together(m: nat, at: int): seq<int> {
    seq(m, _ => at)
  }

  lemma {:induction false} TogetherIs(m: nat, at: int)
    ensures forall t :: multiset(Together(m, at))[t] == if t == at then m else 0
  {
    if m == 0 {
      assert Together(m, at) == [];
    } else {
      TogetherIs(m - 1, at);
      assert Together(m, at) == Together(m - 1, at) + [at];
    }
  }

  lemma {:induction false} CrowdSize(d: nat, m: nat)
    ensures |Crowd(d, m)| == d * m && forall t | t in Crowd(d, m) :: 0 <= t < d
  {
    if d == 0 {
    } else {
      CrowdSize(d - 1, m);
      assert d * m == (d - 1) * m + m;
      forall t | t in Crowd(d, m)
        ensures 0 <= t < d
      {
        assert t in Crowd(d - 1, m) || t in Together(m, d - 1);
      }
    }
  }

  lemma {:induction false} CrowdIsTimely(d: nat, m: nat)
    ensures Timely(Crowd(d, m)) && AtMostPerInstant(Crowd(d, m), m)
  {
    if d == 0 {
      assert Crowd(d, m) == [];
    } else {
      CrowdIsTimely(d - 1, m);
      CrowdSize(d - 1, m);
      var before := Crowd(d - 1, m);
      LaterCrowd(before, m, d - 1, Crowd(d, m));
    }
  }

  lemma LaterCrowd(times: seq<int>, m: nat, at: nat, all: seq<int>)
    requires Timely(times) && AtMostPerInstant(times, m) && forall t | t in times :: 0 <= t < at
    requires all == times + Together(m, at)
    ensures Timely(all) && AtMostPerInstant(all, m)
  {
    TogetherIs(m, at);
    assert forall i | 0 <= i < |times| :: times[i] in times;
    forall t
      ensures multiset(all)[t] <= m
    {
      assert multiset(all)[t] == multiset(times)[t] + multiset(Together(m, at))[t];
    }
  }

  lemma {:induction false} AllBetween(times: seq<int>, from: int, to: int)
    requires forall t | t in times :: from <= t < to
    ensures CountBetween(times, from, to) == |times|
  {
    if times == [] {
    } else {
      var n := |times| - 1;
      assert times[n] in times && forall t | t in times[..n] :: t in times;
      AllBetween(times[..n], from, to);
    }
  }

  lemma CrowdReaches(limit: nat, window: nat, m: nat)
    requires window > 0
    ensures var times := Crowd(Instants(limit, window), m);
            && Timely(times) && AtMostPerInstant(times, m)
            && CallsFrom(times, limit, window, 0) == Instants(limit, window) * m
  {
    var d := Instants(limit, window);
    var times := Crowd(d, m);
    CrowdSize(d, m);
    CrowdIsTimely(d, m);
    RangeIs(0, d);
    FewInstantsAllAdmitted(times, limit, window, Range(0, d));
    AllBetween(times, 0, window);
  }

  /**
   For the limit and the window in force: the limit bounds the admitted calls in every run
   that has at most `m` calls at any instant, if and only if `m` calls at each instant of a
   window, or at as many as the limit, do not exceed it.
   */
  lemma BoundedIffFewPerInstant(limit: nat, window: nat, m: nat)
    requires window > 0
    ensures (forall times | Timely(times) && AtMostPerInstant(times, m) :: BoundsCalls(times, limit, window)) <==>
            m * Instants(limit, window) <= limit
  {
    if m * Instants(limit, window) <= limit {
      forall times, from | Timely(times) && AtMostPerInstant(times, m)
        ensures CallsFrom(times, limit, window, from) <= limit
      {
        CrowdBound(times, limit, window, from, m);
      }
    } else {
      CrowdReaches(limit, window, m);
      assert !BoundsCalls(Crowd(Instants(limit, window), m), limit, window);
    }
  }
}
