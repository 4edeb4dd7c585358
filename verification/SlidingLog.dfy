/**
 The in-memory sliding log of `RateLimitStore` (backend/app/middleware/security_advanced.py).
 One log per identifier is shared by endpoints with different limits and windows.
 */
module SlidingLog {

  /** The recorded times after a cutoff. */
  function Recent(log: seq<int>, cutoff: int): (recent: seq<int>)
    ensures |recent| <= |log|
  {
    if log == [] then [] else
      var last, before := log[|log| - 1], Recent(log[..|log| - 1], cutoff);
      if last > cutoff then before + [last] else before
  }

  /** Exactly the times after the cutoff are kept, as often as they occur. */
  lemma {:induction false} RecentKeepsLater(log: seq<int>, cutoff: int)
    ensures forall t :: multiset(Recent(log, cutoff))[t] == if t > cutoff then multiset(log)[t] else 0
  {
    if log == [] {
    } else {
      RecentKeepsLater(log[..|log| - 1], cutoff);
      assert log == log[..|log| - 1] + [log[|log| - 1]];
    }
  }

  datatype Call = Call(now: int, limit: int, window: int)

  function Cutoff(call: Call): int { call.now - call.window }

  predicate Allows(log: seq<int>, call: Call) {
    |Recent(log, Cutoff(call))| < call.limit
  }

  /** The log after a call: pruned, and extended if the call is admitted. */
  function Logged(log: seq<int>, call: Call): seq<int> {
    if Allows(log, call) then Recent(log, Cutoff(call)) + [call.now] else Recent(log, Cutoff(call))
  }

  /**
   A call is admitted exactly if fewer than `limit` of the logged times lie in its window.
   The log then holds those times, and the call's own if it is admitted.
   */
  lemma CallCountsItsWindow(log: seq<int>, call: Call) returns (kept: seq<int>)
    ensures forall t :: multiset(kept)[t] == if t > call.now - call.window then multiset(log)[t] else 0
    ensures Allows(log, call) <==> |kept| < call.limit
    ensures Logged(log, call) == if |kept| < call.limit then kept + [call.now] else kept
  {
    kept := Recent(log, call.now - call.window);
    RecentKeepsLater(log, call.now - call.window);
  }

  class RateLimitStore {
    var requests: map<string, seq<int>>

    constructor ()
      ensures requests == map[]
    {
      requests := map[];
    }

    /** A missing identifier reads as an empty log. */
    function Log(identifier: string): seq<int>
      reads this
    {
      if identifier in requests then requests[identifier] else []
    }

    method IsAllowed(identifier: string, limit: int, window: int, now: int) returns (allowed: bool)
      modifies this
      ensures forall other | other != identifier :: Log(other) == old(Log(other))
      ensures allowed == Allows(old(Log(identifier)), Call(now, limit, window))
      ensures requests == old(requests)[identifier := Logged(old(Log(identifier)), Call(now, limit, window))]
    {
      var recent := Recent(Log(identifier), now - window);
      requests := requests[identifier := recent];
      if |recent| >= limit {
        return false;
      }
      requests := requests[identifier := recent + [now]];
      allowed := true;
    }

    /** Positive exactly if a call at the same instant would be admitted. Looking an identifier up creates its log. */
    method GetRemaining(identifier: string, limit: int, window: int, now: int) returns (remaining: int)
      modifies this
      ensures remaining >= 0
      ensures remaining > 0 <==> Allows(old(Log(identifier)), Call(now, limit, window))
      ensures remaining > 0 ==> remaining + |Recent(old(Log(identifier)), now - window)| == limit
      ensures requests == old(requests)[identifier := old(Log(identifier))]
    {
      if identifier !in requests {
        requests := requests[identifier := []];
      }
      var recent := Recent(requests[identifier], now - window);
      remaining := if limit - |recent| > 0 then limit - |recent| else 0;
    }
  }

  /* Runs of calls for one identifier */

  /** The clock does not go back, and windows are positive. */
  ghost predicate Timely(calls: seq<Call>) {
    && (forall i, j | 0 <= i < j < |calls| :: calls[i].now <= calls[j].now)
    && (forall i | 0 <= i < |calls| :: calls[i].window > 0)
  }

  ghost function LogAfter(calls: seq<Call>): seq<int> {
    if calls == [] then [] else Logged(LogAfter(calls[..|calls| - 1]), calls[|calls| - 1])
  }

  /** The times of all admitted calls: what the limiter is about, whether or not the log still has them. */
  ghost function Admitted(calls: seq<Call>): seq<int> {
    if calls == [] then [] else
      var n := |calls| - 1;
      if Allows(LogAfter(calls[..n]), calls[n]) then Admitted(calls[..n]) + [calls[n].now] else Admitted(calls[..n])
  }

  /** The latest cutoff that any of the calls has pruned the log with, at least `floor`. */
  ghost function Watermark(calls: seq<Call>, floor: int): int {
    if calls == [] then floor else
      var before := Watermark(calls[..|calls| - 1], floor);
      if Cutoff(calls[|calls| - 1]) > before then Cutoff(calls[|calls| - 1]) else before
  }

  lemma {:induction false} RecentOfRecent(log: seq<int>, a: int, b: int)
    ensures Recent(Recent(log, a), b) == Recent(log, if a > b then a else b)
  {
    if log == [] {
    } else {
      var n := |log| - 1;
      RecentOfRecent(log[..n], a, b);
      RecentAppend(Recent(log[..n], a), log[n], b);
    }
  }

  lemma RecentAppend(log: seq<int>, time: int, cutoff: int)
    ensures Recent(log + [time], cutoff) == if time > cutoff then Recent(log, cutoff) + [time] else Recent(log, cutoff)
  {
    assert (log + [time])[..|log|] == log;
  }

  lemma {:induction false} WatermarkBelow(calls: seq<Call>, floor: int, now: int)
    requires Timely(calls) && floor < now && forall i | 0 <= i < |calls| :: calls[i].now <= now
    ensures floor <= Watermark(calls, floor) < now
  {
    if calls == [] {
    } else {
      WatermarkBelow(calls[..|calls| - 1], floor, now);
    }
  }

  lemma {:induction false} RecentAll(log: seq<int>, cutoff: int)
    requires forall i | 0 <= i < |log| :: log[i] > cutoff
    ensures Recent(log, cutoff) == log
  {
    if log == [] {
    } else {
      RecentAll(log[..|log| - 1], cutoff);
    }
  }

  /** After every run, the log holds exactly the admissions after the latest cutoff used. */
  lemma {:induction false} LogHoldsRecentAdmissions(calls: seq<Call>, floor: int)
    requires Timely(calls) && forall i | 0 <= i < |calls| :: floor < calls[i].now
    ensures LogAfter(calls) == Recent(Admitted(calls), Watermark(calls, floor))
  {
    if calls == [] {
      assert Recent([], floor) == [];
    } else {
      var n := |calls| - 1;
      var before, call := calls[..n], calls[n];
      assert calls == before + [call];
      PrefixTimely(before, call);
      LogHoldsRecentAdmissions(before, floor);
      WatermarkBelow(before, floor, call.now);
      LogNext(LogAfter(before), Admitted(before), Watermark(before, floor), call);
    }
  }

  lemma LogNext(log: seq<int>, admitted: seq<int>, watermark: int, call: Call)
    requires log == Recent(admitted, watermark) && watermark < call.now && call.window > 0
    ensures Logged(log, call) ==
            Recent(if Allows(log, call) then admitted + [call.now] else admitted,
                   if Cutoff(call) > watermark then Cutoff(call) else watermark)
  {
    RecentOfRecent(admitted, watermark, Cutoff(call));
    RecentAppend(admitted, call.now, if Cutoff(call) > watermark then Cutoff(call) else watermark);
  }

  /** The call comes no earlier than the calls of the run. */
  ghost predicate ComesAfter(call: Call, calls: seq<Call>) {
    Timely(calls) && call.window > 0 && forall i | 0 <= i < |calls| :: calls[i].now <= call.now
  }

  lemma DecisionAt(calls: seq<Call>, call: Call, floor: int)
    requires ComesAfter(call, calls) && forall i | 0 <= i < |calls| :: floor < calls[i].now
    ensures var seen := Watermark(calls, floor);
            Allows(LogAfter(calls), call) <==>
            |Recent(Admitted(calls), if seen > Cutoff(call) then seen else Cutoff(call))| < call.limit
  {
    LogHoldsRecentAdmissions(calls, floor);
    RecentOfRecent(Admitted(calls), Watermark(calls, floor), Cutoff(call));
  }

  /**
   The exact decision in every run: a call is admitted if and only if fewer than `limit`
   admissions lie after both its own cutoff and the latest cutoff used before it.
   */
  lemma DecisionCountsUnpruned(calls: seq<Call>, call: Call, floor: int)
    requires Timely(calls + [call]) && forall i | 0 <= i < |calls| :: floor < calls[i].now
    ensures var seen := Watermark(calls, floor);
            Allows(LogAfter(calls), call) <==>
            |Recent(Admitted(calls), if seen > Cutoff(call) then seen else Cutoff(call))| < call.limit
  {
    PrefixTimely(calls, call);
    DecisionAt(calls, call, floor);
  }

  lemma PrefixTimely(calls: seq<Call>, call: Call)
    requires Timely(calls + [call])
    ensures Timely(calls) && call.window > 0 && forall i | 0 <= i < |calls| :: calls[i].now <= call.now
  {
    var all := calls + [call];
    assert all[|calls|] == call;
    assert forall i | 0 <= i < |calls| :: all[i] == calls[i];
  }

  lemma {:induction false} RecentShrinks(log: seq<int>, a: int, b: int)
    requires a <= b
    ensures |Recent(log, b)| <= |Recent(log, a)|
  {
    if log == [] {
    } else {
      RecentShrinks(log[..|log| - 1], a, b);
    }
  }

  /** A refusal is always justified: at least `limit` admissions lie in the caller's own window. */
  lemma RefusalIsJustified(calls: seq<Call>, call: Call, floor: int)
    requires Timely(calls + [call]) && forall i | 0 <= i < |calls| :: floor < calls[i].now
    requires !Allows(LogAfter(calls), call)
    ensures |Recent(Admitted(calls), Cutoff(call))| >= call.limit
  {
    DecisionCountsUnpruned(calls, call, floor);
    var seen := Watermark(calls, floor);
    RecentShrinks(Admitted(calls), Cutoff(call), if seen > Cutoff(call) then seen else Cutoff(call));
  }

  lemma {:induction false} WatermarkWithin(calls: seq<Call>, floor: int, now: int, window: int)
    requires forall i | 0 <= i < |calls| :: calls[i].now <= now && calls[i].window >= window
    requires floor <= now - window
    ensures Watermark(calls, floor) <= now - window
  {
    if calls == [] {
    } else {
      WatermarkWithin(calls[..|calls| - 1], floor, now, window);
    }
  }

  /** With no smaller window used so far, the decision counts exactly the admissions in the caller's window. */
  lemma SmallestWindowIsExact(calls: seq<Call>, call: Call)
    requires Timely(calls + [call]) && forall i | 0 <= i < |calls| :: calls[i].window >= call.window
    ensures Allows(LogAfter(calls), call) <==> |Recent(Admitted(calls), Cutoff(call))| < call.limit
  {
    PrefixTimely(calls, call);
    var floor := Floor(calls, Cutoff(call));
    DecisionCountsUnpruned(calls, call, floor);
    WatermarkWithin(calls, floor, call.now, call.window);
  }

  /** A time before all the calls. */
  lemma {:induction false} Floor(calls: seq<Call>, below: int) returns (floor: int)
    ensures floor <= below && forall i | 0 <= i < |calls| :: floor < calls[i].now
  {
    if calls == [] {
      floor := below;
    } else {
      floor := Floor(calls[..|calls| - 1], below);
      if calls[|calls| - 1].now <= floor {
        floor := calls[|calls| - 1].now - 1;
      }
    }
  }

  /** The number of times from `from` to just before `to`. */
  ghost function Count(times: seq<int>, from: int, to: int): nat {
    if times == [] then 0 else
      Count(times[..|times| - 1], from, to) + if from <= times[|times| - 1] < to then 1 else 0
  }

  lemma {:induction false} CountWithinRecent(times: seq<int>, from: int, to: int, cutoff: int)
    requires cutoff < from
    ensures Count(times, from, to) <= |Recent(times, cutoff)|
  {
    if times == [] {
    } else {
      CountWithinRecent(times[..|times| - 1], from, to, cutoff);
    }
  }

  lemma CountAppend(times: seq<int>, time: int, from: int, to: int)
    ensures Count(times + [time], from, to) == Count(times, from, to) + if from <= time < to then 1 else 0
  {
    assert (times + [time])[..|times|] == times;
  }

  /**
   If every call uses a window of at least `window` and a limit of at most `limit`, any
   half-open interval of that length holds at most `limit` admissions.
   */
  lemma {:induction false} WindowBoundsAdmissions(calls: seq<Call>, limit: nat, window: int, from: int)
    requires Timely(calls) && window > 0 && WindowsAtLeast(calls, window) && LimitsAtMost(calls, limit)
    ensures Count(Admitted(calls), from, from + window) <= limit
  {
    if calls == [] {
    } else {
      FrontTimely(calls, limit, window);
      WindowBoundsAdmissions(calls[..|calls| - 1], limit, window, from);
      KeptWithin(calls[..|calls| - 1], calls[|calls| - 1], window);
      LastWithinBound(calls, limit, window, from);
    }
  }

  ghost predicate WindowsAtLeast(calls: seq<Call>, window: int) {
    forall i | 0 <= i < |calls| :: calls[i].window >= window
  }

  ghost predicate LimitsAtMost(calls: seq<Call>, limit: int) {
    forall i | 0 <= i < |calls| :: calls[i].limit <= limit
  }

  lemma FrontTimely(calls: seq<Call>, limit: int, window: int)
    requires calls != [] && Timely(calls) && WindowsAtLeast(calls, window) && LimitsAtMost(calls, limit)
    ensures var front := calls[..|calls| - 1];
            Timely(front) && WindowsAtLeast(front, window) && LimitsAtMost(front, limit)
    ensures ComesAfter(calls[|calls| - 1], calls[..|calls| - 1])
    ensures calls[|calls| - 1].limit <= limit && calls[|calls| - 1].window >= window
  {
  }

  lemma LastWithinBound(calls: seq<Call>, limit: nat, window: int, from: int)
    requires calls != []
    requires var n := |calls| - 1;
             && calls[n].limit <= limit && Count(Admitted(calls[..n]), from, from + window) <= limit
             && (Allows(LogAfter(calls[..n]), calls[n]) ==>
                  |Recent(Admitted(calls[..n]), calls[n].now - window)| < calls[n].limit)
    ensures Count(Admitted(calls), from, from + window) <= limit
  {
    var n := |calls| - 1;
    var allowed := Allows(LogAfter(calls[..n]), calls[n]);
    NextWithinBound(Admitted(calls[..n]), Admitted(calls), allowed, calls[n].now, limit, window, from);
  }

  lemma NextWithinBound(times: seq<int>, next: seq<int>, admitted: bool, now: int, limit: nat, window: int, from: int)
    requires next == if admitted then times + [now] else times
    requires admitted ==> |Recent(times, now - window)| < limit
    requires Count(times, from, from + window) <= limit
    ensures Count(next, from, from + window) <= limit
  {
    if admitted {
      OneMoreAdmission(times, now, limit, window, from);
    }
  }

  lemma OneMoreAdmission(times: seq<int>, now: int, limit: nat, window: int, from: int)
    requires Count(times, from, from + window) <= limit
    requires |Recent(times, now - window)| < limit
    ensures Count(times + [now], from, from + window) <= limit
  {
    CountAppend(times, now, from, from + window);
    if from <= now < from + window {
      CountWithinRecent(times, from, from + window, now - window);
    }
  }

  /** An admitted call had fewer than `limit` admissions in any window that nobody has pruned into. */
  lemma KeptWithin(calls: seq<Call>, call: Call, window: int)
    requires ComesAfter(call, calls) && 0 < window <= call.window
    requires WindowsAtLeast(calls, window)
    ensures Allows(LogAfter(calls), call) ==> |Recent(Admitted(calls), call.now - window)| < call.limit
  {
    var floor := Floor(calls, Cutoff(call));
    DecisionAt(calls, call, floor);
    WatermarkWithin(calls, floor, call.now, window);
    var seen := Watermark(calls, floor);
    RecentShrinks(Admitted(calls), if seen > Cutoff(call) then seen else Cutoff(call), call.now - window);
  }

  /* Exactly which endpoints of a table are decided by their own admissions */

  datatype Endpoint = Endpoint(limit: int, window: int)

  function EndpointOf(call: Call): Endpoint { Endpoint(call.limit, call.window) }

  /** A run of calls to endpoints of a table. */
  ghost predicate Within(calls: seq<Call>, table: set<Endpoint>) {
    Timely(calls) && forall i | 0 <= i < |calls| :: EndpointOf(calls[i]) in table
  }

  /** The decision on a call is the one that counting all admissions in its own window gives. */
  ghost predicate Exact(calls: seq<Call>, call: Call) {
    Allows(LogAfter(calls), call) <==> |Recent(Admitted(calls), Cutoff(call))| < call.limit
  }

  ghost predicate AlwaysExact(table: set<Endpoint>, endpoint: Endpoint) {
    forall calls, call | Within(calls + [call], table) && EndpointOf(call) == endpoint :: Exact(calls, call)
  }

  /** A shorter window prunes what the endpoint counts, and records at most its own call instead. */
  predicate Disturbs(other: Endpoint, endpoint: Endpoint) {
    other.window < endpoint.window && endpoint.limit > if other.limit > 0 then 1 else 0
  }

  /** The log still has the latest admission, or the endpoint no longer counts it. */
  ghost predicate KeepsLatest(calls: seq<Call>, window: int) {
    var log, admitted := LogAfter(calls), Admitted(calls);
    admitted == []
    || (log != [] && log[|log| - 1] == admitted[|admitted| - 1])
    || (calls != [] && admitted[|admitted| - 1] <= calls[|calls| - 1].now - window)
  }

  lemma RecentKeepsLast(log: seq<int>, cutoff: int)
    requires log != [] && log[|log| - 1] > cutoff
    ensures Recent(log, cutoff) != [] && Recent(log, cutoff)[|Recent(log, cutoff)| - 1] == log[|log| - 1]
  {
  }

  ghost predicate Ascending(log: seq<int>) {
    forall i, j | 0 <= i < j < |log| :: log[i] <= log[j]
  }

  lemma {:induction false} RecentAscends(log: seq<int>, cutoff: int)
    requires Ascending(log)
    ensures Ascending(Recent(log, cutoff)) && forall t | t in Recent(log, cutoff) :: t in log
    ensures Recent(log, cutoff) == [] <==> log == [] || log[|log| - 1] <= cutoff
  {
    if log == [] {
    } else {
      var n := |log| - 1;
      RecentAscends(log[..n], cutoff);
      if log[n] > cutoff {
        AscendingAppend(Recent(log[..n], cutoff), log[n]);
      }
    }
  }

  lemma AscendingAppend(log: seq<int>, time: int)
    requires Ascending(log) && forall t | t in log :: t <= time
    ensures Ascending(log + [time])
  {
    assert forall i | 0 <= i < |log| :: log[i] in log;
  }

  /** The log and the admissions are in the order of time, and none is later than the latest call. */
  lemma {:induction false} LogAscends(calls: seq<Call>)
    requires Timely(calls)
    ensures Ascending(LogAfter(calls)) && Ascending(Admitted(calls))
    ensures forall t | t in LogAfter(calls) || t in Admitted(calls) :: calls != [] && t <= calls[|calls| - 1].now
  {
    if calls == [] {
    } else {
      var n := |calls| - 1;
      LogAscends(calls[..n]);
      assert n > 0 ==> calls[n - 1].now <= calls[n].now;
      LoggedAscends(LogAfter(calls[..n]), Admitted(calls[..n]), calls[n]);
    }
  }

  lemma LoggedAscends(log: seq<int>, admitted: seq<int>, call: Call)
    requires Ascending(log) && Ascending(admitted) && forall t | t in log || t in admitted :: t <= call.now
    ensures Ascending(Logged(log, call)) && forall t | t in Logged(log, call) :: t <= call.now
    ensures Ascending(admitted + [call.now])
  {
    RecentAscends(log, Cutoff(call));
    AscendingAppend(Recent(log, Cutoff(call)), call.now);
    AscendingAppend(admitted, call.now);
  }

  lemma KeepsLatestStep(calls: seq<Call>, call: Call, window: int)
    requires Timely(calls + [call]) && KeepsLatest(calls, window) && (call.limit > 0 || call.window >= window)
    ensures KeepsLatest(calls + [call], window)
  {
    var all := calls + [call];
    PrefixTimely(calls, call);
    LogAscends(calls);
    assert all[..|calls|] == calls && all[|calls|] == call;
    var log, admitted := LogAfter(calls), Admitted(calls);
    if !Allows(log, call) && admitted != [] {
      RecentAscends(log, Cutoff(call));
      if log != [] && log[|log| - 1] == admitted[|admitted| - 1] && log[|log| - 1] > Cutoff(call) {
        RecentKeepsLast(log, Cutoff(call));
      }
    }
  }

  lemma {:induction false} AlwaysKeepsLatest(calls: seq<Call>, window: int)
    requires Timely(calls) && forall i | 0 <= i < |calls| :: calls[i].limit > 0 || calls[i].window >= window
    ensures KeepsLatest(calls, window)
  {
    if calls == [] {
    } else {
      var n := |calls| - 1;
      assert calls == calls[..n] + [calls[n]];
      AlwaysKeepsLatest(calls[..n], window);
      KeepsLatestStep(calls[..n], calls[n], window);
    }
  }

  /** An endpoint that admits one call per window only needs to know whether its latest admission is recent. */
  lemma SingleAdmissionIsExact(calls: seq<Call>, call: Call)
    requires Timely(calls + [call]) && call.limit == 1
    requires forall i | 0 <= i < |calls| :: calls[i].limit > 0 || calls[i].window >= call.window
    ensures Exact(calls, call)
  {
    PrefixTimely(calls, call);
    LogAscends(calls);
    AlwaysKeepsLatest(calls, call.window);
    RecentAscends(LogAfter(calls), Cutoff(call));
    RecentAscends(Admitted(calls), Cutoff(call));
    LogIsAdmitted(calls);
  }

  /** The log holds nothing later than the latest admission. */
  lemma LogIsAdmitted(calls: seq<Call>)
    requires Timely(calls)
    ensures LogAfter(calls) != [] ==> Admitted(calls) != []
    ensures LogAfter(calls) != [] ==> LogAfter(calls)[|LogAfter(calls)| - 1] <= Admitted(calls)[|Admitted(calls)| - 1]
  {
    var floor := Floor(calls, 0);
    LogHoldsRecentAdmissions(calls, floor);
    LogAscends(calls);
    RecentAscends(Admitted(calls), Watermark(calls, floor));
  }

  lemma UndisturbedIsExact(table: set<Endpoint>, endpoint: Endpoint, calls: seq<Call>, call: Call)
    requires Within(calls + [call], table) && EndpointOf(call) == endpoint
    requires forall other | other in table :: !Disturbs(other, endpoint)
    ensures Exact(calls, call)
  {
    forall i | 0 <= i < |calls|
      ensures !Disturbs(EndpointOf(calls[i]), endpoint)
    {
      assert (calls + [call])[i] == calls[i];
    }
    if call.limit > 1 {
      SmallestWindowIsExact(calls, call);
    } else if call.limit == 1 {
      SingleAdmissionIsExact(calls, call);
    }
  }

  /** Calls that fill the endpoint's limit at once. */
  ghost function Full(endpoint: Endpoint, n: nat): seq<Call> {
    if n == 0 then [] else Full(endpoint, n - 1) + [Call(0, endpoint.limit, endpoint.window)]
  }

  lemma {:induction false} FullIsAdmitted(endpoint: Endpoint, n: nat)
    requires n <= endpoint.limit && endpoint.window > 0
    ensures |Full(endpoint, n)| == n
            && forall i | 0 <= i < n :: Full(endpoint, n)[i] == Call(0, endpoint.limit, endpoint.window)
    ensures LogAfter(Full(endpoint, n)) == Admitted(Full(endpoint, n)) == Zeros(n)
  {
    if n == 0 {
    } else {
      var call, zeros := Call(0, endpoint.limit, endpoint.window), Zeros(n - 1);
      FullIsAdmitted(endpoint, n - 1);
      RecentAll(zeros, Cutoff(call));
      OneMoreCall(Full(endpoint, n - 1), call, zeros, zeros);
    }
  }

  ghost function Zeros(n: nat): (zeros: seq<int>)
    ensures |zeros| == n && forall i | 0 <= i < n :: zeros[i] == 0
  {
    if n == 0 then [] else Zeros(n - 1) + [0]
  }

  /** The endpoint's limit is used up, the shorter window clears the log, and the endpoint admits another call. */
  lemma DisturbedIsInexact(table: set<Endpoint>, endpoint: Endpoint, other: Endpoint)
    requires endpoint in table && other in table && other.window > 0 && Disturbs(other, endpoint)
    ensures !AlwaysExact(table, endpoint)
  {
    var n, v := endpoint.limit, other.window;
    var full, short, last := Full(endpoint, n), Call(v, other.limit, v), Call(v, n, endpoint.window);
    FullIsAdmitted(endpoint, n);
    WithinTable(table, full, short, last);
    OneTooMany(full, n, short, last);
    assert EndpointOf(last) == endpoint;
  }

  lemma OneTooMany(full: seq<Call>, n: nat, short: Call, last: Call)
    requires LogAfter(full) == Admitted(full) == Zeros(n) && Cutoff(short) == 0
    requires 0 < last.now == short.now == short.window < last.window
            && last.limit == n > if short.limit > 0 then 1 else 0
    ensures !Exact(full + [short], last)
  {
    ShortCallClears(full, n, short);
    RecentAll(Admitted(full + [short]), Cutoff(last));
  }

  lemma WithinTable(table: set<Endpoint>, full: seq<Call>, short: Call, last: Call)
    requires forall i | 0 <= i < |full| :: full[i].now == 0 && full[i].window > 0 && EndpointOf(full[i]) in table
    requires EndpointOf(short) in table && EndpointOf(last) in table && short.window > 0 && last.window > 0
    requires 0 <= short.now <= last.now
    ensures Within(full + [short] + [last], table)
  {
    var all, n := full + [short] + [last], |full|;
    assert forall i | 0 <= i < n :: all[i] == full[i];
    assert all[n] == short && all[n + 1] == last;
  }

  lemma ShortCallClears(full: seq<Call>, n: nat, short: Call)
    requires LogAfter(full) == Admitted(full) == Zeros(n) && Cutoff(short) == 0
    ensures |LogAfter(full + [short])| == if short.limit > 0 then 1 else 0
    ensures |Admitted(full + [short])| >= n
    ensures forall i | 0 <= i < |Admitted(full + [short])| :: Admitted(full + [short])[i] in {0, short.now}
  {
    RecentNone(Zeros(n), 0);
    OneMoreCall(full, short, Zeros(n), Zeros(n));
  }

  /**
   An endpoint is always decided by the admissions in its own window if and only if the
   table has no shorter window, or the endpoint admits at most one call and the endpoints
   with shorter windows admit one.
   */
  lemma ExactIffUndisturbed(table: set<Endpoint>, endpoint: Endpoint)
    requires endpoint in table && forall e | e in table :: e.window > 0
    ensures AlwaysExact(table, endpoint) <==> forall other | other in table :: !Disturbs(other, endpoint)
  {
    if forall other | other in table :: !Disturbs(other, endpoint) {
      forall calls, call | Within(calls + [call], table) && EndpointOf(call) == endpoint
        ensures Exact(calls, call)
      {
        UndisturbedIsExact(table, endpoint, calls, call);
      }
    } else {
      var other :| other in table && Disturbs(other, endpoint);
      DisturbedIsInexact(table, endpoint, other);
    }
  }

  /**
   Mixed windows lose admissions: after three password-reset requests, which may be made
   three times in 300 seconds, one login, whose window is 60 seconds, clears the log and
   lets a fourth request through.
   */
  lemma ShortWindowForgets()
    ensures var fourth := Call(101, 3, 300);
            && Timely(RequestsThenLogin() + [fourth])
            && Allows(LogAfter(RequestsThenLogin()), fourth)
            && |Recent(Admitted(RequestsThenLogin()), Cutoff(fourth))| > fourth.limit
  {
    LoginClearsRequests();
    RecentAll([100], -199);
    RecentAll([0, 1, 2, 100], -199);
    RequestsAreTimely();
  }

  lemma RequestsAreTimely()
    ensures Timely(RequestsThenLogin() + [Call(101, 3, 300)])
  {
    FiveInOrder(Call(0, 3, 300), Call(1, 3, 300), Call(2, 3, 300), Call(100, 5, 60), Call(101, 3, 300));
  }

  ghost function RequestsThenLogin(): seq<Call> {
    [Call(0, 3, 300)] + [Call(1, 3, 300)] + [Call(2, 3, 300)] + [Call(100, 5, 60)]
  }

  lemma FiveInOrder(a: Call, b: Call, c: Call, d: Call, e: Call)
    requires a.now <= b.now <= c.now <= d.now <= e.now
    requires a.window > 0 && b.window > 0 && c.window > 0 && d.window > 0 && e.window > 0
    ensures Timely([a] + [b] + [c] + [d] + [e])
  {
    assert [a] + [b] + [c] + [d] + [e] == [a, b, c, d, e];
  }

  lemma LoginClearsRequests()
    ensures LogAfter(RequestsThenLogin()) == [100] && Admitted(RequestsThenLogin()) == [0, 1, 2, 100]
  {
    var three := [Call(0, 3, 300)] + [Call(1, 3, 300)] + [Call(2, 3, 300)];
    ThreeRequests();
    RecentNone([0, 1, 2], 40);
    OneMoreCall(three, Call(100, 5, 60), [0, 1, 2], [0, 1, 2]);
    assert [] + [100] == [100];
  }

  lemma ThreeRequests()
    ensures var three := [Call(0, 3, 300)] + [Call(1, 3, 300)] + [Call(2, 3, 300)];
            LogAfter(three) == [0, 1, 2] && Admitted(three) == [0, 1, 2]
  {
    var a, b, c := [Call(0, 3, 300)], [Call(1, 3, 300)], [Call(2, 3, 300)];
    OneMoreCall([], a[0], [], []);
    assert [] + a == a && [] + [0] == [0];
    RecentAll([0], -299);
    OneMoreCall(a, b[0], [0], [0]);
    assert [0] + [1] == [0, 1];
    RecentAll([0, 1], -298);
    OneMoreCall(a + b, c[0], [0, 1], [0, 1]);
  }

  lemma OneMoreCall(calls: seq<Call>, call: Call, log: seq<int>, admitted: seq<int>)
    requires LogAfter(calls) == log && Admitted(calls) == admitted
    ensures LogAfter(calls + [call]) == Logged(log, call)
    ensures Admitted(calls + [call]) == if Allows(log, call) then admitted + [call.now] else admitted
  {
    assert (calls + [call])[..|calls|] == calls;
  }

  lemma {:induction false} RecentNone(log: seq<int>, cutoff: int)
    requires forall i | 0 <= i < |log| :: log[i] <= cutoff
    ensures Recent(log, cutoff) == []
  {
    if log == [] {
    } else {
      RecentNone(log[..|log| - 1], cutoff);
    }
  }
}
