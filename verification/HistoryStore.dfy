/** The compliance history store (backend/app/services/compliance/history/store.py). */
module HistoryStore {
  import opened Wrappers

  const KEPT: nat := 288

  datatype Snapshot = Snapshot(id: string, device: string, framework: string, score: real, createdAt: int)

  function KeyOf(device: string, framework: string): string {
    device + ":" + framework
  }

  /** The last elements, at most `n`. */
  function LastOf(s: seq<Snapshot>, n: nat): seq<Snapshot> {
    if |s| <= n then s else s[|s| - n..]
  }

  function FirstOf(s: seq<Snapshot>, n: nat): seq<Snapshot> {
    if |s| <= n then s else s[..n]
  }

  /** The last 288 of a sequence, or all if there are no more. */
  ghost predicate LatestOf(s: seq<Snapshot>, latest: seq<Snapshot>) {
    && |latest| == (if |s| <= 288 then |s| else 288)
    && exists older :: s == older + latest
  }

  ghost predicate EarliestOf(s: seq<Snapshot>, earliest: seq<Snapshot>) {
    && |earliest| == (if |s| <= 288 then |s| else 288)
    && exists later :: s == earliest + later
  }

  lemma LastOfIsLatest(s: seq<Snapshot>)
    ensures LatestOf(s, LastOf(s, KEPT)) && EarliestOf(s, FirstOf(s, KEPT))
  {
    var cut := |s| - |LastOf(s, KEPT)|;
    assert s == s[..cut] + LastOf(s, KEPT);
    assert s == FirstOf(s, KEPT) + s[|FirstOf(s, KEPT)|..];
  }

  /** The snapshots that are not older than the cutoff. */
  function NotBefore(s: seq<Snapshot>, cutoff: int): seq<Snapshot> {
    if s == [] then [] else
      var last, before := s[|s| - 1], NotBefore(s[..|s| - 1], cutoff);
      if last.createdAt >= cutoff then before + [last] else before
  }

  /** Clearing names a device; no name, or an empty one, clears everything. */
  predicate Clears(device: Option<string>, key: string) {
    device.None? || device.value == "" || device.value + ":" <= key
  }

  /** `redisAnswers` tells whether the push reaches Redis. */
  datatype Operation = Save(snapshot: Snapshot, redisAnswers: bool) | Clear(device: Option<string>)

  datatype Store = Store(local: map<string, seq<Snapshot>>, redis: map<string, seq<Snapshot>>)

  function At(m: map<string, seq<Snapshot>>, key: string): seq<Snapshot> {
    if key in m then m[key] else []
  }

  class ComplianceHistoryStore {
    var localCache: map<string, seq<Snapshot>>
    /** The lists in Redis, newest first. */
    var redis: map<string, seq<Snapshot>>

    ghost function State(): Store
      reads this
    {
      Store(localCache, redis)
    }

    constructor ()
      ensures State() == Store(map[], map[])
    {
      localCache, redis := map[], map[];
    }

    method SaveSnapshot(snapshot: Snapshot, redisAnswers: bool)
      modifies this
      ensures State() == Apply(old(State()), Save(snapshot, redisAnswers))
      ensures var key := snapshot.device + ":" + snapshot.framework;
              && key in localCache && LatestOf(old(At(localCache, key)) + [snapshot], localCache[key])
              && (redisAnswers ==> key in redis && EarliestOf([snapshot] + old(At(redis, key)), redis[key]))
              && (!redisAnswers ==> redis == old(redis))
              && forall other | other != key :: At(localCache, other) == old(At(localCache, other))
                                                && At(redis, other) == old(At(redis, other))
    {
      var key := KeyOf(snapshot.device, snapshot.framework);
      LastOfIsLatest(At(localCache, key) + [snapshot]);
      LastOfIsLatest([snapshot] + At(redis, key));
      var cached := (if key in localCache then localCache[key] else []) + [snapshot];
      localCache := localCache[key := LastOf(cached, KEPT)];
      if redisAnswers {
        var pushed := [snapshot] + if key in redis then redis[key] else [];
        redis := redis[key := FirstOf(pushed, KEPT)];
      }
    }

    /** The keys of a device are collected first, and deleted one by one. */
    method ClearLocalCache(device: Option<string>)
      modifies this`localCache
      ensures State() == Apply(old(State()), Clear(device))
      ensures device.None? || device.value == "" ==> localCache == map[]
      ensures device.Some? && device.value != "" ==>
        forall key :: key in localCache <==> key in old(localCache) && !(device.value + ":" <= key)
      ensures forall key | key in localCache :: localCache[key] == old(localCache)[key]
    {
      if device.None? || device.value == "" {
        localCache := map[];
        assert Apply(old(State()), Clear(device)).local == map[];
        return;
      }
      var keys := set k | k in localCache && device.value + ":" <= k;
      while keys != {}
        invariant forall k | k in localCache :: k in old(localCache) && localCache[k] == old(localCache)[k]
        invariant forall k | k in old(localCache) && k !in localCache :: Clears(device, k)
        invariant keys == set k | k in localCache && device.value + ":" <= k
        decreases |keys|
      {
        var k :| k in keys;
        localCache := localCache - {k};
        keys := keys - {k};
      }
      assert forall k | k in localCache && device.value + ":" <= k :: k in keys;
      assert localCache == Apply(old(State()), Clear(device)).local;
    }

    function GetHistory(device: string, framework: string, hours: nat, now: int): seq<Snapshot>
      reads this
    {
      NotBefore(At(localCache, KeyOf(device, framework)), now - 3600 * hours)
    }

    /** The newest snapshot of the past year. */
    function GetLatestSnapshot(device: string, framework: string, now: int): Option<Snapshot>
      reads this
    {
      var history := GetHistory(device, framework, 8760, now);
      if history == [] then None else Some(history[|history| - 1])
    }
  }

  function Apply(store: Store, op: Operation): Store {
    match op
    case Save(snapshot, redisAnswers) =>
      var key := KeyOf(snapshot.device, snapshot.framework);
      var saved := store.(local := store.local[key := LastOf(At(store.local, key) + [snapshot], KEPT)]);
      if redisAnswers
      then saved.(redis := store.redis[key := FirstOf([snapshot] + At(store.redis, key), KEPT)])
      else saved
    case Clear(device) =>
      store.(local := map k | k in store.local && !Clears(device, k) :: store.local[k])
  }

  function Run(ops: seq<Operation>): Store {
    if ops == [] then Store(map[], map[]) else Apply(Run(ops[..|ops| - 1]), ops[|ops| - 1])
  }

  /* What a run of operations has saved under a key */

  /** The saves since the last clear that covered the key. */
  ghost function SinceClear(ops: seq<Operation>, key: string): seq<Snapshot> {
    if ops == [] then [] else
      var before := SinceClear(ops[..|ops| - 1], key);
      match ops[|ops| - 1]
      case Save(s, _) => if KeyOf(s.device, s.framework) == key then before + [s] else before
      case Clear(device) => if Clears(device, key) then [] else before
  }

  /** All the saves that reached Redis. */
  ghost function Reached(ops: seq<Operation>, key: string): seq<Snapshot> {
    if ops == [] then [] else
      var before := Reached(ops[..|ops| - 1], key);
      match ops[|ops| - 1]
      case Save(s, answers) => if answers && KeyOf(s.device, s.framework) == key then before + [s] else before
      case Clear(_) => before
  }

  ghost function Reversed(s: seq<Snapshot>): seq<Snapshot> {
    seq(|s|, i requires 0 <= i < |s| => s[|s| - 1 - i])
  }

  lemma PushReversed(s: seq<Snapshot>, x: Snapshot)
    ensures FirstOf([x] + Reversed(LastOf(s, KEPT)), KEPT) == Reversed(LastOf(s + [x], KEPT))
  {
  }

  /** After every run the cache holds the latest saves since the last clear, and Redis the latest ever, newest first. */
  lemma {:induction false} StoresHoldLatest(ops: seq<Operation>, key: string)
    ensures At(Run(ops).local, key) == LastOf(SinceClear(ops, key), KEPT)
    ensures At(Run(ops).redis, key) == Reversed(LastOf(Reached(ops, key), KEPT))
  {
    if ops == [] {
    } else {
      var n := |ops| - 1;
      StoresHoldLatest(ops[..n], key);
      match ops[n]
      case Save(s, answers) => PushReversed(Reached(ops[..n], key), s);
      case Clear(_) =>
    }
  }

  lemma {:induction false} ClearedIsSuffix(ops: seq<Operation>, key: string)
    requires forall op | op in ops && op.Save? :: op.redisAnswers
    ensures |SinceClear(ops, key)| <= |Reached(ops, key)|
    ensures SinceClear(ops, key) == Reached(ops, key)[|Reached(ops, key)| - |SinceClear(ops, key)|..]
  {
    if ops == [] {
    } else {
      var n := |ops| - 1;
      var a, b := SinceClear(ops[..n], key), Reached(ops[..n], key);
      assert ops[n] in ops && forall op | op in ops[..n] :: op in ops;
      ClearedIsSuffix(ops[..n], key);
      match ops[n]
      case Save(s, _) =>
        SuffixGrows(a, b, s);
        assert || (SinceClear(ops, key) == a && Reached(ops, key) == b)
               || (SinceClear(ops, key) == a + [s] && Reached(ops, key) == b + [s]);
      case Clear(_) =>
        assert SinceClear(ops, key) == a || SinceClear(ops, key) == [];
    }
  }

  lemma SuffixGrows(a: seq<Snapshot>, b: seq<Snapshot>, x: Snapshot)
    requires |a| <= |b| && a == b[|b| - |a|..]
    ensures a + [x] == (b + [x])[|b| - |a|..]
  {
  }

  /** If every push reached Redis, the reversed cache is a prefix of the Redis list. */
  lemma {:induction false} CacheIsPrefixOfRedis(ops: seq<Operation>, key: string)
    requires forall op | op in ops && op.Save? :: op.redisAnswers
    ensures Reversed(At(Run(ops).local, key)) <= At(Run(ops).redis, key)
  {
    StoresHoldLatest(ops, key);
    ClearedIsSuffix(ops, key);
    SuffixReversed(SinceClear(ops, key), Reached(ops, key));
  }

  /** The latest of a suffix, reversed, are a prefix of the latest of the whole, reversed. */
  lemma SuffixReversed(s: seq<Snapshot>, all: seq<Snapshot>)
    requires |s| <= |all| && s == all[|all| - |s|..]
    ensures Reversed(LastOf(s, KEPT)) <= Reversed(LastOf(all, KEPT))
  {
    var a, b := LastOf(s, KEPT), LastOf(all, KEPT);
    assert |a| <= |b| && a == b[|b| - |a|..];
    assert forall i | 0 <= i < |a| :: Reversed(a)[i] == Reversed(b)[i];
  }

  /* Queries */

  ghost predicate Ordered(s: seq<Snapshot>) {
    forall i, j | 0 <= i < j < |s| :: s[i].createdAt <= s[j].createdAt
  }

  lemma {:induction false} NothingNewer(s: seq<Snapshot>, cutoff: int)
    requires forall i | 0 <= i < |s| :: s[i].createdAt < cutoff
    ensures NotBefore(s, cutoff) == []
  {
    if s == [] {
    } else {
      NothingNewer(s[..|s| - 1], cutoff);
    }
  }

  lemma SuffixOfPrefix(s: seq<Snapshot>, from: nat)
    requires from <= |s| - 1
    ensures var n := |s| - 1;
            s[..n][from..] + [s[n]] == s[from..] && forall i | 0 <= i < n :: s[..n][i] == s[i]
  {
  }

  /** Over ordered snapshots, a query cuts off the older ones and keeps the rest. */
  lemma {:induction false} QueryIsSuffix(s: seq<Snapshot>, cutoff: int) returns (from: nat)
    requires Ordered(s)
    ensures from <= |s| && NotBefore(s, cutoff) == s[from..]
    ensures forall i | 0 <= i < |s| :: s[i].createdAt >= cutoff <==> from <= i
  {
    if s == [] {
      from := 0;
    } else {
      var n := |s| - 1;
      if s[n].createdAt < cutoff {
        NothingNewer(s, cutoff);
        from := n + 1;
      } else {
        from := QueryIsSuffix(s[..n], cutoff);
        SuffixOfPrefix(s, from);
      }
    }
  }

  /**
   With timestamps that do not go back, a history query returns a suffix of the cache; it
   returns something exactly if the newest save since the last clear is recent enough, and
   then ends with it.
   */
  lemma HistoryEndsWithNewest(ops: seq<Operation>, key: string, cutoff: int)
    requires Ordered(SinceClear(ops, key))
    ensures var history, saves := NotBefore(At(Run(ops).local, key), cutoff), SinceClear(ops, key);
            && (history != [] <==> saves != [] && saves[|saves| - 1].createdAt >= cutoff)
            && (history != [] ==> history[|history| - 1] == saves[|saves| - 1])
            && (exists from :: 0 <= from <= |At(Run(ops).local, key)| && history == At(Run(ops).local, key)[from..])
  {
    StoresHoldLatest(ops, key);
    var from := QueryIsSuffix(LastOf(SinceClear(ops, key), KEPT), cutoff);
  }

  /** The latest snapshot is the newest save since the last clear, if that is not older than 8760 hours. */
  lemma LatestIsNewest(store: ComplianceHistoryStore, ops: seq<Operation>, device: string, framework: string, now: int)
    requires store.State() == Run(ops) && Ordered(SinceClear(ops, KeyOf(device, framework)))
    ensures var saves := SinceClear(ops, KeyOf(device, framework));
            store.GetLatestSnapshot(device, framework, now) ==
            if saves != [] && saves[|saves| - 1].createdAt >= now - 3600 * 8760 then Some(saves[|saves| - 1]) else None
  {
    HistoryEndsWithNewest(ops, KeyOf(device, framework), now - 3600 * 8760);
  }

  /* Devices and frameworks are kept apart */

  ghost predicate NoColon(s: string) {
    forall i | 0 <= i < |s| :: s[i] != ':'
  }

  /** As long as no framework's name holds a colon, a key is shared exactly by one device and framework. */
  lemma KeysApart(device: string, framework: string, other: string, otherFramework: string)
    requires NoColon(framework) && NoColon(otherFramework)
    ensures KeyOf(device, framework) == KeyOf(other, otherFramework) <==> device == other && framework == otherFramework
  {
    var a, b := KeyOf(device, framework), KeyOf(other, otherFramework);
    if a == b {
      var m, n := |device|, |other|;
      assert a[..m] == device && a[m] == ':' && a[m + 1..] == framework;
      assert b[..n] == other && b[n] == ':' && b[n + 1..] == otherFramework;
    }
  }

  /** Clearing a device clears its own keys, and those of devices whose name begins with its name and a colon. */
  lemma ClearsOwn(device: string, other: string, framework: string)
    requires device != "" && NoColon(framework)
    ensures Clears(Some(device), KeyOf(other, framework)) <==> device == other || device + ":" <= other
  {
    var key, m, n := KeyOf(other, framework), |device|, |other|;
    assert key[..n] == other && key[n] == ':' && key[n + 1..] == framework;
    if device + ":" <= key {
      assert key[..m] == device && key[m] == ':';
      if m < n {
        assert (device + ":") == key[..m + 1] == other[..m + 1];
      }
    }
    if device + ":" <= other {
      assert key[..m + 1] == other[..m + 1];
    }
  }

  /** The saves for one device and framework since the last clear of that device, or of all. */
  ghost function OwnSaves(ops: seq<Operation>, device: string, framework: string): seq<Snapshot> {
    if ops == [] then [] else
      var before := OwnSaves(ops[..|ops| - 1], device, framework);
      match ops[|ops| - 1]
      case Save(s, _) => if s.device == device && s.framework == framework then before + [s] else before
      case Clear(cleared) => if cleared.None? || cleared.value in {"", device} then [] else before
  }

  /** No framework holds a colon, and no device that is cleared is followed by one in the name of this device. */
  ghost predicate PlainNames(ops: seq<Operation>, device: string) {
    forall op | op in ops ::
      match op
      case Save(s, _) => NoColon(s.framework)
      case Clear(cleared) => cleared.Some? ==> !(cleared.value + ":" <= device)
  }

  /** In every run with plain names, the cache of a device and framework is made of its own saves alone. */
  lemma {:induction false} SavesAreOwn(ops: seq<Operation>, device: string, framework: string)
    requires NoColon(framework) && PlainNames(ops, device)
    ensures SinceClear(ops, KeyOf(device, framework)) == OwnSaves(ops, device, framework)
  {
    if ops == [] {
    } else {
      var n := |ops| - 1;
      assert ops[n] in ops && forall op | op in ops[..n] :: op in ops;
      SavesAreOwn(ops[..n], device, framework);
      match ops[n]
      case Save(s, _) => KeysApart(s.device, s.framework, device, framework);
      case Clear(cleared) =>
        if cleared.Some? && cleared.value != "" {
          ClearsOwn(cleared.value, device, framework);
        }
    }
  }

  /** A query returns exactly the cached snapshots of the last so many hours. */
  lemma {:induction false} QueryReturnsRecent(s: seq<Snapshot>, cutoff: int)
    ensures forall x :: multiset(NotBefore(s, cutoff))[x] == if x.createdAt >= cutoff then multiset(s)[x] else 0
  {
    if s == [] {
    } else {
      QueryReturnsRecent(s[..|s| - 1], cutoff);
      assert s == s[..|s| - 1] + [s[|s| - 1]];
    }
  }

  /** A history query returns exactly the cached snapshots that are at most so many hours old. */
  lemma HistoryReturnsRecent(store: ComplianceHistoryStore, device: string, framework: string, hours: nat, now: int)
    ensures forall x ::
      multiset(store.GetHistory(device, framework, hours, now))[x] ==
      if x.createdAt >= now - 3600 * hours then multiset(At(store.localCache, device + ":" + framework))[x] else 0
  {
    QueryReturnsRecent(At(store.localCache, KeyOf(device, framework)), now - 3600 * hours);
  }
}
