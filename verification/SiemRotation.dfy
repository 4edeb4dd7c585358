/**
 When deduplication is exact whatever hashes the rotations drop, in terms of the emitted
 events alone.
 */
module SiemRotation {
  import opened SiemModel
  import opened SiemDedup
  import Sums

  /** How many different hashes a history holds. */
  ghost function Distinct(history: seq<Event>): nat {
    |Hashes(history)|
  }

  /** Rotations take place when the number of different hashes passes the limit, and each ten thousand after that. */
  function LastRotation(distinct: nat): nat {
    if distinct <= SEEN_LIMIT then 0
    else distinct - (distinct - SEEN_LIMIT - 1) % ROTATED
  }

  /** How many hashes are remembered, if nothing was offered twice. */
  function SeenSize(distinct: nat): nat {
    if distinct <= SEEN_LIMIT then distinct
    else SEEN_LIMIT + 1 - ROTATED + (distinct - SEEN_LIMIT - 1) % ROTATED
  }

  lemma SizeGrows(distinct: nat)
    ensures SeenSize(distinct) <= SEEN_LIMIT && LastRotation(distinct) <= distinct
    ensures SeenSize(distinct) + 1 > SEEN_LIMIT <==> LastRotation(distinct + 1) == distinct + 1
    ensures if LastRotation(distinct + 1) == distinct + 1
            then SeenSize(distinct + 1) == SeenSize(distinct) + 1 - ROTATED
            else
              && SeenSize(distinct + 1) == SeenSize(distinct) + 1
              && LastRotation(distinct + 1) == LastRotation(distinct)
  {
    if distinct > SEEN_LIMIT {
      NextRemainder(distinct - SEEN_LIMIT - 1, ROTATED);
    }
  }

  lemma NextRemainder(a: nat, m: nat)
    requires m > 0
    ensures (a + 1) % m == if a % m == m - 1 then 0 else a % m + 1
  {
    var q, r := a / m, a % m;
    assert a == q * m + r;
    if r == m - 1 {
      assert a + 1 == (q + 1) * m;
      RemainderIs(a + 1, m, q + 1, 0);
    } else {
      RemainderIs(a + 1, m, q, r + 1);
    }
  }

  lemma RemainderIs(x: nat, m: nat, q: nat, r: nat)
    requires m > 0 && x == q * m + r && r < m
    ensures x % m == r
  {
    var d := x / m - q;
    assert x == x / m * m + x % m;
    assert d * m == r - x % m;
  }

  /** The hash was first emitted no later than the last rotation, if the rotations come where the count says. */
  ghost predicate Stale(history: seq<Event>, hash: string) {
    exists j :: 0 <= j < |history| && history[j].hash == hash
                && Distinct(history[..j + 1]) <= LastRotation(Distinct(history))
  }

  lemma DistinctGrows(history: seq<Event>, j: nat)
    requires j <= |history|
    ensures Distinct(history[..j]) <= Distinct(history)
  {
    assert forall e | e in history[..j] :: e in history;
    Sums.SubsetSize(Hashes(history[..j]), Hashes(history));
  }

  lemma StaleWasEmitted(history: seq<Event>, hash: string)
    requires Stale(history, hash)
    ensures hash in Hashes(history)
  {
  }

  /** At a rotation every hash emitted so far becomes stale. */
  lemma AllStale(history: seq<Event>, hash: string)
    requires LastRotation(Distinct(history)) == Distinct(history) && hash in Hashes(history)
    ensures Stale(history, hash)
  {
    var e :| e in history && e.hash == hash;
    var j :| 0 <= j < |history| && history[j] == e;
    DistinctGrows(history, j + 1);
  }

  /** Without a rotation, only what was stale before is stale after one more event. */
  lemma StaleNext(history: seq<Event>, event: Event, hash: string)
    requires LastRotation(Distinct(history + [event])) == LastRotation(Distinct(history))
    ensures Stale(history + [event], hash) ==>
            || Stale(history, hash)
            || (hash == event.hash && Distinct(history + [event]) <= LastRotation(Distinct(history)))
  {
    var all, n := history + [event], |history|;
    if Stale(all, hash) {
      var j :| 0 <= j < |all| && all[j].hash == hash && Distinct(all[..j + 1]) <= LastRotation(Distinct(all));
      if j < n {
        assert history[j] == all[j] && all[..j + 1] == history[..j + 1];
      } else {
        assert all[..j + 1] == all;
      }
    }
  }

  /** The number of remembered hashes is the one that the history fixes. */
  ghost predicate Tracks(p: Pipeline) {
    Remembers(p) && |p.seen| == SeenSize(Distinct(p.emitted))
  }

  /** An emit that does not offer a forgotten hash again. */
  lemma TrackingStep(p: Pipeline, event: Event, rotatedOut: set<string>)
    requires Tracks(p) && Enabled(p, Emit(event, rotatedOut))
    requires event.hash in Hashes(p.emitted) ==> event.hash in p.seen
    ensures var q := Apply(p, Emit(event, rotatedOut));
            && Tracks(q) && q.emitted == p.emitted + [event]
            && (event.hash in p.seen ==> q.seen == p.seen && Distinct(q.emitted) == Distinct(p.emitted))
            && (event.hash !in p.seen ==>
                 && Distinct(q.emitted) == Distinct(p.emitted) + 1
                 && q.seen == (if LastRotation(Distinct(q.emitted)) == Distinct(q.emitted)
                               then p.seen + {event.hash} - rotatedOut else p.seen + {event.hash}))
  {
    var q := Apply(p, Emit(event, rotatedOut));
    EmitRemembers(p, event, rotatedOut);
    HashesAppend(p.emitted, event);
    if event.hash in p.seen {
      assert Hashes(q.emitted) == Hashes(p.emitted);
    } else {
      NewHashStep(p.seen, Hashes(p.emitted), event.hash, rotatedOut);
    }
  }

  /** The two sizes after a new hash. */
  lemma NewHashStep(seen: set<string>, hashes: set<string>, hash: string, rotatedOut: set<string>)
    requires hash !in hashes && seen <= hashes && |seen| == SeenSize(|hashes|) && CanRotate(seen + {hash}, rotatedOut)
    ensures |hashes + {hash}| == |hashes| + 1
    ensures |Remembered(seen + {hash}, rotatedOut)| == SeenSize(|hashes| + 1)
    ensures Remembered(seen + {hash}, rotatedOut) ==
            if LastRotation(|hashes| + 1) == |hashes| + 1 then seen + {hash} - rotatedOut else seen + {hash}
  {
    SizeGrows(|hashes|);
    RotationSize(seen, hash, rotatedOut);
    RotationSize(hashes, hash, {});
  }

  lemma RotationSize(seen: set<string>, hash: string, rotatedOut: set<string>)
    requires hash !in seen
    ensures |seen + {hash}| == |seen| + 1
    ensures rotatedOut <= seen + {hash} ==> |seen + {hash} - rotatedOut| == |seen| + 1 - |rotatedOut|
  {
  }

  /* Emitting a history, with some choice of what the rotations drop */

  ghost function Emits(history: seq<Event>, choices: seq<set<string>>): seq<Step>
    requires |choices| == |history|
  {
    if history == [] then [] else
      var n := |history| - 1;
      Emits(history[..n], choices[..n]) + [Emit(history[n], choices[n])]
  }

  /** Each rotation drops ten thousand of the hashes that are there. */
  ghost predicate Possible(p: Pipeline, history: seq<Event>, choices: seq<set<string>>)
    requires |choices| == |history|
  {
    history == [] ||
    var n := |history| - 1;
    && Possible(p, history[..n], choices[..n])
    && Enabled(Run(p, Emits(history[..n], choices[..n])), Emit(history[n], choices[n]))
  }

  ghost function After(p: Pipeline, history: seq<Event>, choices: seq<set<string>>): Pipeline
    requires |choices| == |history|
  {
    Run(p, Emits(history, choices))
  }

  lemma AfterNext(p: Pipeline, history: seq<Event>, choices: seq<set<string>>)
    requires |choices| == |history| > 0
    ensures var n := |history| - 1;
            After(p, history, choices) == Apply(After(p, history[..n], choices[..n]), Emit(history[n], choices[n]))
  {
    var n := |history| - 1;
    RunAppend(p, Emits(history[..n], choices[..n]), Emit(history[n], choices[n]));
  }

  lemma {:induction false} AfterEmitted(p: Pipeline, history: seq<Event>, choices: seq<set<string>>)
    requires p.emitted == [] && |choices| == |history| && Possible(p, history, choices)
    ensures After(p, history, choices).emitted == history
  {
    if history == [] {
    } else {
      var n := |history| - 1;
      AfterNext(p, history, choices);
      AfterEmitted(p, history[..n], choices[..n]);
      EmitAppends(After(p, history[..n], choices[..n]), history[n], choices[n]);
      assert history == history[..n] + [history[n]];
    }
  }

  lemma EmitAppends(p: Pipeline, event: Event, rotatedOut: set<string>)
    requires Enabled(p, Emit(event, rotatedOut))
    ensures Apply(p, Emit(event, rotatedOut)).emitted == p.emitted + [event]
  {
  }

  /** An event repeats a hash first emitted no later than the last rotation before it. */
  ghost predicate StaleRepeat(history: seq<Event>, i: nat)
    requires i < |history|
  {
    Stale(history[..i], history[i].hash)
  }

  /* Without stale repeats, no choice of the dropped hashes matters */

  ghost predicate KeepsFresh(p: Pipeline) {
    forall hash | hash in Hashes(p.emitted) && !Stale(p.emitted, hash) :: hash in p.seen
  }

  lemma FreshStep(p: Pipeline, event: Event, rotatedOut: set<string>)
    requires Tracks(p) && KeepsFresh(p) && Enabled(p, Emit(event, rotatedOut)) && !Stale(p.emitted, event.hash)
    requires p.offered == FirstOccurrences(p.emitted)
    ensures var q := Apply(p, Emit(event, rotatedOut));
            Tracks(q) && KeepsFresh(q) && q.offered == FirstOccurrences(q.emitted)
  {
    var q := Apply(p, Emit(event, rotatedOut));
    TrackingStep(p, event, rotatedOut);
    StepSurplus(p, Emit(event, rotatedOut));
    forall hash | hash in Hashes(q.emitted) && !Stale(q.emitted, hash)
      ensures hash in q.seen
    {
      StaysFresh(p.emitted, event, hash);
    }
  }

  /**
   If a hash is not stale after one more event, then no rotation took place, and it is that
   event's, or was not stale before.
   */
  lemma StaysFresh(history: seq<Event>, event: Event, hash: string)
    requires hash in Hashes(history + [event]) && !Stale(history + [event], hash)
    ensures LastRotation(Distinct(history + [event])) != Distinct(history + [event])
    ensures hash == event.hash || (hash in Hashes(history) && !Stale(history, hash))
  {
    var all := history + [event];
    if LastRotation(Distinct(all)) == Distinct(all) {
      AllStale(all, hash);
    }
    HashesAppend(history, event);
    if hash != event.hash && Stale(history, hash) {
      StaleStays(history, event, hash);
    }
  }

  lemma StaleStays(history: seq<Event>, event: Event, hash: string)
    requires Stale(history, hash)
    ensures Stale(history + [event], hash)
  {
    var all := history + [event];
    var j :| 0 <= j < |history| && history[j].hash == hash
             && Distinct(history[..j + 1]) <= LastRotation(Distinct(history));
    assert all[j] == history[j] && all[..j + 1] == history[..j + 1];
    HashesAppend(history, event);
    RotationMoves(Hashes(history), event.hash);
  }

  lemma RotationMoves(hashes: set<string>, hash: string)
    ensures LastRotation(|hashes|) <= LastRotation(|hashes + {hash}|)
  {
    SizeGrows(|hashes|);
    if hash in hashes {
      assert hashes + {hash} == hashes;
    } else {
      RotationSize(hashes, hash, {});
    }
  }

  lemma {:induction false} NoStaleRepeatIsExact(p: Pipeline, history: seq<Event>, choices: seq<set<string>>)
    requires Fresh(p) && |choices| == |history| && Possible(p, history, choices)
    requires forall i | 0 <= i < |history| :: !StaleRepeat(history, i)
    ensures var q := After(p, history, choices);
            Tracks(q) && KeepsFresh(q) && q.offered == FirstOccurrences(q.emitted)
  {
    if history == [] {
      assert Hashes(p.emitted) == {};
    } else {
      var n := |history| - 1;
      forall i | 0 <= i < n
        ensures !StaleRepeat(history[..n], i)
      {
        assert history[..n][..i] == history[..i];
        assert !StaleRepeat(history, i);
      }
      NoStaleRepeatIsExact(p, history[..n], choices[..n]);
      AfterEmitted(p, history[..n], choices[..n]);
      AfterNext(p, history, choices);
      assert !StaleRepeat(history, n);
      FreshStep(After(p, history[..n], choices[..n]), history[n], choices[n]);
    }
  }

  /* With one, some choice offers it again */

  lemma {:induction false} SubsetOfSize(s: set<string>, n: nat) returns (t: set<string>)
    requires n <= |s|
    ensures t <= s && |t| == n
  {
    if n == 0 {
      t := {};
    } else {
      var x :| x in s;
      t := SubsetOfSize(s - {x}, n - 1);
      t := t + {x};
    }
  }

  /** A set of hashes to drop that includes `hash`, if it is there. */
  lemma DropIncluding(s: set<string>, hash: string) returns (t: set<string>)
    requires |s| > SEEN_LIMIT
    ensures CanRotate(s, t) && (hash in s ==> hash in t)
  {
    if hash in s {
      t := SubsetOfSize(s - {hash}, ROTATED - 1);
      t := t + {hash};
    } else {
      t := SubsetOfSize(s, ROTATED);
    }
  }

  /** Once stale, the hash is not remembered. */
  ghost predicate Drops(p: Pipeline, hash: string) {
    Tracks(p) && (Stale(p.emitted, hash) ==> hash !in p.seen)
  }

  lemma DropsStep(p: Pipeline, event: Event, rotatedOut: set<string>, hash: string)
    requires Drops(p, hash) && Enabled(p, Emit(event, rotatedOut))
    requires event.hash in Hashes(p.emitted) ==> event.hash in p.seen
    requires |p.seen + {event.hash}| > SEEN_LIMIT && hash in p.seen + {event.hash} ==> hash in rotatedOut
    ensures Drops(Apply(p, Emit(event, rotatedOut)), hash)
  {
    var q := Apply(p, Emit(event, rotatedOut));
    TrackingStep(p, event, rotatedOut);
    SizeGrows(Distinct(p.emitted));
    if event.hash in p.seen {
      StaleNext(p.emitted, event, hash);
      if hash == event.hash && !Stale(p.emitted, hash) && Stale(q.emitted, hash) {
        EmittedBefore(p.emitted, hash);
        assert false;
      }
    } else {
      RotationSize(p.seen, event.hash, rotatedOut);
      if LastRotation(Distinct(q.emitted)) != Distinct(q.emitted) {
        StaleNext(p.emitted, event, hash);
        if Stale(p.emitted, hash) {
          StaleWasEmitted(p.emitted, hash);
        }
      }
    }
  }

  /** A hash that was emitted and is not stale was first emitted after the last rotation. */
  lemma EmittedBefore(history: seq<Event>, hash: string)
    requires hash in Hashes(history) && !Stale(history, hash)
    ensures Distinct(history) > LastRotation(Distinct(history))
  {
    if Distinct(history) <= LastRotation(Distinct(history)) {
      SizeGrows(Distinct(history));
      AllStale(history, hash);
    }
  }

  /** One more event, with a rotation that drops `hash` if it takes place and can. */
  lemma OneMore(p: Pipeline, history: seq<Event>, before: seq<set<string>>, hash: string)
    returns (choices: seq<set<string>>)
    requires |history| > 0 && |before| == |history| - 1 && Possible(p, history[..|before|], before)
    requires Remembers(After(p, history[..|before|], before))
    ensures |choices| == |history| && choices[..|before|] == before && Possible(p, history, choices)
    ensures var n, q := |before|, After(p, history[..|before|], before);
            var step, forgotten := Emit(history[n], choices[n]), history[n].hash in Hashes(q.emitted) - q.seen;
            && After(p, history, choices) == Apply(q, step) && Enabled(q, step) && Remembers(Apply(q, step))
            && Surplus(Apply(q, step)) == Surplus(q) + (if forgotten then 1 else 0)
            && (|q.seen + {history[n].hash}| > SEEN_LIMIT && hash in q.seen + {history[n].hash} ==> hash in choices[n])
  {
    var n, q := |before|, After(p, history[..|before|], before);
    var added, rotatedOut := q.seen + {history[n].hash}, {};
    if |added| > SEEN_LIMIT {
      rotatedOut := DropIncluding(added, hash);
    }
    choices := before + [rotatedOut];
    assert choices[..n] == before;
    AfterNext(p, history, choices);
    StepSurplus(q, Emit(history[n], rotatedOut));
    EmitRemembers(q, history[n], rotatedOut);
  }

  /**
   Rotations that drop one given hash whenever it is there: either they lead to a surplus,
   or the hash is gone once stale.
   */
  lemma {:induction false} DropOne(p: Pipeline, history: seq<Event>, hash: string) returns (choices: seq<set<string>>)
    requires Fresh(p)
    ensures |choices| == |history| && Possible(p, history, choices)
    ensures var q := After(p, history, choices); Remembers(q) && Surplus(q) >= 0 && (Surplus(q) == 0 ==> Drops(q, hash))
  {
    if history == [] {
      choices := [];
      assert Hashes(p.emitted) == {};
    } else {
      var n := |history| - 1;
      var before := DropOne(p, history[..n], hash);
      var q := After(p, history[..n], before);
      choices := OneMore(p, history, before, hash);
      if Surplus(After(p, history, choices)) == 0 {
        DropsStep(q, history[n], choices[n], hash);
      }
    }
  }

  /** With these rotations, some event is offered twice. */
  ghost predicate Escapes(p: Pipeline, history: seq<Event>, choices: seq<set<string>>) {
    && |choices| == |history| && Possible(p, history, choices)
    && Remembers(After(p, history, choices)) && Surplus(After(p, history, choices)) > 0
  }

  /** Any rotations can be continued to the end of the history; a surplus stays. */
  lemma {:induction false} Continue(p: Pipeline, history: seq<Event>, k: nat, before: seq<set<string>>)
    returns (choices: seq<set<string>>)
    requires k <= |history| && Escapes(p, history[..k], before)
    ensures Escapes(p, history, choices)
    decreases |history|
  {
    if k == |history| {
      choices := before;
      assert history[..k] == history;
    } else {
      var n := |history| - 1;
      var front := history[..n];
      assert front[..k] == history[..k];
      var most := Continue(p, front, k, before);
      choices := EscapesStill(p, history, most);
    }
  }

  lemma EscapesStill(p: Pipeline, history: seq<Event>, before: seq<set<string>>) returns (choices: seq<set<string>>)
    requires history != [] && Escapes(p, history[..|history| - 1], before)
    ensures Escapes(p, history, choices)
  {
    choices := OneMore(p, history, before, "");
  }

  /** A stale repeat is offered again if the rotations before it drop its hash. */
  lemma StaleRepeatCanEscape(p: Pipeline, history: seq<Event>, i: nat) returns (choices: seq<set<string>>)
    requires Fresh(p) && i < |history| && StaleRepeat(history, i)
    ensures Escapes(p, history, choices)
  {
    var before := DropOne(p, history[..i], history[i].hash);
    if Surplus(After(p, history[..i], before)) == 0 {
      var upTo := EscapesNow(p, history, i, before);
      choices := Continue(p, history, i + 1, upTo);
    } else {
      choices := Continue(p, history, i, before);
    }
  }

  lemma EscapesNow(p: Pipeline, history: seq<Event>, i: nat, before: seq<set<string>>) returns (upTo: seq<set<string>>)
    requires Fresh(p) && i < |history| && StaleRepeat(history, i)
    requires |before| == i && Possible(p, history[..i], before)
    requires var q := After(p, history[..i], before); Drops(q, history[i].hash) && Surplus(q) == 0
    ensures Escapes(p, history[..i + 1], upTo)
  {
    AfterEmitted(p, history[..i], before);
    StaleWasEmitted(history[..i], history[i].hash);
    assert history[..i + 1][..i] == history[..i];
    upTo := OneMore(p, history[..i + 1], before, history[i].hash);
  }

  /** Whatever the rotations drop, the events offered are exactly the first occurrences, in order. */
  ghost predicate AlwaysExact(p: Pipeline, history: seq<Event>) {
    forall choices | |choices| == |history| && Possible(p, history, choices) ::
      After(p, history, choices).offered == FirstOccurrences(history)
  }

  /**
   For every history: deduplication is exact whatever the rotations drop, if and only if no
   event repeats a hash that was first emitted no later than the last rotation point before
   it. The rotation points are fixed by the number of different hashes: the 100,001st, and
   each ten thousandth after it.
   */
  lemma ExactIffNoStaleRepeat(p: Pipeline, history: seq<Event>)
    requires Fresh(p)
    ensures AlwaysExact(p, history) <==> forall i | 0 <= i < |history| :: !StaleRepeat(history, i)
  {
    if forall i | 0 <= i < |history| :: !StaleRepeat(history, i) {
      forall choices | |choices| == |history| && Possible(p, history, choices)
        ensures After(p, history, choices).offered == FirstOccurrences(history)
      {
        NoStaleRepeatIsExact(p, history, choices);
        AfterEmitted(p, history, choices);
      }
    } else {
      var i :| 0 <= i < |history| && StaleRepeat(history, i);
      var choices := StaleRepeatCanEscape(p, history, i);
      AfterEmitted(p, history, choices);
    }
  }
}
