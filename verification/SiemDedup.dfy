/** Deduplication in `emit`, and what the rotation of the seen hashes makes of it. */
module SiemDedup {
  import opened SiemModel
  import Sums

  ghost function Hashes(events: seq<Event>): set<string> {
    set e | e in events :: e.hash
  }

  /** Each event whose hash has not occurred before it. */
  ghost function FirstOccurrences(events: seq<Event>): seq<Event> {
    if events == [] then [] else
      var last, before := events[|events| - 1], events[..|events| - 1];
      if last.hash in Hashes(before) then FirstOccurrences(before) else FirstOccurrences(before) + [last]
  }

  lemma HashesAppend(events: seq<Event>, event: Event)
    ensures Hashes(events + [event]) == Hashes(events) + {event.hash}
  {
    assert (events + [event])[|events|] == event;
    assert forall e | e in events :: e in events + [event];
  }

  /** What the seen-set is after a run. */
  ghost predicate Remembers(p: Pipeline) {
    && |p.seen| <= SEEN_LIMIT
    && p.seen <= Hashes(p.emitted)
    && (|Hashes(p.emitted)| <= SEEN_LIMIT ==> p.seen == Hashes(p.emitted) && p.offered == FirstOccurrences(p.emitted))
  }

  lemma EmitRemembers(p: Pipeline, event: Event, rotatedOut: set<string>)
    requires Remembers(p) && Enabled(p, Emit(event, rotatedOut))
    ensures Remembers(Apply(p, Emit(event, rotatedOut)))
  {
    var q := Apply(p, Emit(event, rotatedOut));
    HashesAppend(p.emitted, event);
    assert q.emitted[..|p.emitted|] == p.emitted;
    Sums.SubsetSize(Hashes(p.emitted), Hashes(q.emitted));
    if event.hash in p.seen {
      assert Hashes(q.emitted) == Hashes(p.emitted);
    } else {
      var added := p.seen + {event.hash};
      assert |added| == |p.seen| + 1;
      if |added| > SEEN_LIMIT {
        assert |added - rotatedOut| == |added| - |rotatedOut|;
        assert added <= Hashes(q.emitted);
        Sums.SubsetSize(added, Hashes(q.emitted));
      }
    }
  }

  /**
   After every run at most `SEEN_LIMIT` hashes are remembered, all of them emitted before,
   so an event is skipped only if its hash was emitted before. As long as no more than
   that many distinct hashes have been emitted, what is offered to the queues is exactly
   the first occurrences, in order.
   */
  lemma {:induction false} DeduplicationIsExact(p: Pipeline, steps: seq<Step>)
    requires Fresh(p)
    ensures Remembers(Run(p, steps))
  {
    if steps == [] {
    } else {
      var n := |steps| - 1;
      DeduplicationIsExact(p, steps[..n]);
      var q := Run(p, steps[..n]);
      if Enabled(q, steps[n]) && steps[n].Emit? {
        EmitRemembers(q, steps[n].event, steps[n].rotatedOut);
      }
    }
  }

  /* Exactly when the filter is exact */

  /** The k-th step emits a hash that was emitted before and that a rotation has forgotten since. */
  ghost predicate Forgotten(p: Pipeline, steps: seq<Step>, k: nat)
    requires k < |steps|
  {
    var q := Run(p, steps[..k]);
    && Enabled(q, steps[k]) && steps[k].Emit?
    && steps[k].event.hash in Hashes(q.emitted) && steps[k].event.hash !in q.seen
  }

  /** How many events more are offered than there are first occurrences. */
  ghost function Surplus(p: Pipeline): int {
    |p.offered| - |FirstOccurrences(p.emitted)|
  }

  /** An emit of a forgotten hash adds to the surplus; any other step keeps the filter as exact as it was. */
  lemma StepSurplus(p: Pipeline, step: Step)
    requires Remembers(p)
    ensures var q := Apply(p, step);
            var forgotten := Enabled(p, step) && step.Emit? && step.event.hash in Hashes(p.emitted) - p.seen;
            && Surplus(q) == Surplus(p) + (if forgotten then 1 else 0)
            && (p.offered == FirstOccurrences(p.emitted) && !forgotten ==> q.offered == FirstOccurrences(q.emitted))
  {
    if Enabled(p, step) && step.Emit? {
      var q := Apply(p, step);
      assert q.emitted[..|p.emitted|] == p.emitted;
      assert FirstOccurrences(q.emitted) ==
        if step.event.hash in Hashes(p.emitted) then FirstOccurrences(p.emitted)
        else FirstOccurrences(p.emitted) + [step.event];
    }
  }

  ghost predicate AnyForgotten(p: Pipeline, steps: seq<Step>) {
    exists k :: 0 <= k < |steps| && Forgotten(p, steps, k)
  }

  lemma AnyForgottenNext(p: Pipeline, steps: seq<Step>)
    requires steps != []
    ensures var n := |steps| - 1; AnyForgotten(p, steps) <==> AnyForgotten(p, steps[..n]) || Forgotten(p, steps, n)
  {
    var n := |steps| - 1;
    var before := steps[..n];
    forall k | 0 <= k < n
      ensures Forgotten(p, before, k) <==> Forgotten(p, steps, k)
    {
      assert before[..k] == steps[..k];
    }
    if k :| 0 <= k < |before| && Forgotten(p, before, k) {
      assert Forgotten(p, steps, k);
    }
    if k :| 0 <= k < |steps| && Forgotten(p, steps, k) {
      assert k == n || Forgotten(p, before, k);
    }
  }

  lemma {:induction false} SurplusCountsForgotten(p: Pipeline, steps: seq<Step>)
    requires Fresh(p)
    ensures var q := Run(p, steps);
            && Surplus(q) >= 0
            && (Surplus(q) > 0 <==> AnyForgotten(p, steps))
            && (Surplus(q) == 0 ==> q.offered == FirstOccurrences(q.emitted))
  {
    if steps == [] {
    } else {
      var n := |steps| - 1;
      var before := steps[..n];
      SurplusCountsForgotten(p, before);
      DeduplicationIsExact(p, before);
      StepSurplus(Run(p, before), steps[n]);
      AnyForgottenNext(p, steps);
    }
  }

  /**
   In every run, of any length, what is offered to the queues is exactly the first
   occurrences, in order, if and only if no event was emitted whose hash had been emitted
   before and dropped by a rotation since.
   */
  lemma ExactIffNothingForgotten(p: Pipeline, steps: seq<Step>)
    requires Fresh(p)
    ensures var q := Run(p, steps);
            q.offered == FirstOccurrences(q.emitted) <==> forall k | 0 <= k < |steps| :: !Forgotten(p, steps, k)
  {
    SurplusCountsForgotten(p, steps);
  }

  /* One distinct hash more, and a duplicate can get through */

  ghost function Name(n: nat): string {
    seq(n, _ => 'x')
  }

  ghost function Named(n: nat): Event {
    Event("", Name(n))
  }

  /** The names of lengths below `n`. */
  ghost function Names(n: nat): set<string> {
    if n == 0 then {} else Names(n - 1) + {Name(n - 1)}
  }

  lemma {:induction false} NamesAre(n: nat)
    ensures |Names(n)| == n
    ensures forall k: nat :: Name(k) in Names(n) <==> k < n
  {
    if n == 0 {
    } else {
      NamesAre(n - 1);
      assert forall k: nat | k != n - 1 :: |Name(k)| != |Name(n - 1)|;
    }
  }

  lemma {:induction false} NamesGrow(m: nat, n: nat)
    requires m <= n
    ensures Names(m) <= Names(n)
  {
    if m == n {
    } else {
      NamesGrow(m, n - 1);
    }
  }

  /** Emits the events of hashes 0 to n - 1, none of which is a duplicate. */
  ghost function EmitAll(n: nat): seq<Step> {
    if n == 0 then [] else EmitAll(n - 1) + [Emit(Named(n - 1), {})]
  }

  lemma RunAppend(p: Pipeline, steps: seq<Step>, step: Step)
    ensures Run(p, steps + [step]) == Apply(Run(p, steps), step)
  {
    assert (steps + [step])[..|steps|] == steps;
  }

  /** A new hash that the set has room for is offered and remembered. */
  lemma EmitNew(p: Pipeline, event: Event, rotatedOut: set<string>)
    requires event.hash !in p.seen && |p.seen| < SEEN_LIMIT
    ensures var q := Apply(p, Emit(event, rotatedOut));
            && q.seen == p.seen + {event.hash}
            && q.emitted == p.emitted + [event] && q.offered == p.offered + [event]
            && Hashes(q.emitted) == Hashes(p.emitted) + {event.hash}
  {
    assert |p.seen + {event.hash}| == |p.seen| + 1;
    HashesAppend(p.emitted, event);
  }

  /** The first `n` names have been emitted and are all remembered. */
  ghost predicate EmittedUpTo(p: Pipeline, n: nat) {
    p.seen == Names(n) && Hashes(p.emitted) == Names(n) && (n > 0 ==> Named(0) in p.offered)
  }

  lemma OneMore(p: Pipeline, n: nat)
    requires EmittedUpTo(p, n) && n < SEEN_LIMIT
    ensures EmittedUpTo(Apply(p, Emit(Named(n), {})), n + 1)
  {
    NamesAre(n);
    EmitNew(p, Named(n), {});
  }

  lemma {:induction false} AllEmitted(p: Pipeline, n: nat)
    requires p.seen == {} && p.emitted == [] && n <= SEEN_LIMIT
    ensures EmittedUpTo(Run(p, EmitAll(n)), n)
  {
    if n > 0 {
      AllEmitted(p, n - 1);
      OneMore(Run(p, EmitAll(n - 1)), n - 1);
      RunAppend(p, EmitAll(n - 1), Emit(Named(n - 1), {}));
    } else {
      assert Hashes(p.emitted) == {};
    }
  }

  /**
   The limit is sharp: with one distinct hash more, the rotation forgets some hashes, and
   an event with one of them is offered a second time.
   */
  lemma RotationReoffers(p: Pipeline)
    requires Fresh(p)
    ensures var full := Run(p, EmitAll(SEEN_LIMIT));
            var q := Run(p, EmitAll(SEEN_LIMIT) + [Emit(Named(SEEN_LIMIT), Names(ROTATED))] + [Emit(Named(0), {})]);
            && |Hashes(q.emitted)| == SEEN_LIMIT + 1
            && Named(0) in full.offered
            && q.offered == full.offered + [Named(SEEN_LIMIT)] + [Named(0)]
  {
    var all := EmitAll(SEEN_LIMIT);
    RunAppend(p, all, Emit(Named(SEEN_LIMIT), Names(ROTATED)));
    RunAppend(p, all + [Emit(Named(SEEN_LIMIT), Names(ROTATED))], Emit(Named(0), {}));
    AllEmitted(p, SEEN_LIMIT);
    RotateFull(Run(p, all));
    Reoffer(Apply(Run(p, all), Emit(Named(SEEN_LIMIT), Names(ROTATED))));
  }

  lemma OneNameMore(n: nat)
    requires n > 0
    ensures |Names(n) + {Name(n)} + {Name(0)}| == n + 1
  {
    NamesAre(n);
    NamesAre(n + 1);
    assert Names(n) + {Name(n)} + {Name(0)} == Names(n + 1);
  }

  lemma Reoffer(rotated: Pipeline)
    requires Hashes(rotated.emitted) == Names(SEEN_LIMIT) + {Name(SEEN_LIMIT)}
    requires Name(0) !in rotated.seen && |rotated.seen| < SEEN_LIMIT
    ensures var q := Apply(rotated, Emit(Named(0), {}));
            q.offered == rotated.offered + [Named(0)] && |Hashes(q.emitted)| == SEEN_LIMIT + 1
  {
    EmitNew(rotated, Named(0), {});
    OneNameMore(SEEN_LIMIT);
  }

  lemma SizeAfterRotation(seen: set<string>, hash: string, rotatedOut: set<string>)
    requires hash !in seen && rotatedOut <= seen
    ensures |seen + {hash}| == |seen| + 1
    ensures |seen + {hash} - rotatedOut| == |seen| + 1 - |rotatedOut|
  {
  }

  /** A new hash that the set has no room for is offered and remembered, and the rotation takes place. */
  lemma EmitOverflow(p: Pipeline, event: Event, rotatedOut: set<string>)
    requires event.hash !in p.seen && |p.seen| == SEEN_LIMIT && rotatedOut <= p.seen && |rotatedOut| == ROTATED
    ensures var q := Apply(p, Emit(event, rotatedOut));
            && q.seen == p.seen + {event.hash} - rotatedOut && |q.seen| == SEEN_LIMIT + 1 - |rotatedOut|
            && q.offered == p.offered + [event] && Hashes(q.emitted) == Hashes(p.emitted) + {event.hash}
  {
    SizeAfterRotation(p.seen, event.hash, rotatedOut);
    HashesAppend(p.emitted, event);
  }

  lemma RotateFull(full: Pipeline)
    requires full.seen == Names(SEEN_LIMIT) && Hashes(full.emitted) == Names(SEEN_LIMIT)
    ensures var rotated := Apply(full, Emit(Named(SEEN_LIMIT), Names(ROTATED)));
            && rotated.offered == full.offered + [Named(SEEN_LIMIT)]
            && Hashes(rotated.emitted) == Names(SEEN_LIMIT) + {Name(SEEN_LIMIT)}
            && Name(0) !in rotated.seen && |rotated.seen| < SEEN_LIMIT
  {
    NamesAre(SEEN_LIMIT);
    NamesAre(ROTATED);
    NamesGrow(ROTATED, SEEN_LIMIT);
    assert Name(SEEN_LIMIT) !in full.seen && Name(0) in Names(ROTATED);
    EmitOverflow(full, Named(SEEN_LIMIT), Names(ROTATED));
  }
}
