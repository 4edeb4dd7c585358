/** Which events a platform's queue takes, in every run. */
module SiemAdmission {
  import opened SiemModel
  import opened SiemSafety

  /** The k-th step emits an event that is not skipped as a duplicate. */
  ghost predicate OffersAt(p: Pipeline, steps: seq<Step>, k: nat)
    requires k < |steps|
  {
    var q := Run(p, steps[..k]);
    Enabled(q, steps[k]) && steps[k].Emit? && steps[k].event.hash !in q.seen
  }

  /** How many events the platform's queue holds when the k-th step is taken. */
  ghost function QueuedAt(p: Pipeline, steps: seq<Step>, k: nat, platform: string): nat
    requires k < |steps|
  {
    var q := Run(p, steps[..k]);
    if platform in q.lanes then |q.lanes[platform].queue| else 0
  }

  /** The k-th step emits the event, not as a duplicate, when the platform's queue is full, or when it is not. */
  ghost predicate EmittedAt(p: Pipeline, steps: seq<Step>, k: nat, platform: string, event: Event, full: bool)
    requires k < |steps|
  {
    OffersAt(p, steps, k) && steps[k].event == event && (full <==> QueuedAt(p, steps, k, platform) == 10_000)
  }

  ghost predicate EmittedWhen(p: Pipeline, steps: seq<Step>, platform: string, event: Event, full: bool) {
    exists k :: 0 <= k < |steps| && EmittedAt(p, steps, k, platform, event, full)
  }

  lemma {:induction false} PlatformsStay(p: Pipeline, steps: seq<Step>)
    ensures Run(p, steps).lanes.Keys == p.lanes.Keys
  {
    if steps == [] {
    } else {
      PlatformsStay(p, steps[..|steps| - 1]);
    }
  }

  lemma EarlierStep(p: Pipeline, steps: seq<Step>, n: nat, k: nat, platform: string, event: Event, full: bool)
    requires k < n <= |steps|
    ensures EmittedAt(p, steps[..n], k, platform, event, full) <==> EmittedAt(p, steps, k, platform, event, full)
  {
    assert steps[..n][..k] == steps[..k];
  }

  lemma EmittedWhenNext(p: Pipeline, steps: seq<Step>, platform: string, event: Event, full: bool)
    requires steps != []
    ensures var n := |steps| - 1;
            EmittedWhen(p, steps, platform, event, full) <==>
            EmittedWhen(p, steps[..n], platform, event, full) || EmittedAt(p, steps, n, platform, event, full)
  {
    var n := |steps| - 1;
    forall k | 0 <= k < n
      ensures EmittedAt(p, steps[..n], k, platform, event, full) <==> EmittedAt(p, steps, k, platform, event, full)
    {
      EarlierStep(p, steps, n, k, platform, event, full);
    }
    if EmittedWhen(p, steps[..n], platform, event, full) {
      var k :| 0 <= k < n && EmittedAt(p, steps[..n], k, platform, event, full);
      assert EmittedAt(p, steps, k, platform, event, full);
    }
  }

  /** What one step adds to the dropped and to the admitted events of a platform. */
  lemma StepAdmits(p: Pipeline, step: Step, platform: string)
    requires platform in p.lanes && |p.lanes[platform].queue| <= 10_000
    ensures var q := Apply(p, step);
            var offers := Enabled(p, step) && step.Emit? && step.event.hash !in p.seen;
            var full := |p.lanes[platform].queue| == 10_000;
            var more: seq<Event> := if offers then [step.event] else [];
            && platform in q.lanes
            && Dropped(q.lanes[platform].log) == Dropped(p.lanes[platform].log) + (if full then more else [])
            && Admitted(q.lanes[platform].log) == Admitted(p.lanes[platform].log) + (if full then [] else more)
  {
    var log, after := p.lanes[platform].log, Apply(p, step).lanes[platform].log;
    if after != log {
      assert after[..|log|] == log;
    } else {
      assert Dropped(log) + [] == Dropped(log) && Admitted(log) + [] == Admitted(log);
    }
  }

  /**
   In every run, an event is among those that a platform dropped if and only if it was
   emitted, not as a duplicate, while that platform's queue held ten thousand events; and
   among those it took if and only if it was emitted while the queue held fewer.
   */
  lemma {:induction false} DroppedIffFull(p: Pipeline, steps: seq<Step>, platform: string, event: Event)
    requires Fresh(p) && platform in p.lanes
    ensures platform in Run(p, steps).lanes
    ensures var log := Run(p, steps).lanes[platform].log;
            && (event in Dropped(log) <==> EmittedWhen(p, steps, platform, event, true))
            && (event in Admitted(log) <==> EmittedWhen(p, steps, platform, event, false))
  {
    PlatformsStay(p, steps);
    if steps == [] {
    } else {
      var n := |steps| - 1;
      var q := Run(p, steps[..n]);
      DroppedIffFull(p, steps[..n], platform, event);
      RunIsSafe(p, steps[..n]);
      assert LaneSafe(q, platform);
      StepAdmits(q, steps[n], platform);
      EmittedWhenNext(p, steps, platform, event, true);
      EmittedWhenNext(p, steps, platform, event, false);
    }
  }
}
