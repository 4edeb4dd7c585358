/** What every interleaving of emits, flushes and cancellations keeps. */
module SiemSafety {
  import opened SiemModel
  import opened Sums

  /* Readings of a lane's history */

  ghost function Admitted(log: seq<Offer>): seq<Event> {
    if log == [] then [] else
      var rest := Admitted(log[..|log| - 1]);
      if log[|log| - 1].admitted then rest + [log[|log| - 1].event] else rest
  }

  ghost function Dropped(log: seq<Offer>): seq<Event> {
    if log == [] then [] else
      var rest := Dropped(log[..|log| - 1]);
      if log[|log| - 1].admitted then rest else rest + [log[|log| - 1].event]
  }

  ghost function EventsOf(log: seq<Offer>): seq<Event> {
    seq(|log|, i requires 0 <= i < |log| => log[i].event)
  }

  /** The events of all batches, in the order in which they were taken. */
  ghost function Batched(batches: seq<Batch>): seq<Event> {
    if batches == [] then [] else Batched(batches[..|batches| - 1]) + batches[|batches| - 1].events
  }

  /** The events of the batches in one state. */
  ghost function InState(batches: seq<Batch>, state: BatchState): seq<Event> {
    if batches == [] then [] else
      var last, rest := batches[|batches| - 1], InState(batches[..|batches| - 1], state);
      if last.state == state then rest + last.events else rest
  }

  ghost function IdsOf(events: seq<Event>): seq<string> {
    seq(|events|, i requires 0 <= i < |events| => events[i].id)
  }

  /** The ids of the events that a platform has receipts for. */
  ghost function ReceiptIds(receipts: seq<Receipt>, platform: string): seq<string> {
    if receipts == [] then [] else
      var last, rest := receipts[|receipts| - 1], ReceiptIds(receipts[..|receipts| - 1], platform);
      if last.platform == platform then rest + [last.eventId] else rest
  }

  /* The invariant */

  /** Batches are cut from the front of the admitted events, and the queue is what is left of them. */
  ghost predicate FirstInFirstOut(lane: Lane) {
    && Batched(lane.batches) + lane.queue == Admitted(lane.log)
    && |lane.queue| <= QUEUE_LIMIT
    && forall b | b in lane.batches :: 1 <= |b.events| <= lane.maxBatch
  }

  /** In addition, there is exactly one receipt for each event of a receipted batch. */
  ghost predicate LaneSafe(p: Pipeline, platform: string)
    requires platform in p.lanes
  {
    var lane := p.lanes[platform];
    && EventsOf(lane.log) == p.offered
    && FirstInFirstOut(lane)
    && multiset(ReceiptIds(p.receipts, platform)) == multiset(IdsOf(InState(lane.batches, Receipted)))
  }

  ghost predicate Safe(p: Pipeline) {
    forall platform | platform in p.lanes :: LaneSafe(p, platform)
  }

  /* One step at a time */

  lemma OfferKeepsLane(lane: Lane, event: Event)
    requires FirstInFirstOut(lane)
    ensures FirstInFirstOut(Offered(lane, event))
    ensures EventsOf(Offered(lane, event).log) == EventsOf(lane.log) + [event]
  {
    var offered := Offered(lane, event);
    assert offered.log[..|lane.log|] == lane.log;
    assert Batched(lane.batches) + (lane.queue + [event]) == Batched(lane.batches) + lane.queue + [event];
  }

  lemma TakeKeepsLane(lane: Lane)
    requires FirstInFirstOut(lane)
    ensures FirstInFirstOut(Taken(lane))
    ensures InState(Taken(lane).batches, Receipted) == InState(lane.batches, Receipted)
  {
    var n, taken := BatchSize(lane), Taken(lane);
    if n > 0 {
      assert taken.batches[..|lane.batches|] == lane.batches;
      assert lane.queue == lane.queue[..n] + lane.queue[n..];
    }
  }

  /** Ending one batch moves its events from those in flight to those of its new state. */
  lemma {:induction false} EndingABatch(batches: seq<Batch>, k: nat, state: BatchState)
    requires k < |batches| && batches[k].state == InFlight && state != InFlight
    ensures var ended := batches[k := batches[k].(state := state)];
            && Batched(ended) == Batched(batches)
            && (forall other | other != state && other != InFlight :: InState(ended, other) == InState(batches, other))
            && multiset(InState(ended, state)) == multiset(InState(batches, state)) + multiset(batches[k].events)
  {
    var n := |batches| - 1;
    var ended := batches[k := batches[k].(state := state)];
    if k < n {
      assert ended[..n] == batches[..n][k := batches[k].(state := state)];
      EndingABatch(batches[..n], k, state);
    } else {
      assert ended[..n] == batches[..n];
    }
  }

  lemma EndKeepsLane(lane: Lane, batch: nat, state: BatchState)
    requires FirstInFirstOut(lane) && state != InFlight
    requires batch < |lane.batches| && lane.batches[batch].state == InFlight
    ensures FirstInFirstOut(Settled(lane, batch, state))
  {
    EndingABatch(lane.batches, batch, state);
  }

  lemma OneReceiptMore(receipts: seq<Receipt>, receipt: Receipt, platform: string)
    ensures ReceiptIds(receipts + [receipt], platform) ==
            if receipt.platform == platform then ReceiptIds(receipts, platform) + [receipt.eventId]
            else ReceiptIds(receipts, platform)
  {
    assert (receipts + [receipt])[..|receipts|] == receipts;
  }

  lemma {:induction false} ReceiptIdsAppend(
      receipts: seq<Receipt>, own: string, events: seq<Event>, status: Status, platform: string)
    ensures ReceiptIds(receipts + ReceiptsOf(own, events, status), platform) ==
            if own == platform then ReceiptIds(receipts, platform) + IdsOf(events) else ReceiptIds(receipts, platform)
  {
    var all := receipts + ReceiptsOf(own, events, status);
    if events == [] {
      assert all == receipts;
    } else {
      var n := |events| - 1;
      var before := receipts + ReceiptsOf(own, events[..n], status);
      ReceiptIdsAppend(receipts, own, events[..n], status, platform);
      assert all == before + [Receipt(events[n].id, own, status)];
      OneReceiptMore(before, Receipt(events[n].id, own, status), platform);
      assert IdsOf(events) == IdsOf(events[..n]) + [events[n].id];
    }
  }

  lemma {:induction false} SameEventsSameIds(a: seq<Event>, b: seq<Event>)
    requires multiset(a) == multiset(b)
    ensures multiset(IdsOf(a)) == multiset(IdsOf(b))
  {
    var id := (e: Event) => e.id;
    ApplyAllPermutation(a, b, id);
    IdsAreApplied(a);
    IdsAreApplied(b);
  }

  lemma {:induction false} IdsAreApplied(a: seq<Event>)
    ensures IdsOf(a) == ApplyAll(a, (e: Event) => e.id)
  {
    if a == [] {
    } else {
      IdsAreApplied(a[..|a| - 1]);
      assert IdsOf(a) == IdsOf(a[..|a| - 1]) + [a[|a| - 1].id];
    }
  }

  lemma ReceiptsMatch(receipts: seq<Receipt>, platform: string, batches: seq<Batch>, batch: nat, status: Status)
    requires batch < |batches| && batches[batch].state == InFlight
    requires multiset(ReceiptIds(receipts, platform)) == multiset(IdsOf(InState(batches, Receipted)))
    ensures multiset(ReceiptIds(receipts + ReceiptsOf(platform, batches[batch].events, status), platform)) ==
            multiset(IdsOf(InState(batches[batch := batches[batch].(state := Receipted)], Receipted)))
  {
    var events, before := batches[batch].events, InState(batches, Receipted);
    var after := InState(batches[batch := batches[batch].(state := Receipted)], Receipted);
    EndingABatch(batches, batch, Receipted);
    ReceiptIdsAppend(receipts, platform, events, status, platform);
    SameEventsSameIds(after, before + events);
    IdsConcat(before, events);
  }

  lemma IdsConcat(a: seq<Event>, b: seq<Event>)
    ensures IdsOf(a + b) == IdsOf(a) + IdsOf(b)
  {
  }

  lemma SettleKeepsReceipts(p: Pipeline, platform: string, batch: nat, status: Status)
    requires InFlightAt(p, platform, batch) && LaneSafe(p, platform)
    ensures LaneSafe(Apply(p, Step.Settle(platform, batch, status)), platform)
  {
    EndKeepsLane(p.lanes[platform], batch, Receipted);
    ReceiptsMatch(p.receipts, platform, p.lanes[platform].batches, batch, status);
  }

  lemma ApplyKeepsLane(p: Pipeline, step: Step, platform: string)
    requires platform in p.lanes && LaneSafe(p, platform) && Enabled(p, step)
    ensures LaneSafe(Apply(p, step), platform)
  {
    var lane := p.lanes[platform];
    match step
    case Emit(event, _) =>
      OfferKeepsLane(lane, event);
    case TakeBatch(_) =>
      TakeKeepsLane(lane);
    case Settle(own, batch, status) =>
      if own == platform {
        SettleKeepsReceipts(p, platform, batch, status);
      } else {
        ReceiptIdsAppend(p.receipts, own, p.lanes[own].batches[batch].events, status, platform);
      }
    case Cancel(own, batch) =>
      if own == platform {
        EndKeepsLane(lane, batch, Lost);
        EndingABatch(lane.batches, batch, Lost);
      }
  }

  lemma ApplyKeepsSafe(p: Pipeline, step: Step)
    requires Safe(p)
    ensures Safe(Apply(p, step))
  {
    if Enabled(p, step) {
      forall platform | platform in Apply(p, step).lanes
        ensures LaneSafe(Apply(p, step), platform)
      {
        ApplyKeepsLane(p, step, platform);
      }
    }
  }

  /** The invariant holds after every run, whatever the order of its steps. */
  lemma {:induction false} RunIsSafe(p: Pipeline, steps: seq<Step>)
    requires Fresh(p)
    ensures Safe(Run(p, steps))
  {
    if steps == [] {
      assert forall platform | platform in p.lanes :: EventsOf(p.lanes[platform].log) == [];
    } else {
      RunIsSafe(p, steps[..|steps| - 1]);
      ApplyKeepsSafe(Run(p, steps[..|steps| - 1]), steps[|steps| - 1]);
    }
  }

  /* What became of each event */

  lemma {:induction false} OffersSplit(log: seq<Offer>)
    ensures multiset(EventsOf(log)) == multiset(Admitted(log)) + multiset(Dropped(log))
  {
    if log == [] {
    } else {
      var n := |log| - 1;
      OffersSplit(log[..n]);
      assert EventsOf(log) == EventsOf(log[..n]) + [log[n].event];
    }
  }

  lemma {:induction false} BatchesSplit(batches: seq<Batch>)
    ensures multiset(Batched(batches)) ==
            multiset(InState(batches, InFlight)) + multiset(InState(batches, Receipted))
            + multiset(InState(batches, Lost))
  {
    if batches == [] {
    } else {
      BatchesSplit(batches[..|batches| - 1]);
    }
  }

  /**
   On every platform and after every run, the events that were not duplicates are
   partitioned into dropped on a full queue, queued, in flight, lost and receipted, and
   the receipts are exactly one for each of the last.
   */
  lemma EventsPartitioned(p: Pipeline, steps: seq<Step>, platform: string)
    requires Fresh(p) && platform in Run(p, steps).lanes
    ensures var q := Run(p, steps);
            var lane := q.lanes[platform];
            multiset(q.offered) ==
              multiset(Dropped(lane.log)) + multiset(lane.queue) + multiset(InState(lane.batches, InFlight))
              + multiset(InState(lane.batches, Lost)) + multiset(InState(lane.batches, Receipted))
    ensures var q := Run(p, steps);
            multiset(ReceiptIds(q.receipts, platform)) == multiset(IdsOf(InState(q.lanes[platform].batches, Receipted)))
  {
    RunIsSafe(p, steps);
    var lane := Run(p, steps).lanes[platform];
    assert LaneSafe(Run(p, steps), platform);
    OffersSplit(lane.log);
    BatchesSplit(lane.batches);
  }
}
