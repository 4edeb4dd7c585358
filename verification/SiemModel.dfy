/**
 The SIEM export pipeline as a machine of atomic steps (backend/app/services/siem/siem_pipeline.py).
 An `emit` has no suspension point and is one step. A flush is two: it takes a batch,
 and, when the adapter's `send_batch` returns, it records the receipts. In between, any
 other step may happen, and the flush may be cancelled.
 */
module SiemModel {

  const QUEUE_LIMIT: nat := 10_000

  const SEEN_LIMIT: nat := 100_000

  const ROTATED: nat := 10_000

  datatype Event = Event(id: string, hash: string)

  datatype Status = Success | Failure | NotConfigured

  datatype Receipt = Receipt(eventId: string, platform: string, status: Status)

  datatype BatchState = InFlight | Receipted | Lost

  datatype Batch = Batch(events: seq<Event>, state: BatchState)

  /** An event offered to a platform's queue, and whether the queue had room for it. */
  datatype Offer = Offer(event: Event, admitted: bool)

  /** One platform: its queue, and the history of what went through it. */
  datatype Lane = Lane(maxBatch: int, queue: seq<Event>, log: seq<Offer>, batches: seq<Batch>)

  datatype Pipeline = Pipeline(
    lanes: map<string, Lane>, seen: set<string>, receipts: seq<Receipt>, emitted: seq<Event>, offered: seq<Event>)

  /** What each adapter answers: one receipt per event, in order, all of the same status. */
  function ReceiptsOf(platform: string, events: seq<Event>, status: Status): (receipts: seq<Receipt>)
    ensures |receipts| == |events|
    ensures forall k | 0 <= k < |events| :: receipts[k] == Receipt(events[k].id, platform, status)
  {
    seq(|events|, k requires 0 <= k < |events| => Receipt(events[k].id, platform, status))
  }

  /** What a flush takes: as much of the queue as fits in one batch. */
  function BatchSize(lane: Lane): nat {
    if lane.maxBatch <= 0 then 0 else if |lane.queue| <= lane.maxBatch then |lane.queue| else lane.maxBatch
  }

  datatype Step =
    | Emit(event: Event, rotatedOut: set<string>)
    | TakeBatch(platform: string)
    | Settle(platform: string, batch: nat, status: Status)
    | Cancel(platform: string, batch: nat)

  ghost predicate InFlightAt(p: Pipeline, platform: string, batch: nat) {
    platform in p.lanes && batch < |p.lanes[platform].batches| && p.lanes[platform].batches[batch].state == InFlight
  }

  /** The rotation drops some ten thousand hashes: a set has no oldest ones. */
  ghost predicate CanRotate(seen: set<string>, rotatedOut: set<string>) {
    |seen| > SEEN_LIMIT ==> rotatedOut <= seen && |rotatedOut| == ROTATED
  }

  ghost predicate Enabled(p: Pipeline, step: Step) {
    match step
    case Emit(event, rotatedOut) => event.hash in p.seen || CanRotate(p.seen + {event.hash}, rotatedOut)
    case TakeBatch(platform) => platform in p.lanes
    case Settle(platform, batch, _) => InFlightAt(p, platform, batch)
    case Cancel(platform, batch) => InFlightAt(p, platform, batch)
  }

  ghost function Remembered(seen: set<string>, rotatedOut: set<string>): set<string> {
    if |seen| > SEEN_LIMIT then seen - rotatedOut else seen
  }

  function Offered(lane: Lane, event: Event): Lane {
    if |lane.queue| < QUEUE_LIMIT
    then lane.(queue := lane.queue + [event], log := lane.log + [Offer(event, true)])
    else lane.(log := lane.log + [Offer(event, false)])
  }

  function Taken(lane: Lane): Lane {
    var n := BatchSize(lane);
    if n == 0 then lane
    else lane.(queue := lane.queue[n..], batches := lane.batches + [Batch(lane.queue[..n], InFlight)])
  }

  function Settled(lane: Lane, batch: nat, state: BatchState): Lane
    requires batch < |lane.batches|
  {
    lane.(batches := lane.batches[batch := lane.batches[batch].(state := state)])
  }

  /** One step; a step that is not enabled changes nothing. */
  ghost function Apply(p: Pipeline, step: Step): Pipeline {
    if !Enabled(p, step) then p else
    match step
    case Emit(event, rotatedOut) =>
      var q := p.(emitted := p.emitted + [event]);
      if event.hash in p.seen then q else
        q.(seen := Remembered(p.seen + {event.hash}, rotatedOut),
           offered := p.offered + [event],
           lanes := map platform | platform in p.lanes :: Offered(p.lanes[platform], event))
    case TakeBatch(platform) =>
      p.(lanes := p.lanes[platform := Taken(p.lanes[platform])])
    case Settle(platform, batch, status) =>
      var lane := p.lanes[platform];
      p.(receipts := p.receipts + ReceiptsOf(platform, lane.batches[batch].events, status),
         lanes := p.lanes[platform := Settled(lane, batch, Receipted)])
    case Cancel(platform, batch) =>
      p.(lanes := p.lanes[platform := Settled(p.lanes[platform], batch, Lost)])
  }

  ghost function Run(p: Pipeline, steps: seq<Step>): Pipeline {
    if steps == [] then p else Apply(Run(p, steps[..|steps| - 1]), steps[|steps| - 1])
  }

  /** A pipeline with its adapters registered and nothing emitted yet. */
  ghost predicate Fresh(p: Pipeline) {
    && p.seen == {} && p.receipts == [] && p.emitted == [] && p.offered == []
    && forall platform | platform in p.lanes :: p.lanes[platform] == Lane(p.lanes[platform].maxBatch, [], [], [])
  }
}
