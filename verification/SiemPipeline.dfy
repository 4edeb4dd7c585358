/** The pipeline's own code: its fields, `emit`, the two halves of a flush, and the drain on `stop`. */
module SiemPipeline {
  import opened SiemModel

  /* Cutting a queue into batches */

  ghost function Chunks(s: seq<Event>, n: nat): seq<seq<Event>>
    requires n > 0
  {
    if |s| == 0 then [] else if |s| <= n then [s] else [s[..n]] + Chunks(s[n..], n)
  }

  ghost function Joined(chunks: seq<seq<Event>>): seq<Event> {
    if chunks == [] then [] else chunks[0] + Joined(chunks[1..])
  }

  /** A queue is cut, in order and without loss, into as few batches as its length allows, all full but the last. */
  lemma {:induction false} ChunksCut(s: seq<Event>, n: nat)
    requires n > 0
    ensures Joined(Chunks(s, n)) == s
    ensures |Chunks(s, n)| == (|s| + n - 1) / n
    ensures forall k | 0 <= k < |Chunks(s, n)| :: 1 <= |Chunks(s, n)[k]| <= n
    ensures forall k | 0 <= k < |Chunks(s, n)| - 1 :: |Chunks(s, n)[k]| == n
    decreases |s|
  {
    if |s| > n {
      ChunksCut(s[n..], n);
      assert Chunks(s, n)[1..] == Chunks(s[n..], n);
      Ceiling(|s|, n);
    } else if |s| > 0 {
      assert Chunks(s, n)[1..] == [];
      OneBatch(|s|, n);
    } else {
      OneBatch(n, n);
    }
  }

  lemma Ceiling(m: nat, n: nat)
    requires m > n > 0
    ensures (m + n - 1) / n == 1 + (m - n + n - 1) / n
  {
    var q, r := (m - 1) / n, (m - 1) % n;
    assert m + n - 1 == (q + 1) * n + r;
    Quotient(m + n - 1, n, q + 1, r);
  }

  lemma Quotient(x: nat, n: nat, q: nat, r: nat)
    requires n > 0 && x == q * n + r && r < n
    ensures x / n == q
  {
    var d := x / n - q;
    assert x / n * n + x % n == x;
    assert d * n == r - x % n;
    assert d >= 1 ==> d * n >= n;
    assert d <= -1 ==> d * n + n <= 0;
  }

  lemma OneBatch(m: nat, n: nat)
    requires 0 < m <= n
    ensures (m + n - 1) / n == 1 && (n - 1) / n == 0
  {
    Quotient(m + n - 1, n, 1, m - 1);
  }

  /* What the network does to the attempts of each batch */

  /** Whether the k-th attempt to post a batch to a platform succeeds. */
  type Network = (string, seq<Event>, nat) -> bool

  /** The batch size is kept with the platform's lane. */
  datatype Adapter = Adapter(maxRetries: nat, configured: bool)

  ghost predicate SomeAttemptSucceeds(adapter: Adapter, network: Network, platform: string, events: seq<Event>) {
    exists k: nat :: k < adapter.maxRetries && network(platform, events, k)
  }

  ghost function StatusOf(adapter: Adapter, network: Network, platform: string, events: seq<Event>): Status {
    if !adapter.configured then NotConfigured
    else if SomeAttemptSucceeds(adapter, network, platform, events) then Success
    else Failure
  }

  /** The receipts of batches sent one after the other. */
  ghost function Sent(adapter: Adapter, network: Network, platform: string, chunks: seq<seq<Event>>): seq<Receipt> {
    if chunks == [] then [] else
      ReceiptsOf(platform, chunks[0], StatusOf(adapter, network, platform, chunks[0]))
      + Sent(adapter, network, platform, chunks[1..])
  }

  /** `_retry_send`: stops at the first success, gives up after `maxRetries` attempts. */
  method RetrySend(adapter: Adapter, network: Network, platform: string, events: seq<Event>)
    returns (ok: bool, attempts: nat)
    ensures ok == SomeAttemptSucceeds(adapter, network, platform, events)
    ensures attempts <= adapter.maxRetries
    ensures forall k: nat | k < attempts - (if ok then 1 else 0) :: !network(platform, events, k)
    ensures ok ==> attempts > 0 && network(platform, events, attempts - 1)
    ensures !ok ==> attempts == adapter.maxRetries
  {
    attempts := 0;
    while attempts < adapter.maxRetries
      invariant attempts <= adapter.maxRetries
      invariant forall k: nat | k < attempts :: !network(platform, events, k)
    {
      var succeeded := network(platform, events, attempts);
      attempts := attempts + 1;
      if succeeded {
        return true, attempts;
      }
    }
    ok := false;
  }

  /** `send_batch`, common to the three adapters. */
  method SendBatch(adapter: Adapter, network: Network, platform: string, events: seq<Event>)
    returns (receipts: seq<Receipt>)
    ensures receipts == ReceiptsOf(platform, events, StatusOf(adapter, network, platform, events))
    ensures |receipts| == |events|
    ensures forall i | 0 <= i < |events| :: receipts[i].eventId == events[i].id && receipts[i].platform == platform
    ensures !adapter.configured ==> forall r | r in receipts :: r.status == NotConfigured
    ensures adapter.configured && (exists k: nat :: k < adapter.maxRetries && network(platform, events, k)) ==>
              forall r | r in receipts :: r.status == Success
    ensures adapter.configured && (forall k: nat | k < adapter.maxRetries :: !network(platform, events, k)) ==>
              forall r | r in receipts :: r.status == Failure
  {
    if !adapter.configured {
      return ReceiptsOf(platform, events, NotConfigured);
    }
    var ok, attempts := RetrySend(adapter, network, platform, events);
    receipts := ReceiptsOf(platform, events, if ok then Success else Failure);
  }

  /** The lane after some batches have been sent, one after the other. */
  ghost function Flushed(lane: Lane, chunks: seq<seq<Event>>): Lane
    decreases |chunks|
  {
    if chunks == [] || |chunks[0]| > |lane.queue| then lane else
      Flushed(lane.(queue := lane.queue[|chunks[0]|..], batches := lane.batches + [Batch(chunks[0], Receipted)]),
              chunks[1..])
  }

  /** The lanes of the first `k` platforms have been changed by `f`, and no other. */
  ghost predicate ChangedUpTo(platforms: seq<string>, before: map<string, Lane>, now: map<string, Lane>, k: nat,
                              f: Lane -> Lane) {
    && now.Keys == before.Keys
    && (forall i | 0 <= i < |platforms| :: platforms[i] in before)
    && (forall i | 0 <= i < |platforms| ::
          now[platforms[i]] == if i < k then f(before[platforms[i]]) else before[platforms[i]])
  }

  lemma ChangeNext(platforms: seq<string>, before: map<string, Lane>, now: map<string, Lane>, k: nat, f: Lane -> Lane)
    requires forall i, j | 0 <= i < j < |platforms| :: platforms[i] != platforms[j]
    requires ChangedUpTo(platforms, before, now, k, f) && k < |platforms|
    ensures now[platforms[k]] == before[platforms[k]]
    ensures ChangedUpTo(platforms, before, now[platforms[k] := f(now[platforms[k]])], k + 1, f)
  {
  }

  lemma AllChanged(platforms: seq<string>, before: map<string, Lane>, now: map<string, Lane>, f: Lane -> Lane)
    requires ChangedUpTo(platforms, before, now, |platforms|, f) && before.Keys == set p | p in platforms
    ensures now == map p | p in before :: f(before[p])
  {
    forall p | p in before
      ensures now[p] == f(before[p])
    {
      var i :| 0 <= i < |platforms| && platforms[i] == p;
    }
  }

  /** Sending the batches of a plan, in order, is all that happened to the lanes and the receipts. */
  ghost predicate Sends(adapter: Adapter, network: Network, platform: string, plan: seq<seq<Event>>,
                        lanes: map<string, Lane>, receipts: seq<Receipt>, newLanes: map<string, Lane>,
                        newReceipts: seq<Receipt>) {
    && platform in lanes
    && newLanes == lanes[platform := Flushed(lanes[platform], plan)]
    && newReceipts == receipts + Sent(adapter, network, platform, plan)
  }

  /**
   The events that have left the front of the queue have one receipt each, in their order,
   and all of them were in batches that are receipted.
   */
  ghost predicate Answered(adapter: Adapter, platform: string, before: Lane, receipts: seq<Receipt>,
                           after: Lane, newReceipts: seq<Receipt>)
  {
    && |after.queue| <= |before.queue|
    && var sent := |before.queue| - |after.queue|;
    && after.queue == before.queue[sent..]
    && receipts <= newReceipts && |newReceipts| == |receipts| + sent
    && forall i | 0 <= i < sent ::
         var receipt := newReceipts[|receipts| + i];
         && receipt.eventId == before.queue[i].id && receipt.platform == platform
         && (receipt.status == NotConfigured <==> !adapter.configured)
  }

  lemma {:induction false} SentIs(adapter: Adapter, network: Network, platform: string, chunks: seq<seq<Event>>)
    ensures var sent, events := Sent(adapter, network, platform, chunks), Joined(chunks);
            && |sent| == |events|
            && forall i | 0 <= i < |events| ::
                 && sent[i].eventId == events[i].id && sent[i].platform == platform
                 && (sent[i].status == NotConfigured <==> !adapter.configured)
  {
    if chunks == [] {
    } else {
      SentIs(adapter, network, platform, chunks[1..]);
    }
  }

  /** What is sent is the front of the queue: all of it in a drain, if batches can be taken at all. */
  lemma PlanAnswers(adapter: Adapter, network: Network, platform: string, lane: Lane, drain: bool,
                    receipts: seq<Receipt>)
    ensures var plan := Plan(lane, drain);
            && Answered(adapter, platform, lane, receipts, Flushed(lane, plan),
                        receipts + Sent(adapter, network, platform, plan))
            && (drain && lane.maxBatch > 0 ==> Flushed(lane, plan).queue == [])
            && |Flushed(lane, plan).batches| == |lane.batches| + |plan| && (!drain ==> |plan| <= 1)
  {
    var plan := Plan(lane, drain);
    if lane.maxBatch > 0 {
      ChunksCut(lane.queue, lane.maxBatch);
    }
    assert Joined(plan) <= lane.queue by {
      if plan != [] && !drain {
        FirstChunk(lane.queue, lane.maxBatch);
        assert plan[1..] == [];
      }
    }
    FlushedIs(lane, plan);
    SentIs(adapter, network, platform, plan);
  }

  lemma SendsThenRest(adapter: Adapter, network: Network, platform: string, plan: seq<seq<Event>>,
                      lanes: map<string, Lane>, receipts: seq<Receipt>, middle: map<string, Lane>, some: seq<Receipt>,
                      newLanes: map<string, Lane>, newReceipts: seq<Receipt>)
    requires plan != [] && Sends(adapter, network, platform, [plan[0]], lanes, receipts, middle, some)
    requires Sends(adapter, network, platform, plan[1..], middle, some, newLanes, newReceipts)
    requires Flushed(lanes[platform], plan) == Flushed(Flushed(lanes[platform], [plan[0]]), plan[1..])
    ensures Sends(adapter, network, platform, plan, lanes, receipts, newLanes, newReceipts)
  {
    assert [plan[0]][1..] == [];
    assert newReceipts ==
        receipts + (Sent(adapter, network, platform, [plan[0]]) + Sent(adapter, network, platform, plan[1..]));
  }

  /** A lane whose batches in flight are all lost. */
  function Cancelled(lane: Lane): Lane {
    lane.(batches := seq(|lane.batches|, i requires 0 <= i < |lane.batches| =>
      if lane.batches[i].state == InFlight then lane.batches[i].(state := Lost) else lane.batches[i]))
  }

  lemma OfferedIsEnqueued(lanes: map<string, Lane>, event: Event)
    ensures Enqueued(lanes, map p | p in lanes :: Offered(lanes[p], event), event)
  {
  }

  /** Each queue that held fewer than ten thousand events has the event behind them; the others are as they were. */
  ghost predicate Enqueued(before: map<string, Lane>, after: map<string, Lane>, event: Event) {
    && after.Keys == before.Keys
    && forall p | p in before ::
         && after[p].queue == (if |before[p].queue| < 10_000 then before[p].queue + [event] else before[p].queue)
         && after[p].batches == before[p].batches && after[p].maxBatch == before[p].maxBatch
  }

  /** The loop of `_flush_queue`. */
  method FillBatch(queue: seq<Event>, maxSize: int) returns (batch: seq<Event>, rest: seq<Event>)
    ensures batch + rest == queue
    ensures |batch| == if maxSize <= 0 then 0 else if |queue| <= maxSize then |queue| else maxSize
  {
    batch, rest := [], queue;
    while rest != [] && |batch| < maxSize
      invariant batch + rest == queue
      invariant maxSize <= 0 ==> batch == []
      invariant maxSize > 0 ==> |batch| <= maxSize
      decreases |rest|
    {
      batch := batch + [rest[0]];
      rest := rest[1..];
    }
  }

  /** Each lane holds its platform's queue; its log and batches record the history of the run. */
  class SIEMPipeline {
    var platforms: seq<string>
    var adapters: map<string, Adapter>
    var lanes: map<string, Lane>
    var seen: set<string>
    var receipts: seq<Receipt>
    var running: bool
    const network: Network
    ghost var emitted: seq<Event>
    ghost var offered: seq<Event>

    ghost predicate Valid()
      reads this
    {
      && (forall i, j | 0 <= i < j < |platforms| :: platforms[i] != platforms[j])
      && lanes.Keys == (set p | p in platforms)
      && adapters.Keys == lanes.Keys
    }

    ghost function State(): Pipeline
      reads this
    {
      Pipeline(lanes, seen, receipts, emitted, offered)
    }

    constructor (network: Network)
      ensures Valid() && Fresh(State()) && this.network == network && !running
    {
      platforms, adapters, lanes := [], map[], map[];
      seen, receipts, running := {}, [], false;
      this.network := network;
      emitted, offered := [], [];
    }

    /** Registering a platform gives it a new, empty queue. */
    method RegisterAdapter(platform: string, maxBatch: int, adapter: Adapter)
      requires Valid()
      modifies this
      ensures Valid()
      ensures State() == old(State()).(lanes := old(lanes)[platform := Lane(maxBatch, [], [], [])])
      ensures adapters == old(adapters)[platform := adapter] && running == old(running)
    {
      if platform !in lanes {
        platforms := platforms + [platform];
      }
      adapters := adapters[platform := adapter];
      lanes := lanes[platform := Lane(maxBatch, [], [], [])];
    }

    /** Removes ten thousand hashes, whichever the set lists first. */
    method Rotate() returns (ghost rotatedOut: set<string>)
      requires |seen| >= ROTATED
      modifies this`seen
      ensures rotatedOut <= old(seen) && |rotatedOut| == ROTATED && seen == old(seen) - rotatedOut
      ensures |seen| == |old(seen)| - ROTATED
    {
      rotatedOut := {};
      for k := 0 to ROTATED
        invariant rotatedOut <= old(seen) && |rotatedOut| == k && seen == old(seen) - rotatedOut
        invariant |seen| == |old(seen)| - k
      {
        var hash :| hash in seen;
        seen := seen - {hash};
        rotatedOut := rotatedOut + {hash};
      }
    }

    /** What `emit` does under its lock. */
    method Remember(hash: string) returns (ghost rotatedOut: set<string>)
      requires hash !in seen
      modifies this`seen
      ensures CanRotate(old(seen) + {hash}, rotatedOut) && seen == Remembered(old(seen) + {hash}, rotatedOut)
      ensures |old(seen)| < 100_000 ==> seen == old(seen) + {hash}
      ensures |old(seen)| == 100_000 ==> |seen| == 90_001 && seen <= old(seen) + {hash}
    {
      rotatedOut := {};
      seen := seen + {hash};
      assert |seen| == |old(seen)| + 1;
      if |seen| > SEEN_LIMIT {
        rotatedOut := Rotate();
        assert |seen| + |rotatedOut| == |old(seen)| + 1;
      }
    }

    /** The loop of `emit`: the event goes to each queue that has room for it. */
    method OfferToAll(event: Event)
      requires Valid()
      modifies this`lanes
      ensures lanes == map p | p in old(lanes) :: Offered(old(lanes)[p], event)
    {
      var names := platforms;
      ghost var offer := (lane: Lane) => Offered(lane, event);
      for k := 0 to |names|
        invariant ChangedUpTo(names, old(lanes), lanes, k, offer)
      {
        var lane := lanes[names[k]];
        if |lane.queue| < QUEUE_LIMIT {
          lane := lane.(queue := lane.queue + [event], log := lane.log + [Offer(event, true)]);
        } else {
          lane := lane.(log := lane.log + [Offer(event, false)]);
        }
        ChangeNext(names, old(lanes), lanes, k, offer);
        lanes := lanes[names[k] := lane];
      }
      AllChanged(names, old(lanes), lanes, offer);
    }

    method Emit(event: Event) returns (ghost rotatedOut: set<string>)
      requires Valid()
      modifies this
      ensures Valid()
      ensures Enabled(old(State()), Step.Emit(event, rotatedOut))
      ensures State() == Apply(old(State()), Step.Emit(event, rotatedOut))
      ensures adapters == old(adapters) && running == old(running) && platforms == old(platforms)
      ensures event.hash in old(seen) ==> lanes == old(lanes) && seen == old(seen)
      ensures event.hash !in old(seen) ==> Enqueued(old(lanes), lanes, event)
      ensures event.hash !in old(seen) && |old(seen)| < 100_000 ==> seen == old(seen) + {event.hash}
      ensures event.hash !in old(seen) && |old(seen)| == 100_000 ==>
                |seen| == 90_001 && seen <= old(seen) + {event.hash}
    {
      rotatedOut := {};
      emitted := emitted + [event];
      if event.hash in seen {
        return;
      }
      offered := offered + [event];
      rotatedOut := Remember(event.hash);
      OfferToAll(event);
      OfferedIsEnqueued(old(lanes), event);
    }

    /** The first half of `_flush_queue`: fills a batch, up to the suspension in `send_batch`. */
    method TakeBatch(platform: string) returns (batch: seq<Event>)
      requires Valid() && platform in lanes
      modifies this`lanes
      ensures Valid()
      ensures State() == Apply(old(State()), Step.TakeBatch(platform))
      ensures batch + lanes[platform].queue == old(lanes)[platform].queue
      ensures |batch| == (if old(lanes)[platform].maxBatch <= 0 then 0
                          else if |old(lanes)[platform].queue| <= old(lanes)[platform].maxBatch
                          then |old(lanes)[platform].queue| else old(lanes)[platform].maxBatch)
      ensures batch != [] ==> lanes[platform].batches == old(lanes)[platform].batches + [Batch(batch, InFlight)]
      ensures batch == old(lanes)[platform].queue[..BatchSize(old(lanes)[platform])]
    {
      var lane := lanes[platform];
      var rest;
      batch, rest := FillBatch(lane.queue, lane.maxBatch);
      assert batch == lane.queue[..|batch|] && rest == lane.queue[|batch|..];
      if batch != [] {
        lanes := lanes[platform := lane.(queue := rest, batches := lane.batches + [Batch(batch, InFlight)])];
      } else {
        assert lanes == lanes[platform := lane];
      }
    }

    /** The second half: the adapter's answer arrives for a batch in flight. */
    method Settle(platform: string, batch: seq<Event>, index: nat, ghost status: Status, answer: seq<Receipt>)
      requires Valid() && InFlightAt(State(), platform, index) && lanes[platform].batches[index].events == batch
      requires answer == ReceiptsOf(platform, batch, status)
      modifies this`lanes, this`receipts
      ensures Valid()
      ensures State() == Apply(old(State()), Step.Settle(platform, index, status))
      ensures receipts == old(receipts) + answer
      ensures lanes == old(lanes)[platform := old(lanes)[platform].(
        batches := old(lanes)[platform].batches[index := Batch(batch, Receipted)])]
    {
      var lane := lanes[platform];
      receipts := receipts + answer;
      lanes := lanes[platform := lane.(batches := lane.batches[index := Batch(batch, Receipted)])];
    }

    /** A flush cancelled, or failing, inside the adapter's call loses its batch: no receipt is ever recorded. */
    method Abandon(platform: string, index: nat)
      requires Valid() && InFlightAt(State(), platform, index)
      modifies this`lanes
      ensures Valid()
      ensures State() == Apply(old(State()), Step.Cancel(platform, index))
      ensures lanes == old(lanes)[platform := old(lanes)[platform].(
        batches := old(lanes)[platform].batches[index := Batch(old(lanes)[platform].batches[index].events, Lost)])]
    {
      var lane := lanes[platform];
      lanes := lanes[platform := lane.(batches := lane.batches[index := lane.batches[index].(state := Lost)])];
    }

    /** One round of `_flush_queue` with nothing else running during the adapter's call. */
    method SendOnce(platform: string) returns (batch: seq<Event>)
      requires Valid() && platform in lanes
      modifies this`lanes, this`receipts
      ensures Valid()
      ensures batch == old(lanes)[platform].queue[..BatchSize(old(lanes)[platform])]
      ensures Sends(adapters[platform], network, platform, if batch == [] then [] else [batch],
                    old(lanes), old(receipts), lanes, receipts)
    {
      ghost var before := lanes;
      batch := TakeBatch(platform);
      if batch == [] {
        return;
      }
      var adapter := adapters[platform];
      var answer := SendBatch(adapter, network, platform, batch);
      var index := |lanes[platform].batches| - 1;
      Settle(platform, batch, index, StatusOf(adapter, network, platform, batch), answer);
      assert lanes[platform].batches == before[platform].batches + [Batch(batch, Receipted)];
      assert lanes == before[platform := lanes[platform]];
    }

    /**
     `_flush_queue` with nothing else running. A drain sends the whole queue, unless the
     batch size is not positive, in which case nothing is sent.
     */
    method FlushQueue(platform: string, drain: bool)
      requires Valid() && platform in lanes
      modifies this`lanes, this`receipts
      ensures Valid()
      ensures Sends(adapters[platform], network, platform, Plan(old(lanes)[platform], drain),
                    old(lanes), old(receipts), lanes, receipts)
      ensures Answered(adapters[platform], platform, old(lanes)[platform], old(receipts), lanes[platform], receipts)
      ensures drain && old(lanes)[platform].maxBatch > 0 ==> lanes[platform].queue == []
      ensures !drain ==> |lanes[platform].batches| <= |old(lanes)[platform].batches| + 1
      decreases |lanes[platform].queue|
    {
      ghost var first, plan := lanes[platform], Plan(lanes[platform], drain);
      var batch := SendOnce(platform);
      PlanAnswers(adapters[platform], network, platform, first, drain, old(receipts));
      if batch == [] {
        assert plan == [];
        return;
      }
      PlanNext(first, drain, batch);
      if drain && lanes[platform].queue != [] {
        ghost var middle, some := lanes, receipts;
        FlushQueue(platform, drain);
        SendsThenRest(adapters[platform], network, platform, plan,
                      old(lanes), old(receipts), middle, some, lanes, receipts);
      } else {
        assert plan == [batch];
      }
    }

    /** The loop of `stop`: the queues are drained one after the other. */
    method DrainAll()
      requires Valid()
      modifies this`lanes, this`receipts
      ensures Valid()
      ensures lanes == map p | p in old(lanes) :: Drained(old(lanes)[p])
      ensures receipts == old(receipts) + AllSent(adapters, network, old(lanes), platforms)
    {
      var names := platforms;
      for k := 0 to |names|
        invariant Valid() && DrainedUpTo(adapters, network, names, k, old(lanes), old(receipts), lanes, receipts)
      {
        ghost var some, before := lanes, receipts;
        FlushQueue(names[k], true);
        DrainNext(adapters, network, names, k, old(lanes), old(receipts), some, before, lanes, receipts);
      }
      AllDrained(adapters, network, names, old(lanes), old(receipts), lanes, receipts);
    }

    /** Cancelling the workers: a batch whose adapter has not answered is lost. */
    method CancelWorkers()
      requires Valid()
      modifies this`lanes
      ensures Valid()
      ensures lanes == map p | p in old(lanes) :: Cancelled(old(lanes)[p])
    {
      var names := platforms;
      ghost var cancel := (lane: Lane) => Cancelled(lane);
      for k := 0 to |names|
        invariant ChangedUpTo(names, old(lanes), lanes, k, cancel)
      {
        ChangeNext(names, old(lanes), lanes, k, cancel);
        lanes := lanes[names[k] := Cancelled(lanes[names[k]])];
      }
      AllChanged(names, old(lanes), lanes, cancel);
    }

    /** `stop`, with no `emit` and no answer of an adapter to a worker while the queues are drained. */
    method Stop()
      requires Valid()
      modifies this`running, this`lanes, this`receipts
      ensures Valid() && !running
      ensures lanes == map p | p in old(lanes) :: Cancelled(Drained(old(lanes)[p]))
      ensures receipts == old(receipts) + AllSent(adapters, network, old(lanes), platforms)
      ensures forall p | p in lanes ::
        && (lanes[p].maxBatch > 0 ==> lanes[p].queue == [])
        && forall k | 0 <= k < |lanes[p].batches| :: lanes[p].batches[k].state != InFlight
    {
      running := false;
      DrainAll();
      ghost var drained := lanes;
      CancelWorkers();
      DrainedThenCancelled(old(lanes), drained, lanes);
      forall p | p in lanes
        ensures lanes[p].maxBatch > 0 ==> lanes[p].queue == []
      {
        DrainEmptiesQueue(old(lanes)[p]);
      }
    }
  }

  lemma DrainedThenCancelled(lanes: map<string, Lane>, drained: map<string, Lane>, stopped: map<string, Lane>)
    requires drained == map p | p in lanes :: Drained(lanes[p])
    requires stopped == map p | p in drained :: Cancelled(drained[p])
    ensures stopped == map p | p in lanes :: Cancelled(Drained(lanes[p]))
  {
    assert drained.Keys == lanes.Keys;
  }

  /** The queues of the first `k` platforms have been drained, one after the other. */
  ghost predicate DrainedUpTo(adapters: map<string, Adapter>, network: Network, platforms: seq<string>, k: nat,
                              lanes: map<string, Lane>, receipts: seq<Receipt>, newLanes: map<string, Lane>,
                              newReceipts: seq<Receipt>)
    requires k <= |platforms|
  {
    && (forall p | p in platforms :: p in lanes && p in adapters)
    && ChangedUpTo(platforms, lanes, newLanes, k, (lane: Lane) => Drained(lane))
    && newReceipts == receipts + AllSent(adapters, network, lanes, platforms[..k])
  }

  lemma DrainNext(adapters: map<string, Adapter>, network: Network, platforms: seq<string>, k: nat,
                  lanes: map<string, Lane>, receipts: seq<Receipt>, some: map<string, Lane>, before: seq<Receipt>,
                  newLanes: map<string, Lane>, newReceipts: seq<Receipt>)
    requires k < |platforms| && forall i, j | 0 <= i < j < |platforms| :: platforms[i] != platforms[j]
    requires DrainedUpTo(adapters, network, platforms, k, lanes, receipts, some, before)
    requires Sends(adapters[platforms[k]], network, platforms[k], Plan(some[platforms[k]], true),
                   some, before, newLanes, newReceipts)
    ensures DrainedUpTo(adapters, network, platforms, k + 1, lanes, receipts, newLanes, newReceipts)
  {
    ChangeNext(platforms, lanes, some, k, (lane: Lane) => Drained(lane));
    AllSentNext(adapters, network, lanes, platforms, k, receipts, before, newReceipts);
  }

  lemma AllDrained(adapters: map<string, Adapter>, network: Network, platforms: seq<string>,
                   lanes: map<string, Lane>, receipts: seq<Receipt>, newLanes: map<string, Lane>,
                   newReceipts: seq<Receipt>)
    requires DrainedUpTo(adapters, network, platforms, |platforms|, lanes, receipts, newLanes, newReceipts)
    requires lanes.Keys == set p | p in platforms
    ensures newLanes == map p | p in lanes :: Drained(lanes[p])
    ensures newReceipts == receipts + AllSent(adapters, network, lanes, platforms)
  {
    assert platforms[..|platforms|] == platforms;
    AllChanged(platforms, lanes, newLanes, (lane: Lane) => Drained(lane));
  }

  lemma AllSentNext(adapters: map<string, Adapter>, network: Network, lanes: map<string, Lane>, platforms: seq<string>,
                    k: nat, start: seq<Receipt>, before: seq<Receipt>, after: seq<Receipt>)
    requires k < |platforms| && forall p | p in platforms :: p in lanes && p in adapters
    requires before == start + AllSent(adapters, network, lanes, platforms[..k])
    requires after == before + Sent(adapters[platforms[k]], network, platforms[k], Plan(lanes[platforms[k]], true))
    ensures after == start + AllSent(adapters, network, lanes, platforms[..k + 1])
  {
    var first := platforms[..k + 1];
    assert first[..k] == platforms[..k] && first[|first| - 1] == platforms[k];
    var earlier := AllSent(adapters, network, lanes, platforms[..k]);
    var last := Sent(adapters[platforms[k]], network, platforms[k], Plan(lanes[platforms[k]], true));
    assert AllSent(adapters, network, lanes, first) == earlier + last;
    assert start + earlier + last == start + (earlier + last);
  }

  /** The batches that one call of `_flush_queue` sends. */
  ghost function Plan(lane: Lane, drain: bool): seq<seq<Event>> {
    if lane.maxBatch <= 0 || lane.queue == [] then []
    else if drain then Chunks(lane.queue, lane.maxBatch)
    else [Chunks(lane.queue, lane.maxBatch)[0]]
  }

  /** What is left to do after the first batch. */
  lemma PlanNext(lane: Lane, drain: bool, batch: seq<Event>)
    requires batch == lane.queue[..BatchSize(lane)] && batch != []
    ensures var after, plan := Flushed(lane, [batch]), Plan(lane, drain);
            && after == lane.(queue := lane.queue[|batch|..], batches := lane.batches + [Batch(batch, Receipted)])
            && plan != [] && plan[0] == batch
            && plan[1..] == (if drain && after.queue != [] then Plan(after, drain) else [])
            && Flushed(lane, plan) == Flushed(after, plan[1..])
  {
    var plan, rest := Plan(lane, drain), lane.queue[|batch|..];
    assert plan[0] == batch;
    var after := lane.(queue := rest, batches := lane.batches + [Batch(batch, Receipted)]);
    assert [batch][1..] == [];
    if drain && rest != [] {
      assert plan[1..] == Plan(after, drain);
    }
  }

  ghost function Drained(lane: Lane): Lane {
    Flushed(lane, Plan(lane, true))
  }

  /** The receipts of draining some platforms in turn. */
  ghost function AllSent(adapters: map<string, Adapter>, network: Network, lanes: map<string, Lane>,
                         platforms: seq<string>): seq<Receipt>
    requires forall p | p in platforms :: p in lanes && p in adapters
  {
    if platforms == [] then [] else
      var last := platforms[|platforms| - 1];
      AllSent(adapters, network, lanes, platforms[..|platforms| - 1])
      + Sent(adapters[last], network, last, Plan(lanes[last], true))
  }

  /** Sending batches that lie one after the other at the front of the queue removes them and records them in order. */
  lemma {:induction false} FlushedIs(lane: Lane, chunks: seq<seq<Event>>)
    requires Joined(chunks) <= lane.queue
    ensures var after := Flushed(lane, chunks);
            && after.queue == lane.queue[|Joined(chunks)|..]
            && |after.batches| == |lane.batches| + |chunks|
            && (forall k | 0 <= k < |chunks| :: after.batches[|lane.batches| + k] == Batch(chunks[k], Receipted))
            && after.batches[..|lane.batches|] == lane.batches
            && after.log == lane.log && after.maxBatch == lane.maxBatch
    decreases |chunks|
  {
    if chunks == [] {
    } else {
      var first := chunks[0];
      assert first <= lane.queue;
      var next := lane.(queue := lane.queue[|first|..], batches := lane.batches + [Batch(first, Receipted)]);
      FlushedIs(next, chunks[1..]);
      var after := Flushed(lane, chunks);
      assert after == Flushed(next, chunks[1..]);
      assert after.batches[|lane.batches|] == next.batches[|lane.batches|];
      assert after.batches[..|lane.batches|] == next.batches[..|lane.batches|];
      forall k | 0 <= k < |chunks|
        ensures after.batches[|lane.batches| + k] == Batch(chunks[k], Receipted)
      {
        if k > 0 {
          assert after.batches[|next.batches| + (k - 1)] == Batch(chunks[1..][k - 1], Receipted);
        }
      }
    }
  }

  /** A drain empties the queue exactly if the adapter takes batches at all, and sends it first in, first out. */
  lemma DrainEmptiesQueue(lane: Lane)
    ensures var after, plan := Drained(lane), Plan(lane, true);
            && (after.queue == [] <==> lane.maxBatch > 0 || lane.queue == [])
            && (lane.maxBatch > 0 ==>
                Joined(plan) == lane.queue && |plan| == (|lane.queue| + lane.maxBatch - 1) / lane.maxBatch)
            && |after.batches| == |lane.batches| + |plan|
            && (forall k | 0 <= k < |plan| :: after.batches[|lane.batches| + k] == Batch(plan[k], Receipted))
  {
    if lane.maxBatch > 0 {
      ChunksCut(lane.queue, lane.maxBatch);
      if lane.queue == [] {
        assert Chunks(lane.queue, lane.maxBatch) == [];
      }
      assert Plan(lane, true) == Chunks(lane.queue, lane.maxBatch);
      FlushedIs(lane, Plan(lane, true));
    }
  }

  /** A stop ends every batch, and loses exactly those that were in flight when it began. */
  lemma StopLosesInFlight(lane: Lane, k: nat)
    requires k < |Drained(lane).batches|
    ensures var before, after := Drained(lane).batches, Cancelled(Drained(lane)).batches;
            && |after| == |before| && after[k].events == before[k].events && after[k].state != InFlight
            && (after[k].state == Lost <==> k < |lane.batches| && lane.batches[k].state in {InFlight, Lost})
  {
    var plan := Plan(lane, true);
    if lane.maxBatch > 0 {
      ChunksCut(lane.queue, lane.maxBatch);
      if lane.queue == [] {
        assert Chunks(lane.queue, lane.maxBatch) == [];
      }
    }
    FlushedIs(lane, plan);
    var before := Drained(lane).batches;
    if k < |lane.batches| {
      assert before[k] == before[..|lane.batches|][k];
    } else {
      assert before[|lane.batches| + (k - |lane.batches|)] == Batch(plan[k - |lane.batches|], Receipted);
    }
  }

  /* Flushes that interleave */

  /** The batches that a lane has taken since it had `count` of them. */
  ghost function TakenSince(lane: Lane, count: nat): seq<seq<Event>>
    requires count <= |lane.batches|
  {
    seq(|lane.batches| - count, i requires 0 <= i < |lane.batches| - count => lane.batches[count + i].events)
  }

  lemma FirstChunk(s: seq<Event>, n: nat)
    requires n > 0 && s != []
    ensures var k := if |s| <= n then |s| else n; Chunks(s, n) == [s[..k]] + Chunks(s[k..], n)
  {
    if |s| <= n {
      assert s[..|s|] == s && s[|s|..] == [];
    }
  }

  /** What a step that emits nothing does to one lane. */
  lemma StepTakesChunk(p: Pipeline, step: Step, platform: string, count: nat)
    requires platform in p.lanes && p.lanes[platform].maxBatch > 0 && count <= |p.lanes[platform].batches|
            && !step.Emit?
    ensures platform in Apply(p, step).lanes
    ensures var lane, after := p.lanes[platform], Apply(p, step).lanes[platform];
            && after.maxBatch == lane.maxBatch && count <= |after.batches|
            && TakenSince(after, count) + Chunks(after.queue, lane.maxBatch) ==
                TakenSince(lane, count) + Chunks(lane.queue, lane.maxBatch)
  {
    var lane, after := p.lanes[platform], Apply(p, step).lanes[platform];
    if step.TakeBatch? && step.platform == platform && lane.queue != [] {
      var n := BatchSize(lane);
      assert TakenSince(after, count) == TakenSince(lane, count) + [lane.queue[..n]];
      FirstChunk(lane.queue, lane.maxBatch);
    } else {
      assert TakenSince(after, count) == TakenSince(lane, count);
    }
  }

  /**
   While nothing is emitted, whatever the drain and the workers do in whatever order, the
   batches that a platform takes are cut from its queue as one drain would cut it: in
   order, without loss or overlap, and all full but the last. Once the queue is empty,
   they are all of them.
   */
  lemma {:induction false} InterleavedFlushesCutTheQueue(p: Pipeline, steps: seq<Step>, platform: string)
    requires platform in p.lanes && p.lanes[platform].maxBatch > 0
    requires forall step | step in steps :: !step.Emit?
    ensures platform in Run(p, steps).lanes
    ensures var lane, after := p.lanes[platform], Run(p, steps).lanes[platform];
            && after.maxBatch == lane.maxBatch && |lane.batches| <= |after.batches|
            && TakenSince(after, |lane.batches|) + Chunks(after.queue, lane.maxBatch) ==
                Chunks(lane.queue, lane.maxBatch)
            && (after.queue == [] <==> TakenSince(after, |lane.batches|) == Chunks(lane.queue, lane.maxBatch))
  {
    if steps == [] {
    } else {
      var n := |steps| - 1;
      assert steps[n] in steps && forall step | step in steps[..n] :: step in steps;
      InterleavedFlushesCutTheQueue(p, steps[..n], platform);
      StepTakesChunk(Run(p, steps[..n]), steps[n], platform, |p.lanes[platform].batches|);
    }
    var lane, after := p.lanes[platform], Run(p, steps).lanes[platform];
    assert Chunks(after.queue, lane.maxBatch) == [] <==> after.queue == [];
  }

  /** The drain of a platform ends only when its queue is empty, and nothing but an emit fills it again. */
  lemma {:induction false} DrainedStaysEmpty(p: Pipeline, steps: seq<Step>, platform: string, j: nat)
    requires j <= |steps| && platform in Run(p, steps[..j]).lanes && Run(p, steps[..j]).lanes[platform].queue == []
    requires forall step | step in steps :: !step.Emit?
    ensures platform in Run(p, steps).lanes && Run(p, steps).lanes[platform].queue == []
  {
    if j == |steps| {
      assert steps[..j] == steps;
    } else {
      var n := |steps| - 1;
      assert steps[..n][..j] == steps[..j];
      assert steps[n] in steps && forall step | step in steps[..n] :: step in steps;
      DrainedStaysEmpty(p, steps[..n], platform, j);
    }
  }

  /** The places in a run at which the drains of the platforms have ended, each with an empty queue. */
  ghost predicate DrainsEnd(p: Pipeline, steps: seq<Step>, ends: map<string, nat>) {
    && ends.Keys == p.lanes.Keys
    && forall platform | platform in ends ::
         && ends[platform] <= |steps| && platform in Run(p, steps[..ends[platform]]).lanes
         && Run(p, steps[..ends[platform]]).lanes[platform].queue == []
  }

  /**
   A stop under any interleaving: with nothing emitted, once the drain of each platform has
   ended, every queue is empty, and each was taken in the batches in which one drain alone
   would have sent it, whatever part the workers had in it.
   */
  lemma StopEmptiesQueues(p: Pipeline, steps: seq<Step>, ends: map<string, nat>, platform: string)
    requires DrainsEnd(p, steps, ends) && platform in p.lanes && p.lanes[platform].maxBatch > 0
    requires forall step | step in steps :: !step.Emit?
    ensures platform in Run(p, steps).lanes
    ensures var lane, after := p.lanes[platform], Run(p, steps).lanes[platform];
            && after.queue == [] && |lane.batches| <= |after.batches|
            && TakenSince(after, |lane.batches|) == Chunks(lane.queue, lane.maxBatch)
  {
    DrainedStaysEmpty(p, steps, platform, ends[platform]);
    InterleavedFlushesCutTheQueue(p, steps, platform);
  }
}
