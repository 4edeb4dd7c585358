# NexusGuard backend: the stateful core

This project models the stateful parts of the NexusGuard security platform's Python
backend and proves what they promise, for all inputs, all runs and all interleavings.

- **Compliance engine.** `RuleModel`, `RuleOrder`, `RuleChain`, `ComplianceReport`,
  `ReportLaws`, `ComplianceEngine`, `RuleFixing`. Rules name other rules as prerequisites.
  A depth-first sort that tolerates cycles orders them, a loop skips rules whose
  prerequisites did not pass, and an aggregator weighs the results. The rules that pass are
  shown to be a least fixpoint, so a report does not depend on the order of registration,
  and the effect of fixing one rule on the score is computed exactly.
- **Login lockout.** `LoginLockout`, `LockoutBound`, `LockoutCommands`. Two Redis keys with a
  time to live bound the wrong passwords that reach the check in any interval of the
  lockout's length, by a number that grows with how many logins of the user overlap.
- **SIEM pipeline.** `SiemModel`, `SiemPipeline`, `SiemSafety`, `SiemAdmission`,
  `SiemDedup`, `SiemRotation`. Emits, the two halves of a flush, and cancellations interleave
  freely; no event is sent twice or disappears unaccounted for.
- **Rate limiters.** `SlidingLog`, `EndpointLimits`, `FixedWindow`, `RedisWindow`.
- **Continuous monitor.** `DriftDetection`, `Polling`, `PollingLaws`, `Scheduling`. Skipping
  unchanged configurations refines checking every one; each outage sends one alert.
- **Event bus.** `EventBusModel`, `EventBusLaws`. Concurrent handlers with retries and a
  bounded dead-letter queue.
- **Fleet execution.** `FleetModel`, `FleetLaws`. Concurrent tasks under semaphores fill
  one result slot per device.
- **Incidents.** `IncidentModel`, `IncidentLaws`. The timeline replays to the rows.
- **Compliance history.** `HistoryStore`. A bounded cache and a bounded Redis list kept in
  opposite orders.

Where the source changes state in place, a class has the same fields and methods. Each
method is proved to have the effect of one step of a transition function (`Apply`), or of
a function of the old state, and the laws are proved about runs of that function. A step
is what happens between two suspension points of the source's coroutines. A run is any
sequence of steps; a step that is not enabled changes nothing. Coroutines suspended in the
middle of an operation are part of the state: batches in flight, handler tasks, fleet tasks.

Times are whole numbers and clocks do not go back. Weights are doubled, so that each is an
integer, and scores are exact rationals. Random, remote and device behaviour enters as
parameters: the result of a rule's check, of an attempt to send, or of a command; the
moment at which a step happens; the hashes that a rotation drops.

Where the code does something other than its comments say, the model follows the code:

- The rotation of seen hashes drops arbitrary ones, not the oldest.
- Drift events are made for every failed rule, not only for new failures
  (`PollingLaws.DriftNamesAllFailures`).
- An unreachable device that comes back with its old configuration stays unreachable.
- The sliding log is shared by windows of different lengths, so a short one prunes what a
  long one would count (`SlidingLog.ShortWindowForgets`).
- Calls at one instant share a member of the Redis set (`RedisWindow.SameInstantEscapes`).
- Incident numbers are counted per tenant, but the key column is unique over all tenants
  (`IncidentLaws.KeysCollideAcrossTenants`).
- A drain with a batch size of zero or less returns with the queue unsent
  (`SiemPipeline.DrainEmptiesQueue`).
- Fixing a rule can lower a device's score (`RuleFixing.FixingCanLowerScore`).
- Logins that pass the lock check together are all let through to the password check
  (`LockoutBound.BoundIsReached`).

## Model

| member | source | states |
|---|---|---|
| RuleModel.RuleRegistry.constructor | backend/app/domain/compliance/engine/compliance_engine.py:414-426 | the registry holds exactly the built-in rules, the last one of each id, and lists under each framework the ids of its rules in their order |
| RuleModel.RuleRegistry.Register | backend/app/domain/compliance/engine/compliance_engine.py:428-431 | the rule replaces any earlier one of its id; its id is appended once more to its framework |
| RuleModel.RuleRegistry.RulesFor | backend/app/domain/compliance/engine/compliance_engine.py:433-435 | one rule per indexed id, in registration order, the latest registered under that id, so equal ids mean equal rules |
| RuleOrder.DepthFirstSort.Visit | backend/app/domain/compliance/engine/compliance_engine.py:526-533 | a visit ends on every graph, keeps the sort invariant, and marks its rule and everything it visits |
| RuleOrder.DepthFirstSort.Append | backend/app/domain/compliance/engine/compliance_engine.py:530-533 | a rule is placed last, and the invariant survives, once all prerequisites it names have been visited |
| RuleOrder.ChainReaches | backend/app/domain/compliance/engine/compliance_engine.py:526-532 | every rule still being visited leads, by prerequisites, to the innermost one |
| RuleOrder.TopologicalSort | backend/app/domain/compliance/engine/compliance_engine.py:520-537 | for every list: each distinct id exactly once, each listed prerequisite first unless it lies on a common cycle with the rule that names it, and otherwise the listed order: a rule overtakes another only as a prerequisite of a rule listed no later than that one |
| RuleOrder.TopologicalIffAcyclic | backend/app/domain/compliance/engine/compliance_engine.py:520-537 | the result is a full topological order if and only if the listed rules have no cycle |
| RuleChain.PassesAlongPath | backend/app/domain/compliance/engine/compliance_engine.py:484-496 | if a rule passed, so did every rule its prerequisites lead to |
| RuleChain.UnlockedAtItsTurn | backend/app/domain/compliance/engine/compliance_engine.py:484-486 | all prerequisites pass in the end if and only if they had passed at the rule's own turn, cycles included |
| RuleChain.PassedIsLeastFixpoint | backend/app/domain/compliance/engine/compliance_engine.py:480-497 | the ids that pass in a framework are the least fixpoint of "all prerequisites pass and the check passes", for cyclic, self-referring and missing prerequisites too |
| RuleChain.OneLeastFixpoint | backend/app/domain/compliance/engine/compliance_engine.py:480-497 | that fixpoint is unique and depends on the set of rules only |
| RuleChain.VerdictsFollowFixpoint | backend/app/domain/compliance/engine/compliance_engine.py:484-497 | each result is the rule's own check if its prerequisites are in the fixpoint, and a skip otherwise |
| RuleChain.FixingKeepsPasses | backend/app/domain/compliance/engine/compliance_engine.py:484-496 | making more checks pass never makes another rule stop passing |
| ComplianceEngine.ComplianceOrchestrator.RunChain | backend/app/domain/compliance/engine/compliance_engine.py:482-497 | the loop over the sorted rules yields the chained outcomes, in order |
| ComplianceEngine.ComplianceOrchestrator.EvaluateDevice | backend/app/domain/compliance/engine/compliance_engine.py:459-518 | for each requested framework in turn, every rule has one result: what its check returned if its prerequisites are among the least set of passing rules, an ERROR of its own id, severity, framework and control if the check timed out or raised, and a SKIPPED one otherwise; the report is made of these; asking for no framework fails |
| ComplianceEngine.ChainGivesVerdicts | backend/app/domain/compliance/engine/compliance_engine.py:480-518 | the same of one framework, for any results that its chain can give |
| ComplianceEngine.PassingIsLeastFixpoint | backend/app/domain/compliance/engine/compliance_engine.py:480-497 | a rule is among the passing ones if and only if its prerequisites are and its check returned PASS or EXCEPTION; never if it timed out or raised |
| ComplianceEngine.OneVerdictPerRule | backend/app/domain/compliance/engine/compliance_engine.py:480-497 | each distinct rule yields exactly one result, decided by the least fixpoint |
| ComplianceEngine.ChainIgnoresRegistrationOrder | backend/app/domain/compliance/engine/compliance_engine.py:428-435 | two registration orders of the same rules give one framework the same results, up to their order |
| ComplianceEngine.ReportIgnoresRegistrationOrder | backend/app/domain/compliance/engine/compliance_engine.py:459-499 | two registries with the same rules, registered in any order and any number of times, give a device reports that differ at most in the order of the result list |
| RuleFixing.FixingAndScore | backend/app/domain/compliance/engine/compliance_engine.py:480-497 | the exact effect of fixing one rule, whatever it unlocks and whatever the other frameworks give: the score falls if and only if the weight gained by it and the newly unlocked rules, times the possible weight before, is less than the earned weight before times the possible weight added; and stays equal if and only if the two products are equal |
| RuleFixing.HarmlessFix | backend/app/domain/compliance/engine/compliance_engine.py:484-496 | a fix that unlocks nothing, or only rules that pass, strictly raises the score |
| RuleFixing.FixingCanLowerScore | backend/app/domain/compliance/engine/compliance_engine.py:484-496 | three rules for which a fix does lower the score: it unlocks a heavier rule that fails and was skipped before |
| ComplianceReport.CountVerdict | backend/app/domain/compliance/engine/compliance_engine.py:585-590 | the number of results with a verdict |
| ComplianceReport.RecordControl | backend/app/domain/compliance/engine/compliance_engine.py:561-575 | the summary of the result's control gains one result, its weight, and a pass or a failure |
| ComplianceReport.TotalUp | backend/app/domain/compliance/engine/compliance_engine.py:546-575 | the running totals are the sums over the results that were not skipped, and each control's summary is the sum over its own |
| ComplianceReport.AggregateReport | backend/app/domain/compliance/engine/compliance_engine.py:539-605 | every figure of the report is the corresponding sum over the results |
| ReportLaws.SplitByControl | backend/app/domain/compliance/engine/compliance_engine.py:561-575 | splitting the results by control loses nothing, for every figure that ignores skipped results |
| ReportLaws.ControlsAddUp | backend/app/domain/compliance/engine/compliance_engine.py:550-590 | the controls' weights, maxima, passes, failures and totals add up to the report's; warnings count as failures |
| ReportLaws.CountsAddUp | backend/app/domain/compliance/engine/compliance_engine.py:585-590 | the six verdict counts add up to the number of results |
| ReportLaws.ScoreIsPercentage | backend/app/domain/compliance/engine/compliance_engine.py:550-577 | the unrounded score lies between 0 and 100, and is 100 if and only if something was evaluated and all of it passed |
| ReportLaws.ScoreBySeverity | backend/app/domain/compliance/engine/compliance_engine.py:546-577 | the score is the weight of what passed as a percentage of the weight of what was evaluated, with 10, 7.5, 5, 2.5 and 0.5 for a critical, high, medium, low and informational result |
| ReportLaws.SkippedDoNotPenalise | backend/app/domain/compliance/engine/compliance_engine.py:554-556 | deleting the skipped results changes neither the score nor any control summary |
| ReportLaws.FixingAFailureRaisesScore | backend/app/domain/compliance/engine/compliance_engine.py:550-577 | turning one evaluated failure into a pass, with the skips unchanged, strictly raises the score |
| ReportLaws.ReadsFullScore | backend/app/domain/compliance/engine/compliance_engine.py:582 | the rounded score reads 100.00 if and only if the weight missed is at most one part in 20000 |
| ReportLaws.RoundedIsNearest | backend/app/domain/compliance/engine/compliance_engine.py:582 | rounding gives the nearest hundredth, and the even one of two |
| ReportLaws.ReportIgnoresOrder | backend/app/domain/compliance/engine/compliance_engine.py:539-605 | a report depends on which results there are, not on their order |
| LoginLockout.TtlStore.Incr | backend/app/core/security.py:291 | an absent or expired key starts from zero without expiry; a live one keeps its expiry |
| LoginLockout.LoginGuard.RecordLoginAttempt | backend/app/core/security.py:275-296 | a failure counts up, starts the time to live only on the first, and sets the lock at the limit; a success clears both keys; the account of every other user is unchanged |
| LoginLockout.LoginGuard.IsAccountLocked | backend/app/core/security.py:299-306 | locked exactly while the lock key is there |
| LoginLockout.LoginGuard.ClearLoginAttempts | backend/app/core/security.py:309-317 | both keys of the user are gone, and the account of every other user is unchanged |
| LoginLockout.LoginGuard.LogIn | backend/app/api/v1/routers/auth.py:227-243 | locked exactly while the user's own lock is there, accepted exactly if not locked and the password is right; a wrong one is recorded, a right one clears the account; no other account changes |
| LoginLockout.KeysApart | backend/app/core/security.py:283-284 | no two of the keys of all users are the same |
| LoginLockout.OutcomesAreOwn | backend/app/api/v1/routers/auth.py:227-243 | in every run of logins of many users, each outcome is what it is among that user's own logins alone |
| LockoutBound.AlwaysSound | backend/app/core/security.py:291-296 | in every run in which at most k logins overlap, the counter passes the limit by at most k - 1 (never, one after the other), and a lock outlives the counter that caused it |
| LockoutBound.AllowanceStep | backend/app/core/security.py:291-296 | inside an interval of the lockout's length, each recorded failure uses up part of what can still be recorded |
| LockoutBound.LockoutBoundsFailures | backend/app/api/v1/routers/auth.py:229-239 | if at most k logins of a user overlap, any half-open interval of the lockout's length without a success holds at most 2 * max - 3 + k failures that reach the password check (k, if max is at most 1) |
| LockoutBound.OneAtATime | backend/app/api/v1/routers/auth.py:229-239 | logins one after the other are such a run with k = 1, and leave the account as the login route does |
| LockoutBound.SequentialFailures | backend/app/api/v1/routers/auth.py:229-239 | for them the bound is 2 * max - 2 (one, if max is at most 1) |
| LockoutBound.BoundIsReached | backend/app/core/security.py:291-296 | for every max, every lockout of at least 2 seconds and every k of at least 1 a run reaches the bound, so without a limit on k there is none on the failures |
| LockoutCommands.CommandsBoundFailures | backend/app/core/security.py:287-317 | the same bound when every single Redis command of overlapping logins interleaves freely, at its own time |
| LockoutCommands.RecordingsAreCommands | backend/app/core/security.py:287-317 | runs of whole recordings are such runs of commands, with as many failures and overlapping logins |
| LockoutCommands.CommandBoundIsReached | backend/app/core/security.py:287-317 | so the bound is reached by a run of commands for every max, lockout of at least 2 seconds and k of at least 1 |
| LockoutCommands.CountersWillExpire | backend/app/core/security.py:291-293 | in every interleaving of commands, a counter has a time to live of at most the lockout, or a login that is to start it is still pending |
| LockoutCommands.LockOutlivesCounter | backend/app/core/security.py:291-295 | in every interleaving, a lock that is set outlives the counter if and only if the counter's time to live has been started |
| SiemModel.ReceiptsOf | backend/app/services/siem/siem_pipeline.py:223-230 | an adapter answers with one receipt per event, in order |
| SiemPipeline.RetrySend | backend/app/services/siem/siem_pipeline.py:119-135 | stops at the first attempt that succeeds; gives up after exactly max_retries failures |
| SiemPipeline.SendBatch | backend/app/services/siem/siem_pipeline.py:199-251 | one receipt per event: skipped if unconfigured, success if some attempt succeeded, failed otherwise |
| SiemPipeline.FillBatch | backend/app/services/siem/siem_pipeline.py:555-560 | the batch is the front of the queue, as much as fits, and the rest stays |
| SiemPipeline.SIEMPipeline.RegisterAdapter | backend/app/services/siem/siem_pipeline.py:500-503 | a registered platform has a new, empty queue |
| SiemPipeline.SIEMPipeline.Rotate | backend/app/services/siem/siem_pipeline.py:531-532 | ten thousand hashes, no matter which, are forgotten |
| SiemPipeline.SIEMPipeline.OfferToAll | backend/app/services/siem/siem_pipeline.py:534-539 | each queue with room gets the event; the others drop it |
| SiemPipeline.OfferedIsEnqueued | backend/app/services/siem/siem_pipeline.py:534-539 | offering an event puts it behind each queue that holds fewer than 10,000, and leaves the others as they were |
| SiemPipeline.SIEMPipeline.Emit | backend/app/services/siem/siem_pipeline.py:521-539 | a remembered hash changes nothing; any other event goes behind the queue of each platform that holds fewer than 10,000 and to no other, its hash is remembered, and at 100,000 remembered the set shrinks to 90,001 |
| SiemAdmission.DroppedIffFull | backend/app/services/siem/siem_pipeline.py:534-539 | in every run, a platform dropped an event if and only if it was emitted, not as a duplicate, while that platform's queue held 10,000 events, and took it if and only if it was emitted while the queue held fewer |
| SiemPipeline.SIEMPipeline.TakeBatch | backend/app/services/siem/siem_pipeline.py:551-566 | the first half of a flush: the taking step of the machine |
| SiemPipeline.SIEMPipeline.Settle | backend/app/services/siem/siem_pipeline.py:566-567 | the second half: the receipts of a batch in flight are recorded |
| SiemPipeline.SIEMPipeline.Abandon | backend/app/services/siem/siem_pipeline.py:517-518 | a batch whose flush is cancelled inside the adapter's call is lost without receipts |
| SiemPipeline.SIEMPipeline.FlushQueue | backend/app/services/siem/siem_pipeline.py:550-571 | with nothing else running: at most one batch, or with drain and a positive batch size the whole queue, leaves the front of the queue, and each event of it has one receipt, in order |
| SiemPipeline.SIEMPipeline.Stop | backend/app/services/siem/siem_pipeline.py:512-519 | every queue with a positive batch size is drained and empty, the receipts are those of the batches sent, and no batch is left in flight |
| SiemPipeline.StopLosesInFlight | backend/app/services/siem/siem_pipeline.py:512-519 | after a stop no batch is in flight, and exactly those that were in flight before it are newly lost |
| SiemPipeline.ChunksCut | backend/app/services/siem/siem_pipeline.py:555-571 | a queue is cut in order and without loss into ceil(n / size) batches, all full but the last |
| SiemPipeline.DrainEmptiesQueue | backend/app/services/siem/siem_pipeline.py:550-571 | a drain empties the queue if and only if the batch size is positive or the queue was empty, sending it first in, first out |
| SiemPipeline.InterleavedFlushesCutTheQueue | backend/app/services/siem/siem_pipeline.py:541-571 | while nothing is emitted, drain and workers, interleaved in any order, cut a platform's queue into the same batches as one drain alone, in order; they are all of them if and only if the queue is empty |
| SiemPipeline.StopEmptiesQueues | backend/app/services/siem/siem_pipeline.py:512-519 | while nothing is emitted, whatever the workers do during the drains, every queue is empty once its drain has ended, and has been taken in the batches of one drain alone |
| SiemSafety.ApplyKeepsSafe | backend/app/services/siem/siem_pipeline.py:512-571 | every single step keeps the invariant of every platform |
| SiemSafety.RunIsSafe | backend/app/services/siem/siem_pipeline.py:512-571 | after every interleaving, batches of 1 to max_batch_size events are cut in order from the admitted events, the queue is the rest, and each receipted event has one receipt |
| SiemSafety.EventsPartitioned | backend/app/services/siem/siem_pipeline.py:512-571 | on each platform, the events that were not duplicates are partitioned into dropped, queued, in flight, lost and receipted |
| SiemDedup.DeduplicationIsExact | backend/app/services/siem/siem_pipeline.py:521-532 | at most 100,000 hashes are remembered, all emitted before; with no more than that many distinct hashes, exactly the first occurrences are offered |
| SiemDedup.ExactIffNothingForgotten | backend/app/services/siem/siem_pipeline.py:521-532 | in every run of any length, the events offered are exactly the first occurrences, in order, if and only if no event was emitted whose hash had been emitted before and rotated out since |
| SiemRotation.ExactIffNoStaleRepeat | backend/app/services/siem/siem_pipeline.py:521-532 | for every history of emitted events: deduplication is exact whatever hashes the rotations drop, if and only if no event repeats a hash first emitted no later than the last rotation point, which the number of different hashes so far fixes |
| SiemRotation.NoStaleRepeatIsExact | backend/app/services/siem/siem_pipeline.py:529-532 | without such a repeat, the number of hashes remembered is a function of the number of different ones, and each one emitted since the last rotation point is remembered |
| SiemDedup.RotationReoffers | backend/app/services/siem/siem_pipeline.py:529-532 | with 100,001 distinct hashes a duplicate can be offered again, so the limit is sharp |
| SlidingLog.RateLimitStore.IsAllowed | backend/app/middleware/security_advanced.py:31-53 | the log is pruned, and the call admitted and logged exactly if fewer than the limit are left |
| SlidingLog.CallCountsItsWindow | backend/app/middleware/security_advanced.py:41-53 | a call is admitted if and only if fewer than the limit of the logged times lie after now minus the window; the log then holds just those, and its own time if admitted |
| SlidingLog.RateLimitStore.GetRemaining | backend/app/middleware/security_advanced.py:55-68 | positive if and only if a call at the same instant would be admitted |
| SlidingLog.LogHoldsRecentAdmissions | backend/app/middleware/security_advanced.py:41-52 | after every run with mixed windows the log holds exactly the admissions after the latest cutoff used |
| SlidingLog.DecisionCountsUnpruned | backend/app/middleware/security_advanced.py:41-53 | the exact decision: admitted if and only if fewer than the limit lie after both the call's own cutoff and the latest one used |
| SlidingLog.RefusalIsJustified | backend/app/middleware/security_advanced.py:48-49 | a refusal means that at least `limit` admissions lie in the caller's window |
| SlidingLog.SmallestWindowIsExact | backend/app/middleware/security_advanced.py:41-53 | with no smaller window used so far, the decision counts exactly the admissions in the caller's window |
| SlidingLog.WindowBoundsAdmissions | backend/app/middleware/security_advanced.py:31-53 | with windows of at least w and limits of at most n, every half-open interval of length w holds at most n admissions |
| SlidingLog.ExactIffUndisturbed | backend/app/middleware/security_advanced.py:31-53 | for every table of endpoints with positive windows: an endpoint is decided by the admissions in its own window in every run if and only if no endpoint has a shorter window, except that a limit of one tolerates those with a positive limit, and a limit of zero or less all |
| SlidingLog.ShortWindowForgets | backend/app/middleware/security_advanced.py:78-86 | a login after three password-reset requests lets a fourth one through within 300 seconds |
| EndpointLimits.SelectLimit | backend/app/middleware/security_advanced.py:94-99 | the first pattern of the table that starts the path decides, and the general limit otherwise |
| EndpointLimits.FirstMatchIsLongest | backend/app/middleware/security_advanced.py:96-99 | if no pattern comes after its own prefix, the first match is the longest one |
| EndpointLimits.LimitsAreGraded | backend/app/middleware/security_advanced.py:78-86 | the middleware's own table is such a table |
| EndpointLimits.ExactEndpoints | backend/app/middleware/security_advanced.py:78-86 | of the middleware's endpoints, exactly those with a window of one minute are always decided by their own admissions |
| FixedWindow.LocalLimiter.LocalTokenBucket | backend/app/middleware/security_headers.py:167-183 | a call opens a new window or is admitted while the window's count is below the limit; others' buckets do not change |
| FixedWindow.FixedWindowBound | backend/app/middleware/security_headers.py:167-183 | if no call's limit exceeds n, any half-open interval of one window's length holds at most 2 * n - 1 admissions (one, if n is at most 1), also when calls with different limits share the bucket |
| FixedWindow.BoundIsReached | backend/app/middleware/security_headers.py:167-183 | for every limit of at least 1 and window of at least 2 a run reaches that bound |
| RedisWindow.RedisLimiter.RedisSlidingWindow | backend/app/middleware/security_headers.py:148-165 | the trimmed set with the call added decides; refused calls are logged too |
| RedisWindow.KeysApart | backend/app/middleware/security_headers.py:152 | two callers share a key if and only if identifier and path are the same, as long as no identifier holds a colon before a slash |
| RedisWindow.ColonSlashCollides | backend/app/middleware/security_headers.py:152 | an identifier that holds one shares its keys with a shorter identifier |
| RedisWindow.StoreHoldsWindow | backend/app/middleware/security_headers.py:156-161 | after each call the key holds exactly the distinct call times of the last window |
| RedisWindow.ExpiryChangesNothing | backend/app/middleware/security_headers.py:160 | the key's expiry never changes a decision |
| RedisWindow.DecisionCountsCalls | backend/app/middleware/security_headers.py:156-165 | admitted if and only if at most `limit` distinct call times, its own included, lie in the window |
| RedisWindow.RedisWindowBound | backend/app/middleware/security_headers.py:148-165 | any half-open interval of one window's length holds admissions at no more than `limit` distinct times |
| RedisWindow.AdvancingClockCountsCalls | backend/app/middleware/security_headers.py:148-165 | with strictly advancing times, that bounds the admitted calls themselves |
| RedisWindow.CallsBoundedIffAdvancing | backend/app/middleware/security_headers.py:148-165 | in every run, every limit bounds the admitted calls in every window if and only if no two calls share an instant |
| RedisWindow.CrowdBound | backend/app/middleware/security_headers.py:156-165 | with at most m calls at any instant, a window admits at most m at each of as many instants as the limit or the window allows |
| RedisWindow.BoundedIffFewPerInstant | backend/app/middleware/security_headers.py:156-165 | for the limit and window in force: the limit bounds the admitted calls in every run with at most m calls at any instant, if and only if m times the smaller of limit and window is at most the limit |
| RedisWindow.FewInstantsAllAdmitted | backend/app/middleware/security_headers.py:156-165 | calls that share at most as many instants as the limit are all admitted |
| RedisWindow.SameInstantEscapes | backend/app/middleware/security_headers.py:158 | any number of calls at one instant is admitted, under every limit of at least one |
| DriftDetection.DetectDrift | backend/app/services/compliance/detection/drift_detector.py:43-104 | one drift event for each result with verdict FAIL or ERROR, in order, with the rule's own severity, and for informational rules the overall one, which follows from critical failures and a move by more than 20, 10 or 5 |
| Polling.DeviceMonitor.RunComplianceCheck | backend/app/services/compliance/orchestration/polling_orchestrator.py:113-185 | the method ends as `Checked` says, which `CheckedEnds` spells out |
| Polling.CheckedEnds | backend/app/services/compliance/orchestration/polling_orchestrator.py:113-185 | a check that raises early changes nothing; else it adds drift events for exactly the failed rules if the hash changed and the new score is at most s * (1 - t) or at least s * (1 + t), for the positive stored score s and threshold t; unless dispatching them raises, hash, score, first baseline and state are set |
| Polling.DeviceMonitor.PollDevice | backend/app/services/compliance/orchestration/polling_orchestrator.py:50-90 | no configuration changes nothing; a good fetch resets the count and checks only a changed configuration; a raised check counts one failure |
| Polling.DeviceMonitor.Poll | backend/app/services/compliance/continuous_monitor_refactored.py:171-205 | a failed fetch is counted and marks the device unreachable; the alert goes out when the count becomes three; a fetched configuration is checked unless it is the stored one, which only resets the count |
| PollingLaws.ScoreMatchesHash | backend/app/services/compliance/orchestration/polling_orchestrator.py:127-175 | in every run, failures included, the stored score is that of the configuration whose hash is stored |
| PollingLaws.SkippingRefinesAlwaysChecking | backend/app/services/compliance/orchestration/polling_orchestrator.py:75-83 | over every run, raising checks included, the poller agrees with one that always checks on hash, score, baseline and drift events |
| PollingLaws.DriftNamesAllFailures | backend/app/services/compliance/detection/drift_detector.py:43-85 | in every run, a poll whose check does not raise before the dispatch adds drift events for a rule if and only if the configuration is not the one last evaluated, whose score s is positive, the new score is at most s * (1 - t) or at least s * (1 + t), and the rule fails now, whether or not it failed before |
| PollingLaws.ShownUnlessBehind | backend/app/services/compliance/orchestration/polling_orchestrator.py:80-90 | in every run, the state shown is the expected one unless, since the last check that completed, a fetch failed or a check that raised recorded the first drift events |
| PollingLaws.UnchangedDeviceStaysUnreachable | backend/app/services/compliance/orchestration/polling_orchestrator.py:80-83 | after any history, raised checks included, a good fetch leaves the two pollers in the same monitoring state if and only if a check was made or the poller was not behind in that sense |
| PollingLaws.FailuresCountOutage | backend/app/services/compliance/continuous_monitor_refactored.py:190-192 | the count is the length of the current outage, plus one if the poll before it raised |
| PollingLaws.OneAlertPerOutage | backend/app/services/compliance/continuous_monitor_refactored.py:194-199 | in a maximal outage the alert is sent at exactly one poll: the third, or the second after a check that raised |
| PollingLaws.NoAlertOutsideOutages | backend/app/services/compliance/continuous_monitor_refactored.py:187-199 | an alert is only ever sent during an outage |
| Scheduling.ContinuousMonitor.RegisterDevice | backend/app/services/compliance/continuous_monitor_refactored.py:79-109 | the registering step of the machine: the device is known at once, its scheduling is queued |
| Scheduling.ContinuousMonitor.DeregisterDevice | backend/app/services/compliance/continuous_monitor_refactored.py:111-119 | the deregistering step: the device is forgotten at once, its removal from the schedule is queued |
| Scheduling.ContinuousMonitor.RunTask | backend/app/services/compliance/orchestration/scheduler.py:32-42 | the step that runs the oldest queued call of the scheduler |
| Scheduling.ContinuousMonitor.Tick | backend/app/services/compliance/orchestration/scheduler.py:51-72 | the step that looks for due devices, once the polls of the last round have ended |
| Scheduling.ContinuousMonitor.BeginPoll | backend/app/services/compliance/continuous_monitor_refactored.py:171-175 | the step in which a poll looks its device up; an unknown one is not polled |
| Scheduling.ContinuousMonitor.StartPoll | backend/app/services/compliance/continuous_monitor_refactored.py:177-185 | the step in which a poll gets its permit and fixes the time of the next one |
| Scheduling.ContinuousMonitor.EndPoll | backend/app/services/compliance/continuous_monitor_refactored.py:201-205 | the step that ends a poll: a device still scheduled is scheduled again, unless the poll raised |
| Scheduling.RunKeepsNotBefore | backend/app/services/compliance/orchestration/scheduler.py:44-78 | while no registration of a device runs, no poll of it gets on its way before the time it is scheduled for |
| Scheduling.PollsAreSpaced | backend/app/services/compliance/continuous_monitor_refactored.py:163-202 | in every run, if a poll started at one step and was rescheduled at a later one, every still later start of that device is at least its interval after the first, unless a registration of the device ran in between |
| Scheduling.DeregisteredStaysOut | backend/app/services/compliance/continuous_monitor_refactored.py:111-118 | a device that left the schedule is never brought back by a poll in flight, only by a new registration |
| Scheduling.DeregisterTaskRemoves | backend/app/services/compliance/continuous_monitor_refactored.py:113-118 | running the queued deregistration takes the device out of the schedule |
| Scheduling.DeregisteredForGood | backend/app/services/compliance/continuous_monitor_refactored.py:111-118 | in every run, once a device is deregistered and the scheduler calls queued by then have run, it is not in the schedule, then or later, unless registered again |
| Scheduling.DueDevicesArePolled | backend/app/services/compliance/orchestration/scheduler.py:51-78 | in every run, a device that is due when the loop looks at the schedule has its poll begun before the next look |
| EventBusModel.DeadLetterQueue.Push | backend/app/infrastructure/messaging/events.py:124-127 | a full queue loses its oldest entry to the new one |
| EventBusModel.DeadLetterQueue.Drain | backend/app/infrastructure/messaging/events.py:136-139 | returns the entries and empties the queue |
| EventBusModel.DeadLetterQueue.GetRecent | backend/app/infrastructure/messaging/events.py:144-145 | the newest entries, as many as the limit; all of them for a limit of zero, and all but that many of the oldest for a negative one |
| EventBusModel.EventBus.Subscribe | backend/app/infrastructure/messaging/events.py:168-171 | one more handler for the event type |
| EventBusModel.EventBus.Publish | backend/app/infrastructure/messaging/events.py:174-194 | after the old tasks comes one new pending task for each handler subscribed to the event's type, in order, each with its own handler; an event without handlers is not counted |
| EventBusModel.EventBus.Attempt | backend/app/infrastructure/messaging/events.py:203-228 | one turn of the retry loop: delivered, to be tried again, or dead-lettered |
| EventBusModel.EventBus.DispatchWithRetry | backend/app/infrastructure/messaging/events.py:197-228 | delivered at the first of three attempts that succeeds, dead-lettered once if none does |
| EventBusModel.EventBus.DrainDeadLetters | backend/app/infrastructure/messaging/events.py:136-139 | the drain step of the machine: the queue is returned and emptied |
| EventBusLaws.RunIsSound | backend/app/infrastructure/messaging/events.py:113-228 | in every interleaving: at most three attempts each, failed count = queued + evicted + drained, and the queue is the latest pushes since the last drain, in order |
| EventBusLaws.EndedTasksStay | backend/app/infrastructure/messaging/events.py:197-228 | a task that has ended never changes again |
| EventBusLaws.AttemptsRunOut | backend/app/infrastructure/messaging/events.py:203-219 | every attempt uses up part of what is left, so the tasks run to their end |
| EventBusLaws.OnePushPerDeadTask | backend/app/infrastructure/messaging/events.py:221-228 | each entry is pushed exactly as often as tasks gave up with it |
| EventBusLaws.OneTaskPerSubscription | backend/app/infrastructure/messaging/events.py:168-194 | in every interleaving, the tasks of an event for a handler are as many as the subscriptions of the handler to its type at each of its publications, added up |
| FleetModel.FleetRun.AcquirePermit | backend/app/services/network/device_executor.py:189-190 | a permit of the device's protocol is taken, and the gauge goes up for SSH |
| FleetModel.FleetRun.FinishExecution | backend/app/services/network/device_executor.py:415-438 | the permit is returned; the result fills the device's slot and is reported, or is tried again |
| FleetModel.FleetRun.WakeUp | backend/app/services/network/device_executor.py:418-430 | after the backoff the next attempt waits for a permit |
| FleetModel.FleetRun.Outcomes | backend/app/services/network/device_executor.py:460 | an empty slot reads as a failed task of an unknown device |
| FleetLaws.KeptAttemptIs | backend/app/services/network/device_executor.py:415-430 | the attempt whose result is kept is the first success or the last one allowed |
| FleetLaws.RunIsSound | backend/app/services/network/device_executor.py:189-213 | in every interleaving the gauge is the number of SSH permits held, never above their number, and each task is on its way to its kept attempt |
| FleetLaws.SlotsHoldOutcomes | backend/app/services/network/device_executor.py:407-460 | for every completion order slot i holds device i's outcome, and progress reports count 1 to total |
| FleetLaws.SlotsHoldFirstSuccess | backend/app/services/network/device_executor.py:407-460 | each slot holds the first success of its device, or the failure of the last attempt allowed; the only attempt for NETCONF; nothing if SSH is allowed no attempt |
| FleetLaws.EveryStepAdvances | backend/app/services/network/device_executor.py:411-438 | every step brings the fleet nearer to its end |
| FleetLaws.NeverStuck | backend/app/services/network/device_executor.py:189-213 | with permits of both kinds, some task can always go on until all have ended |
| IncidentModel.IncidentService.AddTimelineEntry | backend/app/services/incident_service.py:242-257 | one more entry on the timeline |
| IncidentModel.IncidentService.CreateIncident | backend/app/services/incident_service.py:44-111 | a new row with the tenant's next number, and its entries; fails exactly if the id or key is taken |
| IncidentModel.IncidentService.AssignIncident | backend/app/services/incident_service.py:136-170 | the visible incident is assigned and the entry written |
| IncidentModel.IncidentService.ChangeStatus | backend/app/services/incident_service.py:172-211 | the visible incident changes status and time stamps, and the entry is written |
| IncidentModel.IncidentService.CommentOn | backend/app/services/incident_service.py:213-240 | a comment and its entry on a visible incident |
| IncidentLaws.TimelineReplays | backend/app/services/incident_service.py:81-97 | after any run, replaying the timeline gives each incident's status, assignee, and whether it was resolved and closed |
| IncidentLaws.TimestampsMatchTimeline | backend/app/services/incident_service.py:183-195 | resolvedAt and closedAt are set if and only if the timeline has such a status change |
| IncidentLaws.LastChangeWins | backend/app/services/incident_service.py:136-211 | in every run, a status change or assignment under the incident's tenant decides its status, and assignee, until the next one |
| IncidentLaws.CommentsAreKept | backend/app/services/incident_service.py:213-240 | in every run, a comment under the incident's tenant is kept with its entry |
| IncidentLaws.WrongTenantChangesNothing | backend/app/services/incident_service.py:130-134 | an operation under another tenant changes nothing |
| IncidentLaws.NumbersAreDistinct | backend/app/services/incident_service.py:44-48 | a tenant's incidents have distinct numbers from 1 to their count |
| IncidentLaws.KeysCollideAcrossTenants | backend/app/services/incident_service.py:44-48 | a creation fails on its key if and only if another tenant has used the same number on the same day |
| IncidentLaws.SecondTenantIsBlocked | backend/app/services/incident_service.py:44-66 | the first incidents of two tenants on one day: the second is not created |
| HistoryStore.ComplianceHistoryStore.SaveSnapshot | backend/app/services/compliance/history/store.py:37-71 | the cache of the device and framework becomes the last 288 of what it was with the snapshot behind, and the Redis list, if the push arrives, the first 288 with it in front; no other key changes |
| HistoryStore.ComplianceHistoryStore.ClearLocalCache | backend/app/services/compliance/history/store.py:126-133 | the keys of the device are deleted, or all keys if no device, or an empty one, is named |
| HistoryStore.StoresHoldLatest | backend/app/services/compliance/history/store.py:46-68 | after every run the cache holds the latest 288 saves since the last clear, and Redis the latest 288 that reached it, newest first |
| HistoryStore.KeysApart | backend/app/services/compliance/history/store.py:46 | as long as no framework holds a colon, a key is shared by exactly one device and framework |
| HistoryStore.SavesAreOwn | backend/app/services/compliance/history/store.py:46-53 | in every run with such names, what is saved under a key since its last clear is the device's and framework's own saves |
| HistoryStore.CacheIsPrefixOfRedis | backend/app/services/compliance/history/store.py:46-68 | if every push reached Redis, the reversed cache is a prefix of the Redis list |
| HistoryStore.HistoryEndsWithNewest | backend/app/services/compliance/history/store.py:81-94 | with ordered time stamps a query returns a suffix of the cache that ends with the newest save, if that is recent enough, and nothing otherwise |
| HistoryStore.HistoryReturnsRecent | backend/app/services/compliance/history/store.py:81-94 | a query returns exactly the cached snapshots at most so many hours old |
| HistoryStore.LatestIsNewest | backend/app/services/compliance/history/store.py:117-124 | with ordered time stamps the latest snapshot is the newest save since the last clear if it is within 8760 hours, and nothing otherwise |

## Left out

- The frontend, routing, configuration, metrics, logging and tracing: no state of their own that the models need.
- The substring and pattern checks of the built-in CIS rules: a rule's check is an arbitrary function of the framework and the rule.
- Report ids, hashes, timestamps, findings, remediation steps, the score delta, and the name and framework of a control summary: they do not enter the figures.
- Twenty-eight-digit decimal precision: scores are exact, and only the final rounding to two places is modelled.
- RuleOrder.TopologicalIffAcyclic: stated for lists in which equal ids mean equal rules, which is what the registry hands out; the sort's own contract has no such condition.
- LockoutBound.AlwaysSound: a recording is one step here. For interleaved single commands `LockoutCommands` says when a lock outlives its counter and bounds the failures, but not the counter itself.
- LockoutBound.LockoutBoundsFailures: a recording is one step here; `LockoutCommands.CommandsBoundFailures` proves the bound for interleaved single commands.
- LoginLockout.LoginGuard.RecordLoginAttempt: the commands of one call reach Redis together; a crash between the increment and the setting of its expiry is not modelled.
- User names arrive lower-cased; folding is not modelled.
- The flush workers' timers, the record formats of the three platforms, health checks, and registering an adapter while events flow.
- SiemPipeline.SIEMPipeline.Stop: no adapter answers a worker while the queues are drained; the batches in flight are those at its start. `SiemPipeline.StopEmptiesQueues` covers stops that interleave.
- SiemPipeline.SIEMPipeline.FlushQueue: the method runs with nothing else in between; flushes that interleave are covered by `SiemSafety.EventsPartitioned` and `SiemPipeline.InterleavedFlushesCutTheQueue`.
- FixedWindow.FixedWindowBound: one window length for all calls, which is what the middleware uses.
- RedisWindow.RedisWindowBound: one limit and one window per key, which is what the middleware uses; falling back to the local buckets when Redis fails is not modelled.
- Response headers of the limiters.
- Remediation tasks, dispatcher handlers and the metrics of a poll; overlapping polls of one device.
- Forced polls, and devices registered or deregistered outside a running loop.
- Retry delays of the event bus and of the fleet, command timeouts, and the connection pool, which the execution path does not use.
- The dictionary of configurations that is built from a fleet's results: a filter over the slots.
- Titles, descriptions, severities and notifications of incidents; overlapping transactions. A key is modelled as its day and number, which fix the printed text.
- Long-term storage of snapshots, score trends, and a Redis that answers the push but not the trim that follows.
