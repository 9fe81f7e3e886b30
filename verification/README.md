# Verified model of the collector's core

A Dafny model of the parts of the collector that keep state under interleaving: dynamic sharding of
targets over collectors, the buffered InfluxDB exporter, alert ingestion from live events and BMC
logs, and rack slot assignment. `dafny verify dfyconfig.toml` checks everything.

Each component has a specification as a state machine or a condition on results, theorems about every
run or every input, and, where the program updates objects in place, classes and loops proved to carry
out exactly the steps of that specification.

| file | component |
|---|---|
| `ShardAlloc.dfy` | the capacity-bounded rendezvous allocator: stable slices, their uniqueness, coverage, what a new collector moves |
| `ShardLeases.dfy` | the lease table: static and dynamic passes, the bounded orphan sweep, statement by statement |
| `ShardFleet.dfy` | runs of many collectors over the table: lease safety, fleet coverage |
| `ShardSteady.dfy` | agreed membership: the allocation as a fixed point, bounded gaps, when a cold start reaches it |
| `CollectorSlots.dfy` | stable ordinals: mutual exclusion over every run |
| `ShardManager.dfy` | one collector's claim pass: slot renewal, slice, lease step, provisioning warnings |
| `InfluxBisect.dfy`, `InfluxExporter.dfy` | bisection of rejected batches; conservation, order and bound of the buffer |
| `RateLimiter.dfy`, `RateClock.dfy` | sliding-window limiter against the full history; which clocks keep its bound |
| `AlertPipeline.dfy` | queue, batch and drop accounting |
| `AlertStore.dfy` | content keys and the insert-if-absent store |
| `LogPages.dfy`, `LogIngest.dfy` | walking the pages of a log; one pull |
| `LogFeed.dfy`, `LogBurst.dfy` | exactly-once storage over any number of pulls; what a burst loses |
| `Subscriptions.dfy` | reconciling SSE and webhook subscriptions with the targets |
| `CperRetry.dfy` | the CPER enrichment retry machine |
| `RackPlacement.dfy` | packing systems into a rack |
| `Common.dfy` | options, least elements, `sorted(set(...))` |

## Where the code and its documentation differ

- Dynamic sharding does not always converge to the allocation. A collector with room to spare may
  adopt an orphan before the collector it is allocated to has passed. `ShardSteady.ColdStartConverges`
  gives the exact condition under which every order of first passes reaches the allocation; at the cap
  the manager computes it is that the collectors divide the targets evenly or that the fair share
  exceeds the maximum (`ShardSteady.ColdStartAtEffectiveCap`).
- A burst of more than `max_entries` new log entries between two pulls loses entries, and a lost entry
  that the cursor has passed stays lost. Entries of an unwanted severity count too: a wanted entry is
  lost when it is not among the newest `max_entries` rows (`LogBurst.PullCompleteIffKept`,
  `LogBurst.PullCompleteIffFewNewer`, `LogBurst.MissedForever`; a run that loses one is
  `LogBurst.BurstLosesAnEntry`).
- The docstring of the log pull says that entries at the cursor are skipped; the code skips only
  strictly older ones, which is what keeps late arrivals of the same instant.
- A log row that shows no time is taken as stored when its id is, although an entry that has a time would
  be stored under another key (`LogFeed.PullSavesAllIff`, `LogFeed.LateTimedSkipped`).
- A page request that fails ends the walk over a log collection without setting the truncation flag;
  it is the only way in which an unflagged walk is incomplete (`LogPages.IncompleteIffRequestFailed`,
  `LogPages.FailedPageNotReported`).
- The rate limiter keeps its bound exactly as long as its wall clock never returns to within a minute of
  a reading that it had left more than a minute behind (`RateClock.BoundIffClockNeverReturns`).
- With `permanent_failure_retry_hours` at 0, the log says that a permanently failed target is retried
  after it is removed and added again. It is not, unless it had subscribed before with another
  configuration (`Subscriptions.RetriedIff`, `Subscriptions.NeverRetried`,
  `Subscriptions.ReAddedNotAttempted`).
- Alerts whose shutdown write fails are lost without being counted as dropped, and in no other way
  (`AlertPipeline.LostIffStopFails`, `AlertPipeline.LostUncounted`).
- A system that names a rack unit can get no slot in a rack that is not full
  (`RackPlacement.LeftOutIff`, `RackPlacement.TopUnitTakenTwice`).

## Assumptions

- Database passes are serialized, and the clock readings of lease and slot passes do not go back in
  commit order. A pass reads the clock once; the static pass and the slot functions read it twice, a
  moment apart.
- The hash weight of a target and a collector is an arbitrary function; ties are broken by collector id
  in code-point order. `ceil(n / k)` is exact.
- Messages and ids encode to UTF-8 without replacement; the key is hashed after an encoding that would
  merge texts differing only in lone surrogates. sha256, `str` of an id and `isoformat` of an instant are injective, and neither they nor message ids,
  messages and source ids contain the separator `\x1f`. Instants are integers.
- An InfluxDB reply concerns the whole batch: stored, transiently failed, or rejected with nothing
  stored. Flushes are not cancelled. Rejected points are counted when the flush settles.
- One CPER worker; which stale rows a requeue picks is arbitrary, so its limit and order are covered.
- Stopping an SSE subscriber and deleting a webhook subscription do not raise. If one did in the middle
  of a refresh, the type map would keep an id that is no longer subscribed.
- What fetching a log entry returns is fixed per entry. What every other HTTP, SSE, BMC and database
  call returns is arbitrary, as a parameter.

## Model

| member | source | states |
|---|---|---|
| ShardAlloc.Allocate | collector/src/shard_alloc.py:60-85 | whatever the order and repetitions of its inputs, the result is a stable assignment: slices are disjoint, none exceeds the cap, and a target is kept off a collector only because it sits on one it prefers or because smaller ids filled that collector to the cap; every collector with a higher weight for a target than its own, or the same weight and a smaller id, holds exactly cap targets, all with smaller ids; each slice is ascending |
| ShardAlloc.HeavierIsFull | collector/src/shard_alloc.py:76-84 | the weights decide: a collector of higher weight for the target than its own, or of the same weight and a smaller id, is full of targets with smaller ids |
| ShardAlloc.LeastOnHeaviest | collector/src/shard_alloc.py:76-84 | with a positive cap the target with the least id sits on a collector of greatest weight |
| ShardAlloc.IdBeforeIsLexicographic | collector/src/shard_alloc.py:80 | ids are compared at the first place where they differ, and a proper prefix comes first |
| ShardAlloc.StableIsUnique | collector/src/shard_alloc.py:60-85 | there is only one stable assignment for given targets, collectors and cap, so every collector that sees the same sets computes the same slices |
| ShardAlloc.UnassignedMeansFull | collector/src/shard_alloc.py:73-85 | a target is unassigned only when every live collector holds exactly cap targets, all with smaller ids |
| ShardAlloc.AssignedCount | collector/src/shard_alloc.py:60-85 | exactly min(N, cap * K) targets are assigned |
| ShardAlloc.EffectiveCoverage | collector/src/shard_alloc.py:47-85 | with the effective cap everything is assigned iff the fair share fits under the maximum; otherwise exactly N - K * max targets are left out |
| ShardAlloc.CeilDivIsLeast | collector/src/shard_alloc.py:47-57 | the fair share is the least cap whose total capacity holds all targets |
| ShardAlloc.JoinMonotone | collector/src/shard_alloc.py:60-85 | at a fixed cap a new collector never raises another's load, never unassigns a target, and moves a target only to a collector it prefers |
| ShardAlloc.JoinMovesOnlyOntoNewcomer | collector/src/shard_alloc.py:60-85 | when the cap turned nobody away, although collectors may be at it, the old slices minus the newcomer's slice are the new slices: joining moves targets only onto the newcomer, leaving moves only the leaver's |
| ShardAlloc.CapUnusedIff | collector/src/shard_alloc.py:73-85 | the cap turns nobody away if and only if no collector is the first choice of more targets than the cap |
| ShardLeases.LeaseStore.ClaimShardTargets | collector/src/database/repository.py:985-1054 | the statements of the static pass, upsert by upsert, amount to StaticPass on the table; returns the number of rows owned |
| ShardLeases.LeaseStore.ReconcileShardLeases | collector/src/database/repository.py:1056-1163 | the statements of the dynamic pass, with the slice filtered in chunks of 500, amount to DynamicPass; returns the fresh rows owned |
| ShardLeases.LeaseStore.ReleaseShardLeases | collector/src/database/repository.py:1260-1281 | the caller owns nothing, what any other collector owns is unchanged, and the caller's membership row is gone |
| ShardLeases.PolledOnce | collector/src/database/repository.py:1243-1258 | at any instant no two collectors poll the same target, and all enabled targets are polled exactly when each has a fresh lease |
| ShardLeases.PolledIff | collector/src/database/repository.py:1243-1258 | a collector polls a target exactly when it is enabled and its own lease on it was renewed at most a TTL ago |
| ShardLeases.LeaseStore.ClaimEach | collector/src/database/repository.py:1036-1045 | running the guarded upsert once per id, in any order and with repetitions, is one simultaneous claim of the set |
| ShardLeases.FirstIdsCount | collector/src/database/repository.py:1136-1150 | the id-ordered, limited selection has min(limit, available) ids |
| ShardLeases.StaticRowEffect | collector/src/database/repository.py:985-1054 | a static pass removes rows of disabled targets, leaves the owner of every fresh row alone, and gives stale or missing rows to nobody but the caller |
| ShardLeases.DynamicRowEffect | collector/src/database/repository.py:1056-1163 | the same of a dynamic pass, for any slice: the steal guard |
| ShardLeases.DynamicPassCovers | collector/src/database/repository.py:1126-1163 | after a pass every enabled target has a fresh lease or the caller holds at least its cap, and the sweep takes the caller above the cap only by what it already held |
| ShardLeases.StaticPassCovers | collector/src/database/repository.py:1012-1054 | the same of the static pass and its maximum |
| ShardLeases.SliceCovered | collector/src/database/repository.py:1096-1125 | after its pass, every enabled target of the caller's slice has a fresh lease, whoever holds it |
| ShardLeases.SliceRow | collector/src/database/repository.py:1094-1125 | a row of the slice becomes the caller's, as of now, unless a peer renewed it at most a TTL ago, and then it stays as it is |
| ShardLeases.StaticRow | collector/src/database/repository.py:996-1011 | a static pass renews every row the caller has and leaves a peer's row renewed at most a TTL ago alone |
| ShardLeases.DynamicAdopts | collector/src/database/repository.py:1126-1154 | an enabled target that nobody has, or whose owner has been silent for more than a TTL, is taken by a dynamic pass whose cap leaves room for all of them |
| ShardLeases.StaticAdopts | collector/src/database/repository.py:1012-1045 | the same of a static pass |
| ShardLeases.FirstIdsLowest | collector/src/database/repository.py:1140-1145 | of the targets a bounded sweep finds it takes those with the smallest ids |
| ShardFleet.StepSafety | collector/src/database/repository.py:985-1163 | one step of any collector takes a target from its owner only if the last renewal is more than a TTL old, the owner released it, or the target is disabled |
| ShardFleet.ReleaseFrees | collector/src/database/repository.py:1260-1281 | a release frees everything the collector had for any peer's next pass, and nothing else |
| ShardFleet.LeaseSafety | collector/src/database/repository.py:985-1281 | over any interleaving, an owner that no longer owns a target lost it in one of those three ways, at a step the lemma names |
| ShardFleet.NeverLost | collector/src/database/repository.py:985-1163 | a collector that keeps renewing an enabled target within the TTL owns it at the end of every run |
| ShardFleet.CoveragePersists | collector/src/database/repository.py:985-1163 | while no lease lapses, a covered target stays covered by the same owner |
| ShardFleet.HoldsAtEnd | collector/src/database/repository.py:1126-1163 | once a collector has passed and nothing lapsed since, everything is covered or it still holds its limit |
| ShardFleet.FleetCoverage | collector/src/database/repository.py:1126-1163 | for arbitrary, even disagreeing slices: if the limits of collectors that have each passed add up to the enabled targets and no lease lapsed in between, every enabled target is covered |
| ShardFleet.FleetPolls | collector/src/database/repository.py:1243-1258 | then every enabled target is polled by exactly one collector |
| ShardSteady.SteadyState | collector/src/shard_manager.py:101-117 | once the fresh leases equal the allocation, every run in which each collector passes within the TTL keeps them equal, also when the fleet is under-provisioned |
| ShardSteady.SteadyPolling | collector/src/database/repository.py:1243-1258 | in such a run each collector goes on polling exactly its slice |
| ShardSteady.SteadyPass | collector/src/database/repository.py:1083-1163 | in that state a pass renews the caller's slice and changes no other row of an enabled target |
| ShardSteady.UncoveredOnlyBetweenPasses | collector/src/database/repository.py:1096-1125 | before convergence, a target allocated to c is covered right after every pass of c |
| ShardSteady.BareStretchBounded | collector/src/config.py:381-392 | a stretch of time in which a target has no fresh lease at any instant is never longer than the gap between two passes of its allocated collector, whatever the others do |
| ShardSteady.NoPassWhileBare | collector/src/database/repository.py:1096-1125 | its allocated collector makes no pass during such a stretch |
| ShardSteady.ColdStartConverges | collector/src/shard_manager.py:101-117 | from an empty table, every order of one pass per collector ends in the allocation if and only if no collector below the cap has a peer with a nonempty slice |
| ShardSteady.SpareRoomDiverges | collector/src/database/repository.py:1126-1163 | otherwise a concrete order of passes that does not |
| ShardSteady.NoSpareRoomIff | collector/src/shard_alloc.py:60-85 | for a cap up to the number of targets that condition is that the caps add up to no more than the targets |
| ShardSteady.ColdStartAtEffectiveCap | collector/src/shard_manager.py:106-117 | at the cap the manager computes, every order of first passes reaches the allocation if and only if the collectors divide the targets evenly or the fair share exceeds the maximum |
| CollectorSlots.SlotTable.ClaimCollectorSlot | collector/src/database/repository.py:1165-1192 | the token keeps the ordinal it still has, else takes the least ordinal free after stale rows are reaped; tokens stay unique |
| CollectorSlots.LowestFree | collector/src/database/repository.py:1186-1192 | the scan finds the least ordinal not taken |
| CollectorSlots.ClaimTakesOne | collector/src/database/repository.py:1175-1192 | a claim leaves exactly the caller's row for its token, keeps a row of the token renewed within the TTL, and otherwise settles below no ordinal that is free |
| CollectorSlots.ClaimKeepsFresh | collector/src/database/repository.py:1175-1192 | a claim keeps every peer row renewed within the TTL and removes every older one, unless the caller settles there |
| CollectorSlots.SlotTable.RenewCollectorSlot | collector/src/database/repository.py:1194-1222 | held, lost, or refused by the unique token column, with the resulting table in each case |
| CollectorSlots.RenewOutcomeIs | collector/src/database/repository.py:1208-1222 | lost exactly when a peer renewed its row on the ordinal within the TTL, refused exactly when the token has another such row, else held as of now |
| CollectorSlots.RenewKeepsFresh | collector/src/database/repository.py:1208-1222 | a renewal that is not refused keeps every peer row renewed within the TTL and removes every older one, unless the caller takes that ordinal |
| CollectorSlots.SlotTable.ReleaseCollectorSlot | collector/src/database/repository.py:1224-1229 | the token holds nothing, other rows are unchanged |
| CollectorSlots.ReleaseFrees | collector/src/database/repository.py:1224-1229 | a release frees the process's ordinal and touches no other row |
| CollectorSlots.InvStep | collector/src/database/repository.py:1165-1229 | every claim, renewal, release or crash keeps each recent claim backed by its row |
| CollectorSlots.MutualExclusion | collector/src/database/repository.py:1165-1229 | in every run from an empty table, no two processes whose last claim or renewal is at most a TTL ago share an ordinal |
| CollectorSlots.TimelyRenewalHolds | collector/src/shard_manager.py:82-100 | a process that renews within the TTL is never told that it lost its ordinal |
| CollectorSlots.LostIffPeerFresh | collector/src/database/repository.py:1211-1222 | a renewal returns False exactly when a peer holds the ordinal with a fresh row |
| ShardManager.Manager.ReconcileDynamic | collector/src/shard_manager.py:74-117 | the slot is renewed; then either the identity is lost and the pass ends the process without touching a lease, or it is one step of the fleet with this collector's slice of the one stable allocation of what it saw, and the provisioning notice is truthful about that allocation |
| ShardManager.Manager.SliceWithinShare | collector/src/shard_manager.py:106-112 | the slice is at most the maximum and at most the fair share: one target fewer on every live collector would not hold all targets |
| ShardManager.Manager.ClaimOnce | collector/src/shard_manager.py:58-72 | a dynamic or static step of the fleet, as configured, with the owned count it leaves |
| ShardManager.Manager.RenewSlot | collector/src/shard_manager.py:82-100 | a database error is not identity loss and leaves the slots alone; else the slot table is the renewed one, and the ordinal is held unless a fresh peer has it |
| ShardManager.Manager.WarnIfUnderProvisioned | collector/src/shard_manager.py:119-145 | the flag says whether the targets exceed live collectors times the maximum, a warning comes exactly when it becomes true and a recovery exactly when it becomes false, and the warning names the shortfall |
| ShardManager.Manager.Release | collector/src/shard_manager.py:174-184 | leases with the membership row, and the slot, are released independently of each other's errors |
| ShardManager.ShortIffLeftOut | collector/src/shard_manager.py:106-136 | the shortage test holds exactly when the allocation leaves a target out, and the printed figure is how many |
| ShardManager.NoticesAre | collector/src/shard_manager.py:126-145 | in any run a warning comes exactly when the shortage begins and a recovery exactly when it ends |
| ShardManager.SameViewSameAllocation | collector/src/shard_manager.py:101-112 | collectors that list the same targets in any order and see the same live set compute the same cap and the same slices, each on its own |
| ShardManager.WarnedOncePerShortage | collector/src/shard_manager.py:119-145 | in any run, between two warnings there is a recovery notice |
| InfluxBisect.NothingLost | collector/src/exporters/influxdb.py:492-588 | for any server, retried, written and rejected points partition the batch and each keeps its order |
| InfluxBisect.ReplyDecides | collector/src/exporters/influxdb.py:525-588 | a batch that is accepted is written, one that fails transiently is to be sent again, and a single rejected point is dropped |
| InfluxBisect.CallsAtMost | collector/src/exporters/influxdb.py:492-588 | whatever the server answers, n points take between one and 2n - 1 calls, and none take none |
| InfluxBisect.BisectionIsExactAndCheap | collector/src/exporters/influxdb.py:492-588 | if the server rejects exactly the batches holding a bad point, the good points are written once each in order, only the bad ones are dropped, within 1 + 2 b ceil(log2 n) calls |
| InfluxBisect.IsolateExact | collector/src/exporters/influxdb.py:559-588 | the same of the two halves after a rejection, the rejected call included in the bound |
| InfluxBisect.CeilLog2IsLeast | collector/src/exporters/influxdb.py:559-588 | the logarithm in the bound is the least k with n <= 2^k |
| InfluxExporter.ExporterInvariant | collector/src/exporters/influxdb.py:356-389 | in every interleaving of producers and flushes each accepted point is in exactly one of buffered, in flight, written, rejected and dropped; the buffer keeps its maximum; points still to be sent are in arrival order; fewer than three failed flushes are pending |
| InfluxExporter.InvStep | collector/src/exporters/influxdb.py:590-751 | each write, flush start, offline flush, flush end and reconnect keeps that invariant |
| InfluxExporter.FlushAccounts | collector/src/exporters/influxdb.py:616-714 | over all batches of a flush, raised ones included, the three fates partition the points and the retried ones keep their order |
| InfluxExporter.SettleIs | collector/src/exporters/influxdb.py:632-714 | after a flush a point is where its batch's outcome says: written, rejected, or back in the buffer or dropped; a batch that raised is sent again whole |
| InfluxExporter.TakeIs | collector/src/exporters/influxdb.py:596-602 | a flush takes everything buffered, and nothing happens if there is nothing |
| InfluxExporter.ProduceIs | collector/src/exporters/influxdb.py:371-387 | a producer's lines are accepted in order as the newest points |
| InfluxExporter.OfflineIs | collector/src/exporters/influxdb.py:604-614 | a flush without a connection puts its points back before those that came meanwhile and keeps the newest |
| InfluxExporter.FlushAndConnection | collector/src/exporters/influxdb.py:675-731 | a third failed flush in a row forces a reset and takes the count to zero, an earlier one adds one, one that wrote a point takes the count to zero; otherwise the count and the connection stay |
| InfluxExporter.FailuresCountFlushes | collector/src/exporters/influxdb.py:675-731 | over every run the count is the number of failed flushes since the last that wrote a point or forced a reset, and until a reconnect the exporter is connected exactly as long as none forced one |
| InfluxExporter.ResultsAnswer | collector/src/exporters/influxdb.py:616-664 | whatever the servers answer, what the batch writes of a flush report accounts for every point, so a flush that ends is a legal step |
| InfluxExporter.TrimKeepsNewest | collector/src/exporters/influxdb.py:739-750 | overflow drops only points older than all those kept, and nothing when there is room |
| InfluxExporter.EachPointOnce | collector/src/exporters/influxdb.py:371-387 | in every run from the empty exporter no point is written twice, and the written, the rejected and the dropped points have none in common |
| InfluxExporter.InfluxDBExporter.WriteLines | collector/src/exporters/influxdb.py:356-389 | the object's fields follow the write step; the flush is signalled iff a batch is full |
| InfluxExporter.InfluxDBExporter.TakeBuffer | collector/src/exporters/influxdb.py:596-602 | the object's fields follow the flush start |
| InfluxExporter.InfluxDBExporter.WriteOrBisect | collector/src/exporters/influxdb.py:492-557 | the recursive calls return the retry list, written count and call count of the specification and count its rejected points |
| InfluxExporter.InfluxDBExporter.SettleFlush | collector/src/exporters/influxdb.py:616-731 | buffer, counters, failure count and connection after a flush, batches that raise included, are those of the settle step |
| RateLimiter.WindowIsRecentHistory | collector/src/alert_manager.py:103-124 | with a clock that does not go back, each deque is the history of the rule "fewer than the maximum in the last minute", filtered to the minute before the target's last call |
| RateLimiter.AllowedIsHistory | collector/src/alert_manager.py:103-124 | with such a clock the alerts the limiter's decisions let through are that history |
| RateLimiter.RefusedIffMinuteFull | collector/src/alert_manager.py:103-124 | an alert is refused iff the maximum was allowed in the closed minute before it |
| RateLimiter.RefusedIffSixtySecondsFull | collector/src/alert_manager.py:108-122 | the minute is sixty seconds |
| RateClock.BoundIffClockNeverReturns | collector/src/alert_manager.py:86-124 | given the readings of a clock, every run of calls that read it keeps every closed minute of every target within every maximum, if and only if the clock never returns to within a minute of a reading that it had left more than a minute behind |
| RateClock.NoMinuteExceedsMax | collector/src/alert_manager.py:103-124 | in a run whose clock does not come back in this way for a target, no closed minute holds more than the maximum of its alerts that the limiter let through |
| RateClock.OrderedNeverComesBack | collector/src/alert_manager.py:103-124 | a clock that does not go back does not come back |
| RateClock.WindowIsSuffix | collector/src/alert_manager.py:103-124 | whatever the clock does, the deque is the end of what was allowed, and what it dropped was left more than a minute behind |
| RateClock.ReturnRunExceedsMax | collector/src/alert_manager.py:103-124 | for any three readings that come back, four calls let three alerts through in a minute where two may |
| RateLimiter.Limiter.Allow | collector/src/alert_manager.py:103-124 | the pop loop and the append carry out one step and its decision |
| AlertPipeline.PipelineInvariant | collector/src/alert_manager.py:844-1062 | over every interleaving and pattern of store failures each offered alert is in exactly one place, the dropped counter is the sum of the three drop kinds, the queue keeps its bound, and the batch is at most 5 * batch_size at each loop head |
| AlertPipeline.LostIffStopFails | collector/src/alert_manager.py:1026-1062 | alerts are lost beyond the counted drops in exactly those runs in which a shutdown write fails that had something to write |
| AlertPipeline.LostUncounted | collector/src/alert_manager.py:1052-1062 | an alert accepted and then lost in this way: received is one, stored and dropped are none |
| AlertPipeline.TrimIsOldest | collector/src/alert_manager.py:999-1013 | a failed write trims a prefix of the batch |
| AlertPipeline.OfferIs | collector/src/alert_manager.py:844-898 | where an alert goes: refused by the limiter, refused by a full queue, or queued; one from a log pull is not limited |
| AlertPipeline.TakeIs | collector/src/alert_manager.py:976-987 | a turn of the writer takes the oldest queued alert to the end of its batch |
| AlertPipeline.RoundIs | collector/src/alert_manager.py:989-1018 | a batch is handed to the store exactly when it is full, or not empty and its time has come; a failure keeps it, but for the oldest beyond five times the batch size |
| AlertPipeline.StopIs | collector/src/alert_manager.py:1026-1062 | a shutdown hands over the batch and the queue and loses what is not taken |
| AlertPipeline.AlertManager.HandleAlert | collector/src/alert_manager.py:844-855 | limiter, queue and counters after a live alert |
| AlertPipeline.EnqueueConserves | collector/src/alert_manager.py:884-898 | an offered alert ends in exactly one of the queue and the queue-full drops, and every other alert stays where it is |
| AlertPipeline.AlertManager.HandleBaselineAlert | collector/src/alert_manager.py:875-882 | queue and counters after an alert from a log pull, which bypasses the limiter |
| AlertPipeline.AlertManager.FinishRound | collector/src/alert_manager.py:989-1018 | batch, store and counters after one round of the batch loop |
| AlertStore.KeyIdentifies | collector/src/database/repository.py:119-152 | two alerts have the same key iff they have the same target and the same content and instant, or the same source id when there is no event time |
| AlertStore.JoinInjective | collector/src/database/repository.py:145-152 | fields joined by the separator can be told apart, also across different numbers of fields |
| AlertStore.LiveAndBaselineConverge | collector/src/util/timeutil.py:14-24 | a live and a logged view of one event get the same key in any UTC offset |
| AlertStore.SameInstant | collector/src/util/timeutil.py:20-24 | a reading larger by d at an offset larger by d is the same instant, and no offset is UTC |
| AlertStore.IngestKeys | collector/src/database/repository.py:1541-1626 | a batch makes the key set the union and replaces no stored row |
| AlertStore.IngestTwice | collector/src/database/repository.py:1541-1626 | writing a batch again inserts nothing |
| AlertStore.IngestConcat | collector/src/database/repository.py:1541-1626 | how a stream of alerts is cut into batches does not matter |
| AlertStore.OneRowPerEvent | collector/src/database/repository.py:119-152 | no two stored rows have the same identity |
| AlertStore.IngestWellKeyed | collector/src/database/repository.py:1541-1626 | every row is stored under its own key |
| AlertStore.AlertRepository.CreateAlertsBatch | collector/src/database/repository.py:1541-1626 | with other writers committing between the lookup and the insert and between the rows of the fallback, every alert of the batch ends up stored, no row is replaced or doubled, and the return value is the number of rows this call added; without writers in the fallback the result is that of inserting alert by alert |
| AlertStore.AlertRepository.InsertRowByRow | collector/src/database/repository.py:1613-1626 | after the rollback, row-by-row insertion among other writers stores every row and counts those it added |
| AlertStore.AlertRepository.ExistingKeys | collector/src/database/repository.py:1594-1603 | the chunked lookup finds exactly the batch keys already stored |
| AlertStore.AlertRepository.AlertSourceSeen | collector/src/database/repository.py:1628-1638 | true iff an alert identified only by this source id is stored |
| LogIngest.NewestFirstDescends | collector/src/redfish/log_baseline.py:134-157 | the ordering is descending by (rank, value), keeps the length and the number of entries at or after any cursor |
| LogIngest.NewestFirstIs | collector/src/redfish/log_baseline.py:144-154 | rows with a time come first, later before earlier, then rows with a numeric id, larger before smaller, then the others |
| LogIngest.NewestFirstStable | collector/src/redfish/log_baseline.py:154 | rows that compare equal keep their order |
| LogIngest.CapKeepsRecent | collector/src/redfish/log_baseline.py:134-157 | if at most max_entries members are at or after the cursor, the cap drops none of them |
| LogIngest.PullCollection | collector/src/redfish/log_baseline.py:241-320 | the loop with its skips emits exactly the entries passing every test, in order, and returns the newest time it looked at |
| LogIngest.EmittedOnly | collector/src/redfish/log_baseline.py:247-320 | every emitted key comes from a member that passes every test |
| LogIngest.EmittedHas | collector/src/redfish/log_baseline.py:247-320 | every member that passes every test is emitted |
| LogIngest.NewestSeenIsNewest | collector/src/redfish/log_baseline.py:289-290 | the newest time returned is no earlier than that of any entry looked at |
| LogPages.CollectMembers | collector/src/redfish/log_baseline.py:165-206 | the walk follows distinct answered pages from the start; every row it returns is from one of them, every row of them is represented, no id is kept twice; truncated is set exactly when the budget is reached with a next link left, and the budget is exceeded by at most one page |
| LogPages.TruncatedIff | collector/src/redfish/log_baseline.py:199-205 | truncated is set exactly when three times the cap was collected or twenty pages were read and a next link is left |
| LogPages.IncompleteIffRequestFailed | collector/src/redfish/log_baseline.py:180-206 | for every server, a walk not reported as truncated misses a page that the links lead to if and only if it stopped at a request that failed |
| LogPages.FailedPageNotReported | collector/src/redfish/log_baseline.py:185-206 | two pages, the second not answering: the walk is not truncated and misses the second |
| LogPages.WalkListsLog | collector/src/redfish/log_baseline.py:165-206 | if every request answers and rows with one id are one row, an untruncated walk lists exactly the rows of the log |
| LogIngest.CursorTable.SetLogCursor | collector/src/database/repository.py:2102-2151 | the mark becomes the later of old and new, also when another worker inserts the row first; other marks are unchanged |
| LogFeed.ExactlyOnce | collector/src/redfish/log_baseline.py:241-379 | for an append-only log of identified entries whose times, where they have one, do not decrease, pulls that fit and rows taken as known by what the lookup answers, after a pull and a drained queue the store holds, beside its initial rows, one row for each distinct key of a wanted entry and no other, entries without a time included |
| LogFeed.AnsweredRunIsLegal | collector/src/redfish/log_baseline.py:256-265 | in such a run the lookup never makes a pull skip a row that is not stored, if the store starts without source keys |
| LogFeed.ExactlyOnceSkipping | collector/src/redfish/log_baseline.py:241-379 | the same for a store that starts with any rows, if a pull skips as known only rows that are stored |
| LogFeed.PullSavesAllIff | collector/src/redfish/log_baseline.py:249-294 | whatever the source lookup answers, a complete pull that fits saves all if and only if each wanted row taken as known is saved under its own key or sent by another row |
| LogFeed.LateTimedSkipped | collector/src/redfish/log_baseline.py:256-276 | a row whose time only the entry shows is not saved while an alert is stored under its id alone |
| LogFeed.AnswersSkipOnlyStored | collector/src/redfish/log_baseline.py:256-265 | the answers of the source lookup only skip entries without a time that are stored |
| LogFeed.OneRowPerEntry | collector/src/database/repository.py:119-152 | a stored event, timed or known only by its source id, has exactly one row |
| LogFeed.TidyRun | collector/src/database/repository.py:1541-1626 | in every run rows are stored under the key of their own content |
| LogFeed.PullSavesAll | collector/src/redfish/log_baseline.py:249-294 | a complete pull that fits saves every wanted entry: late arrivals of the cursor's instant, entries whose time only the entry itself shows, and entries without a time |
| LogFeed.InvRun | collector/src/redfish/log_baseline.py:361-379 | in every such run everything wanted before the cursor is saved and nothing unwanted is |
| LogFeed.CursorMonotone | collector/src/database/repository.py:2102-2151 | in any run at all the cursor never moves back |
| LogBurst.PullCompleteIffKept | collector/src/redfish/log_baseline.py:134-157 | when what is wanted after the cursor is new and what is at the cursor is saved, and whatever unwanted entries came too, a pull saves all if and only if each new wanted entry is among the first max_entries, newest first |
| LogBurst.PullCompleteIffFewNewer | collector/src/redfish/log_baseline.py:134-157 | if no two rows after the cursor show the same time, that is if and only if each new wanted entry has fewer than max_entries rows after it |
| LogBurst.KeptIffFewNewer | collector/src/redfish/log_baseline.py:144-157 | a row that shares its time with no other is kept exactly when fewer than max_entries rows are listed after it |
| LogBurst.PullCompleteIffWithinCap | collector/src/redfish/log_baseline.py:134-157 | if all that came after the cursor is wanted, a pull saves all if and only if at most max_entries entries came |
| LogBurst.LeftBehindIsMissed | collector/src/redfish/log_baseline.py:283-290 | what such a pull leaves unsaved, and older than the newest it saw, is missed |
| LogBurst.BurstLosesAnEntry | collector/src/redfish/log_baseline.py:134-157 | a concrete run: one entry pulled, two arrive, the next pull may keep one, and the middle entry is missed |
| LogBurst.MissedForever | collector/src/redfish/log_baseline.py:247-290 | an entry the cursor has passed unsaved is never stored by any later run |
| Subscriptions.RefreshOk | collector/src/alert_manager.py:410-602 | for any outcome of each start and verification, one refresh keeps SSE, webhook and failed ids disjoint and the type map exact, and leaves only subscriptions of wanted targets under their current configuration |
| Subscriptions.ConsistentForever | collector/src/alert_manager.py:410-602 | the same after any number of refreshes |
| Subscriptions.AttemptedIff | collector/src/alert_manager.py:446-524 | the ids attempted are exactly the wanted ones that are new, lost or changed and are not still marked as failed |
| Subscriptions.AttemptedEndsAs | collector/src/alert_manager.py:543-602 | an attempted target ends as its start says: an SSE stream, a webhook, failed until its retry time, or nowhere, each tagged and with the wanted fingerprint; a webhook may at once be found gone |
| Subscriptions.OthersEndAs | collector/src/alert_manager.py:446-521 | a target that is not attempted keeps a subscription that is alive, wanted and unchanged, loses any other, and ends as failed exactly when its mark stands |
| Subscriptions.StampsAre | collector/src/alert_manager.py:568-600 | a webhook is stamped when first seen and when it answers a check that is due; one found gone loses its stamp |
| Subscriptions.RetriedIff | collector/src/alert_manager.py:461-525 | a failed target is attempted again iff it is wanted and its configuration differs from the one it last subscribed with, or retries are enabled and its cooldown has passed |
| Subscriptions.NeverRetried | collector/src/alert_manager.py:483-538 | with retries disabled, a target that failed before it ever subscribed is attempted in no refresh of any later run |
| Subscriptions.FirstFailureSticks | collector/src/alert_manager.py:763-787 | a fresh manager whose first attempt fails permanently is in that state |
| Subscriptions.ReAddedNotAttempted | collector/src/alert_manager.py:506-545 | then a refresh without the target and one that wants it again, with another configuration, do not attempt it |
| Subscriptions.SubscriptionManager.RefreshSubscriptions | collector/src/alert_manager.py:410-554 | the loops over the manager's fields carry out one refresh and so keep the invariant |
| Subscriptions.SubscriptionManager.StartSubscriptions | collector/src/alert_manager.py:543-550 | the start loop, with its outcomes and recorded fingerprints, is the start phase of the specification |
| Subscriptions.SubscriptionManager.VerifyWebhooks | collector/src/alert_manager.py:556-602 | checking the due webhooks in any order is the verification phase |
| CperRetry.RetryInvariant | collector/src/cper_worker.py:178-212 | over every run with restarts, refused writes and requeues, attempts never exceed the maximum, a pending row has an attempt left, and at most the maximum number of failures of a row is stored between requeues |
| CperRetry.SaveCountsFailures | collector/src/database/repository.py:1697-1721 | the attempt counter rises by exactly the failures among the stored results |
| CperRetry.FinalForever | collector/src/cper_worker.py:225-314 | decoded, no_data, unavailable and decode_failed are never left |
| CperRetry.EnrichBounded | collector/src/cper_worker.py:134-169 | an outcome that counts an attempt stays pending iff an attempt is left, and one that does not is final |
| CperRetry.EnrichIs | collector/src/cper_worker.py:225-314 | which outcome an enrichment has, outcome by outcome, and that exactly the retryable ones use up an attempt |
| CperRetry.SelectionIs | collector/src/database/repository.py:1655-1658 | a row is selected exactly when it is pending, has an attempt left and was not attempted since the cutoff; one is requeued only if fetching failed before the cutoff |
| CperRetry.RequeueIs | collector/src/database/repository.py:1784-1786 | a requeued row is pending with all its attempts, and no other row changes |
| CperRetry.CountsAre | collector/src/cper_worker.py:239-307 | the counters count the decoded results, the results that use up an attempt, and the writes that were not refused |
| CperRetry.FinalizeClearsLimbo | collector/src/database/repository.py:1733-1747 | from any table, one finalize leaves no pending row unselectable and touches nothing else |
| CperRetry.StepFinalizes | collector/src/database/repository.py:1740-1745 | in any state the finalize step leaves no pending row without an attempt and gives the exhausted ones up as failed to fetch |
| CperRetry.BatchFromSnapshot | collector/src/cper_worker.py:199-206 | the outcomes of a batch are explained by the selected rows, at most one each |
| CperRetry.CperWorker.EnrichBatch | collector/src/cper_worker.py:199-206 | a batch returns those outcomes and raises the decoded and failed counters by what they hold |
| CperRetry.CperStore.SetCperResultsBatch | collector/src/database/repository.py:1683-1721 | savepoint by savepoint, refused rows change nothing, the others are saved and counted |
| CperRetry.CperStore.FinalizeExhaustedCper | collector/src/database/repository.py:1733-1747 | afterwards no pending row is unselectable, and the return value is the number of rows that changed |
| RackPlacement.RunsPartitionOccupied | collector/src/location/placement.py:57-92 | placed systems have pairwise disjoint runs inside the rack whose union is exactly the occupied units |
| RackPlacement.EachLowest | collector/src/location/placement.py:70-84 | in the final layout each system sits at the lowest free run at or above its clamped request, given the systems placed before it |
| RackPlacement.RequestHonoured | collector/src/location/placement.py:70-83 | a system gets the unit it asks for if that is free, the bottom for a request below the rack, and the highest fitting start for one above |
| RackPlacement.ItemIs | collector/src/location/placement.py:71-91 | a system asks for the unit it names, or the lowest if it names none or zero; its height is stated, or the default if none or zero is stated, and at least one |
| RackPlacement.FloatingLeftOutOnlyWhenFull | collector/src/location/placement.py:86-92 | a system without a unit gets none only if no free run of its height exists, which still holds in the final layout |
| RackPlacement.LeftOutIff | collector/src/location/placement.py:70-84 | a system is left out iff it is taller than the rack or nothing at or above its clamped request was free |
| RackPlacement.TopUnitTakenTwice | collector/src/location/placement.py:60-84 | the second of two systems asking for the top unit gets none although the rack is not full |
| RackPlacement.PlacementOrderOk | collector/src/location/placement.py:86-91 | every system is placed exactly once, those naming a unit first by ascending unit |
| RackPlacement.Rack.AssignSlots | collector/src/location/placement.py:57-92 | the loops over the occupied units and the start units carry out the placements in that order |

## Left out

- ShardLeases.LeaseStore.ReleaseShardLeases: the heatmap rows deleted with the leases are not modelled.
- ShardLeases.PolledOnce: the polled set is that of the default `enabled_only=True`; the other mode drops the enabled condition.
- ShardSteady.ColdStartConverges: rounds at one instant from an empty table; later re-adoption of expired leases is covered by the safety and coverage theorems only.
- InfluxExporter.ExporterInvariant: does not cover a flush cancelled by `close`, which loses its points in flight.
- InfluxExporter.InfluxDBExporter.SettleFlush: a batch that raises does so before it writes anything; the catch-all around a flush is not modelled, since the exceptions of single batches are collected before it.
- InfluxBisect.BisectionIsExactAndCheap: a server that stores part of a batch it rejects is not modelled.
- AlertStore.AlertRepository.CreateAlertsBatch: columns outside the key are not modelled.
- CperRetry.RetryInvariant: one worker; several workers would act on stale attempt counts.
- RackPlacement.Rack.AssignSlots: the layout as unit to index; the dictionaries' other entries are not modelled.
- Balance within one target per collector: the allocator does not promise it.
- Policy engine re-arming: its check and its collection are not one step.
- HTTP, SSE and SSH transport, timeouts, backoff and jitter: their results are parameters.
- Sessions, migrations, lock retries, encryption, API routes, templates and health endpoints.
- Row naming, natural sort of rack names, inventory and discovery parsing: easy or driven by regular expressions.
- Latency averages and other floating-point statistics.
