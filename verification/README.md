# A verified model of go-sync-kit

go-sync-kit synchronises event logs between nodes. This project models the parts of it whose
guarantees only show over whole runs, and proves those guarantees in Dafny 4.11. Code that
updates things in place is a class or a method with loops, proved against a function of the
old state; what the library promises is then proved about those functions, for every input,
every run and every failure. Concurrent parts are state machines over their atomic steps.

| file | what it models |
|---|---|
| `VectorClock.dfy`, `Causality.dfy` | vector clocks, and whole message-passing runs of nodes that use them |
| `VersionManager.dfy`, `Versions.dfy` | the vector clock manager, version comparison, `findLatestVersion` |
| `MemStore.dfy`, `MemChan.dfy` | the in-memory store with its stream index; the stored side of the in-memory transport |
| `SyncProtocol.dfy`, `PullConflicts.dfy` | push, pull and sync with failures everywhere; pulls during which another caller writes, and what they store |
| `Convergence.dfy`, `Divergence.dfy` | several clients and one remote: what every run keeps, and when the logs can still become equal |
| `FilteredSync.dfy` | syncs with a filter, against every remote log that filtered pushes can leave |
| `Projection.dfy` | the projection runner: batches, persistent offsets, at-least-once delivery |
| `MemChanProtocol.dfy` | publishers and subscribers of the in-memory transport, step by step |
| `ProjectionPool.dfy` | the worker pool that runs projections after a sync, step by step |
| `ConflictDetection.dfy`, `Resolver.dfy`, `StatefulResolver.dfy` | the conflict detector, rule trees and their flattening, the stateful resolver |
| `StateMachine.dfy`, `SyncLifecycle.dfy`, `SyncSession.dfy` | the generic state machine with snapshots; the states of a sync manager; logs and states together |
| `CursorPaging.dfy` | paging with a vector cursor |
| `Idempotency.dfy` | the idempotency tracker and the push handler |
| `TimeoutMetrics.dfy` | the truncated running average of timeouts |

`dafny verify dfyconfig.toml` checks all of it.

## Main results

- Clocks are causality. In every run of increments, clones and merges (each of which may fail
  with the errors of the source), one event happened before another exactly when `Compare` of
  their clocks is -1, and `IsConcurrentWith` holds exactly for different, unrelated events. The
  only assumption is that the run is shorter than 2^64 actions, so that no counter wraps. With at
  most 1000 nodes and IDs of 1 to 255 bytes nothing fails, and every message counts.
- Without a filter, sync never loses, alters, duplicates or reorders events, whatever fails: every
  log stays a prefix of the events written so far, in the order of writing, with their content. When the longest client
  and then all clients sync successfully, all logs are equal. This needs the guard that a client
  writes only while its log is the longest; writes that land in the middle of a sync are covered.
- Comparability is exact. Every call only appends, so two logs that are not prefixes of one
  another stay so in every later run. Hence, after any run, guarded or not, with any filters, some
  continuation makes all logs equal, versions included, if and only if any two logs are comparable
  and the remote versions have no gaps, and then syncing alone does it. Runs without filters leave no gaps. A
  write keeps this possible if and only if every other log is behind the writer's or already has
  the written event next.
- With a filter, every run leaves a remote log whose versions rise, possibly with gaps. For every
  such log the exact condition under which a successful pull, push or two-way sync makes the logs
  equal is proved, and what a repeated pull stores again.
- A pull during which another caller stores an event that clashes with a pulled one stores exactly
  what the resolver returns for the clashing pairs, and every other pulled event is lost.
- The sync of a manager with state tracking leaves exactly the logs, states and errors that follow
  from the two logs, the failures and the other writer.
- A projection, idempotent or not, delivers in order and without gaps, also while the log grows,
  and a successful call reaches the end of the log. Its read model is that of the whole log applied once after every
  successful call of every run if and only if the projector is idempotent.
- The in-memory transport never sends on a closed channel and never closes one twice, and each
  subscriber's accepted events are its handled batches, its pending batch and its buffer. An open
  subscriber has been sent everything since it subscribed if and only if nothing was dropped for
  it or withheld from it, and one that left without being cancelled has handled all it was sent.
- The worker pool never exceeds its limit, no worker blocks on reporting, and the pool always
  comes to rest with all slots given back.
- A rule tree answers with its first entry in depth-first order, which is also what its flattened
  list does, and the stateful resolver returns what the plain resolver returns.
- Vector-cursor paging, with a new connection for every page, is exact for every limit if and only
  if every row has an origin and counters increase per origin.

## Where the code and its promises part

In each case the model follows the code.

- `IsEqual` (version/vector_clock.go:300-316) takes a zero entry for a missing one. It decides
  equality of the stored maps against every clock exactly when the receiver has no zero entry
  (`EqualityTestIsExact`, `ZeroEntryFoolsEqualityTest`). It agrees with `Compare` against all
  clocks without zero entries under the same condition (`EqualityAgreesWithCompare`); an argument
  with a zero entry can still be reported as different, and so as concurrent
  (`ZeroArgumentLooksDifferent`).
- Two clients that both write before they sync end with different logs although both syncs
  succeed (`UnguardedWritesDiverge`), and logs that have parted stay apart in every run
  (`DivergenceIsForever`, `ConvergenceIsPossibleExactly`, `ReachableConvergesExactly`,
  `WriteIsSafeExactly`).
- A filter makes syncs duplicate events. A pull that drops an event leaves the local version
  behind, so the next pull stores the events after it again (`FilteredPullsDuplicate`); a second
  pull changes nothing exactly when the filter drops all that the local version has not passed
  (`SecondPullIsExact`), and for all logs exactly when the filter keeps everything or nothing
  (`FilterIsSafeExactly`). A push that drops an event leaves a gap in the remote versions, after
  which even an unfiltered sync of equal logs stores events again (`GapDuplicates`), exactly
  because of the gap (`EqualLogsStayEqualExactly`). When a successful sync makes the logs equal is
  the subject of `FilteredSyncIsExact`.
- A pull reads the local version and later loads the local events above it
  (synckit/manager.go:477 and :532). If another caller stores an event in between that clashes
  with a pulled one, synckit/manager.go:602 replaces all pulled events by the resolved ones.
  Pulled events that clash with nothing are lost (`PullStoresExactly`, `UnrelatedEventsAreLost`),
  with the default resolver always including the first one (`DefaultKeepsExactly`,
  `FirstReceivedIsLost`).
- The transition table has no step from resolving conflicts to pushing. A two-way sync whose reads
  succeed pushes exactly when nothing clashes, and otherwise fails (`PushesExactly`,
  `PushesUnlessClash`); `DisturbedSyncLosesEvents` gives the logs, the event and the outcome, after
  which the logs can never become equal.
- With both PushOnly and PullOnly set, a sync without errors stays in the initializing state,
  and every later sync is rejected (`EndsIdleExactly`, `CallsLeaveIdle`).
- `GetAllRules` is documented as the flattening for the dynamic resolver but drops group
  fallbacks (`GetAllRulesAgrees`, `FallbackMakesADifference`).
- fetchVector leaves its temporary table on the connection (storage/sqlite/pull.go:105), so a
  second page read over the same connection returns an error (`Connection.FetchVector`,
  `ReadPages`).
- A projection run whose runners all succeed can still return a timeout error
  (`TimeoutCanHideSuccess`). A call whose context never expires returns nil exactly when all
  succeed (`NilMeansSuccessUnlessExpired`), and in general exactly when all succeed and it did not
  return from its timeout branch (`ReturnMeansSuccess`).
- A subscriber that is cancelled can leave accepted events unhandled in its buffer
  (`CancelledCanLeaveEvents`); any other has handled all it was sent when it leaves
  (`LeaversHandledAll`).
- The conflict detector's key joins aggregate and type with a colon; an ID that contains one can
  make events of different aggregates share a key (`SameKeyExactly`, `StraddlingExample`).
- A machine restored from a snapshot keeps its own validator (`RestoreIsFaithful`).

## Model

| member | source | states |
|---|---|---|
| `VectorClocks.VectorClock.Increment` | version/vector_clock.go:111-127 | raises one counter by one modulo 2^64, or reports the exact error and changes nothing |
| `VectorClocks.CheckMerge` | version/vector_clock.go:150-164 | refused iff some ID of the other clock exceeds 255 bytes, else iff both clocks together have more than 1000 nodes |
| `VectorClocks.CountNewNodes` | version/vector_clock.go:150-158 | the loop finds an overlong ID, or counts exactly the new nodes |
| `VectorClocks.MergeErrorExactly` | version/vector_clock.go:140-164 | the limits of a merge in numbers |
| `VectorClocks.IncrementErrorExactly` | version/vector_clock.go:107-123 | the limits of an increment in numbers: empty ID, over 255 bytes, a new node beyond 1000 |
| `VectorClocks.VectorClock.MergeEntries` | version/vector_clock.go:166-171 | the loop yields the pointwise maximum, also when a clock is merged into itself |
| `VectorClocks.VectorClock.Merge` | version/vector_clock.go:145-174 | accepted iff within the limits of 255 bytes and 1000 nodes; then the pointwise maximum; a failed merge changes nothing |
| `VectorClocks.VectorClock.Compare` | version/vector_clock.go:186-233 | the two flags decide the documented order: -1 strictly before, 1 strictly after, 0 otherwise; nil and foreign versions |
| `VectorClocks.VectorClock.Clone` | version/vector_clock.go:264-270 | a new object with the same counters |
| `VectorClocks.VectorClock.IsEqual` | version/vector_clock.go:300-316 | same size and every entry of the receiver found in the other, missing read as zero |
| `VectorClocks.VectorClock.IsConcurrentWith` | version/vector_clock.go:295-297 | neither before the other nor reported equal |
| `VectorClocks.BeforeIsAnOrder` | version/vector_clock.go:182-185 | the comparison is irreflexive, asymmetric and transitive |
| `VectorClocks.MergeIsLeastUpperBound` | version/vector_clock.go:129-134 | a merge is above both clocks and below every clock above both |
| `VectorClocks.IncrementIsLater` | version/vector_clock.go:98-99 | an increment is strictly later exactly when the counter does not wrap |
| `VectorClocks.EqualityTestIsExact` | version/vector_clock.go:299-316 | the equality test agrees with equality against every clock iff the receiver has no zero entry |
| `VectorClocks.EqualityAgreesWithCompare` | version/vector_clock.go:293-316 | against clocks without zero entries, the equality test holds iff neither clock exceeds the other, iff the receiver has no zero entry |
| `VectorClocks.ZeroEntryFoolsEqualityTest` | version/vector_clock.go:300-316 | two clocks reported equal although one is before the other |
| `VectorClocks.ZeroArgumentLooksDifferent` | version/vector_clock.go:293-316 | two clocks that agree on every node and compare as 0 are reported different, and so concurrent |
| `Causality.ReachesTransitive` | version/doc.go:39-61 | causality along a run is transitive |
| `Causality.ReachesIsLeast` | version/doc.go:39-61 | it is the least reflexive and transitive relation containing program order and accepted messages |
| `Causality.CounterBound` | version/vector_clock.go:125-125 | no counter exceeds the number of actions, so none wraps in a run below 2^64 actions |
| `Causality.ClocksStayWithinLimits` | version/vector_clock.go:111-174 | every clock of every run has at most 1000 nodes, with IDs of 1 to 255 bytes |
| `Causality.EveryActionTakesEffect` | version/vector_clock.go:111-174 | in a run with at most 1000 nodes and such IDs, every increment is an event that raises its counter by one, and every received message ends up below the receiver's clock |
| `Causality.EveryMessageCounts` | version/doc.go:39-61 | so there causality is program order and all received messages |
| `Causality.NoZeros` | version/vector_clock.go:111-174 | clocks of a run never hold zero entries |
| `Causality.CounterMeansKnown` | version/vector_clock.go:111-174 | in every state of a run, a node's clock counts an event iff the event is in that node's causal past |
| `Causality.ClocksCharacteriseCausality` | version/vector_clock.go:176-233 | in every run, e happened before f iff Compare of their clocks is -1; different events have different clocks |
| `Causality.ConcurrentMeansUnrelated` | version/vector_clock.go:293-316 | IsConcurrentWith holds of two events iff they are different and causally unrelated |
| `VersionManagers.VectorClockManager.CurrentVersion` | version/store_decorator.go:63-67 | hands out a new object equal to the clock |
| `VersionManagers.VectorClockManager.NextVersion` | version/store_decorator.go:70-79 | the issued version is strictly later than every version issued or absorbed before, and is a new object; nil iff the increment fails |
| `VersionManagers.VectorClockManager.UpdateFromVersion` | version/store_decorator.go:82-95 | absorbs by merging, or reports the exact cause and changes nothing; zero and nil versions are accepted without effect |
| `Versions.CompareClocks` | version/vector_clock.go:202-232 | looking only at the nodes of both clocks decides the pointwise order over all nodes |
| `Versions.ComparisonExactly` | cursor/cursor.go:119-136 | cursors compare as their numbers, clocks by the pointwise order, different kinds not at all, antisymmetrically |
| `Versions.LaterIsTransitive` | cursor/cursor.go:119-136 | "later" is transitive over both version types |
| `Versions.FindLatestVersion` | synckit/manager.go:861-872 | the result occurs in the list and no version of the list is later, even for partially ordered or mixed versions; nil iff the list is empty |
| `MemStores.MemStore.constructor` | storage/memstore/memstore.go:29-35 | an open, empty, consistent store |
| `MemStores.MemStore.Store` | storage/memstore/memstore.go:39-102 | the events before are kept, the new one has the next version and the id, type, aggregate, data and metadata of the given one; index exact; errors change nothing |
| `MemStores.MemStore.StoreBatch` | storage/memstore/memstore.go:259-330 | the same for every event of the batch, in order; an empty batch succeeds even when closed |
| `MemStores.CopyKeepsContent` | storage/memstore/memstore.go:65-76 | the stored copy has the content of the event; absent metadata becomes empty |
| `MemStores.StoredIsLoadedBack` | storage/memstore/memstore.go:105-146 | loading above the old version gives the stored events back, content, order and versions |
| `MemStores.MemStore.Load` | storage/memstore/memstore.go:105-146 | exactly the events above the version that pass the filters, in order; all error cases |
| `MemStores.MemStore.LoadByAggregate` | storage/memstore/memstore.go:149-199 | answers from the stream index exactly Load restricted to the aggregate |
| `MemStores.MemStore.LatestVersion` | storage/memstore/memstore.go:202-223 | the number of stored events |
| `MemStores.MemStore.Close` | storage/memstore/memstore.go:242-255 | closed and empty |
| `MemStores.BuildFilterMap` | storage/memstore/memstore.go:125-129 | the last filter for a key wins |
| `MemStores.FiltersExactly` | storage/memstore/memstore.go:125-129 | a key filters iff it has a filter, by the value of its last one |
| `MemStores.PickedIsSelected` | storage/memstore/memstore.go:177-198 | walking an aggregate's positions yields the selected events of that aggregate, in order |
| `MemStores.PositionsAreExact` | storage/memstore/memstore.go:94-96 | the index positions are strictly increasing and are exactly the aggregate's events |
| `MemStores.SelectedIsTail` | storage/memstore/memstore.go:133-143 | loading above version v is the tail of the log from v; above the latest version it is empty |
| `MemStores.SelectedExactly` | storage/memstore/memstore.go:133-143 | an event is loaded iff it is stored, above the version and matches the filters |
| `MemStores.LoadedExactly` | storage/memstore/memstore.go:131-143 | what the type, aggregate and tenant filters keep; other keys filter nothing |
| `MemStores.LoadKeepsOrder` | storage/memstore/memstore.go:133-143 | loading keeps the order of the store |
| `MemStores.AggregateIsFilter` | storage/memstore/memstore.go:149-199 | loading one aggregate is loading with a filter for it |
| `MemStores.SinceSeqExactly` | storage/memstore/memstore.go:112-123 | a cursor stands for its number, the empty clock for zero, any other clock is refused |
| `MemStores.LogDeterminesStore` | storage/memstore/memstore.go:17-23 | two indexes of the same events are equal, so an open store is determined by its log |
| `MemChans.MemChan.Push` | transport/memchan/memchan.go:43-80 | stores the batch unless the context is done before or the transport is closed; may report an error although it stored |
| `MemChans.MemChan.Pull` | transport/memchan/memchan.go:83-115 | exactly the stored events above the version, in order; all error cases |
| `MemChans.MemChan.Close` | transport/memchan/memchan.go:234-254 | closed, and the stored events dropped |
| `MemChans.MemChan.GetLatestVersion` | transport/memchan/memchan.go:118-148 | the highest stored sequence number, zero when empty |
| `MemChans.MaxSeqIsHighest` | transport/memchan/memchan.go:137-147 | no stored sequence number exceeds the latest version, and it is attained unless zero |
| `SyncProtocol.FilterEvents` | synckit/manager.go:290-298 | keeps exactly the events that pass the filter, in order |
| `SyncProtocol.SyncManager.PushBatches` | synckit/manager.go:304-344 | the remote grows by a prefix of the events, cut at the first failing batch, which may still have been stored; counts exactly the batches that returned without error |
| `SyncProtocol.SyncManager.Push` | synckit/manager.go:240-345 | offers the local events above the remote version, with every failure of version, load and batches, and the exact count |
| `SyncProtocol.BatchesExactly` | synckit/manager.go:304-344 | of the batches the first k are sent and count; the next is not sent, or stored although it failed, or there is none |
| `SyncProtocol.PushCountsExactly` | synckit/manager.go:304-344 | the pushed count is the length of the leading sent batches of 100, or of the configured size, and equals the growth of the remote log unless the failing batch was stored |
| `SyncProtocol.SyncManager.StoreEvents` | synckit/manager.go:615-636 | stores a prefix of the events, up to the first failure |
| `SyncProtocol.SyncManager.FetchRemote` | synckit/manager.go:477-551 | the reads of a pull with another writer between them: the kept remote events and their conflicts with what was stored meanwhile |
| `SyncProtocol.SyncManager.ResolveConflicts` | synckit/manager.go:574-600 | the resolved events of all conflicts in order, or failure at the first resolver error |
| `SyncProtocol.SyncManager.Settle` | synckit/manager.go:565-636 | with conflicts, stores only the resolved events; otherwise the pulled ones; up to the first failure |
| `SyncProtocol.SyncManager.Pull` | synckit/manager.go:457-644 | the log after a pull with any failures and any events stored meanwhile by another caller |
| `SyncProtocol.QuietPull` | synckit/manager.go:530-612 | undisturbed, a pull meets no conflict and appends the remote events above the local version |
| `SyncProtocol.SyncManager.Sync` | synckit/manager.go:135-188 | without state tracking: pull, then push even after a failed pull, as the options say, with any failures and another writer |
| `SyncProtocol.QuietSync` | synckit/manager.go:135-188 | undisturbed, it is the plain composition of an undisturbed pull and a push |
| `PullConflicts.ConflictsIffClash` | synckit/manager.go:541-551 | conflicts are found iff some local and some pulled event clash |
| `PullConflicts.ResolvedExactly` | synckit/manager.go:574-602 | the resolved events are exactly those the resolver returns for some conflict |
| `PullConflicts.ResolvedInOrder` | synckit/manager.go:576-590 | they come in the order of the conflicts |
| `PullConflicts.ResolvesAllExactly` | synckit/manager.go:576-587 | resolution succeeds iff the resolver succeeds on every conflict |
| `PullConflicts.PullStoresExactly` | synckit/manager.go:530-636 | a successful pull adds exactly the survivors: all pulled events without a clash, else only what is returned for clashing pairs |
| `PullConflicts.PullKeepsContent` | synckit/manager.go:615-636 | what a successful pull adds has, in order, the content of what was stored meanwhile and then of what it received or the resolver returned |
| `PullConflicts.PullOutsideSyncStoresNothing` | synckit/manager.go:553-563 | a pull that meets a clash outside a sync stores nothing and returns no error |
| `PullConflicts.BuiltInResolversPick` | synckit/resolvers.go:18-79 | the built-in resolvers return nothing but the events of the conflict |
| `PullConflicts.BuiltInResolversExactly` | synckit/resolvers.go:18-79 | which of the two events each returns, in which order, and its decision |
| `PullConflicts.WinnersAreExtreme` | synckit/resolvers.go:18-56 | last-write-wins keeps an event neither is later than, first-write-wins one neither is earlier than |
| `PullConflicts.RuleListsPick` | synckit/resolver.go:124-142 | so does every rule list made of such resolvers |
| `PullConflicts.UnrelatedEventsAreLost` | synckit/manager.go:601-603 | with one clash, every pulled event whose key no local event shares is lost |
| `PullConflicts.DefaultKeepsExactly` | synckit/resolvers.go:18-36 | with the default resolver a pulled event survives iff nothing clashes or a local event with its key has an earlier version |
| `PullConflicts.FirstReceivedIsLost` | synckit/manager.go:601-603 | so a pull with conflicts always loses the first event it receives, unless that event was stored meanwhile |
| `PullConflicts.KeptExactly` | synckit/manager.go:510-523 | an event passes the filter stage iff it was received and the filter accepts it |
| `Convergence.KeptIsAll` | synckit/manager.go:289-298 | a filter changes nothing iff it keeps every event |
| `Convergence.PushOnChain` | synckit/manager.go:240-345 | a push moves the remote log towards the local one and never beyond; a successful push makes it equal |
| `Convergence.PullOnChain` | synckit/manager.go:457-644 | a pull moves the local log towards the remote one and never beyond; a successful pull makes it equal |
| `Convergence.SyncKeepsPrefixes` | synckit/manager.go:39-208 | any sync with any failures keeps every log a prefix of the history and only lets logs grow |
| `Convergence.GuardedPull` | synckit/manager.go:504-507 | a pull from a remote log that is not longer meets no conflict, whoever writes meanwhile |
| `Convergence.StepKeepsPrefixes` | synckit/manager.go:39-237 | every allowed write, sync, pull or push, also one during which the longest client writes, keeps every log a prefix of the history |
| `Convergence.RunKeepsPrefixes` | synckit/manager.go:39-237 | in every guarded run, with writes also during syncs, every log is a prefix of the written events in order: nothing lost, duplicated or reordered |
| `Convergence.WrittenIsGiven` | storage/memstore/memstore.go:65-76 | the history holds the given events in order, with their content |
| `Convergence.NothingIsAltered` | synckit/manager.go:39-237 | in every guarded run every event of every log has the content its writer gave |
| `Convergence.RoundSpreadsHistory` | synckit/manager.go:457-644 | once the remote holds the history, successful syncs bring every listed client up to it |
| `Convergence.LongestThenAllConverges` | synckit/manager.go:39-208 | syncing the longest client and then all clients successfully makes all logs equal to the longest |
| `Convergence.UnguardedWritesDiverge` | synckit/manager.go:276-287 | two unguarded writes: both syncs succeed and the logs differ |
| `Divergence.DivergenceIsForever` | synckit/manager.go:39-237 | incomparable logs stay incomparable in every run of any calls, writers, filters, resolvers and failures |
| `Divergence.ConvergenceIsPossibleExactly` | synckit/manager.go:39-208 | some continuation makes all logs equal iff the remote versions have no gaps and any two logs are comparable, and then some run of syncs alone does |
| `Divergence.RoundConverges` | synckit/manager.go:39-208 | syncing the holder of the longest log and then everyone, without failures, makes all logs equal |
| `Divergence.AfterKeepsNormal` | synckit/manager.go:240-345 | every run keeps stored copies in all logs; without filters the remote log stays numbered 1..n, also when logs have parted |
| `Divergence.ReachableConvergesExactly` | synckit/manager.go:39-237 | so it is after every run from empty logs, with any filters; without filters there are no gaps |
| `Divergence.WriteIsSafeExactly` | storage/memstore/memstore.go:81-99 | a write leaves convergence possible iff every other log is behind the writer's or already has the event next |
| `Divergence.DisturbedSyncLosesEvents` | synckit/manager.go:549-612 | one concrete disturbed sync: an unrelated event is dropped, nothing is pushed, an error is recorded, and the logs can never become equal |
| `FilteredSync.SelectedIsSuffix` | transport/memchan/memchan.go:100-112 | against rising versions, what a pull receives is the suffix its version has not passed |
| `FilteredSync.NoGapsExactly` | transport/memchan/memchan.go:137-147 | the versions have no gaps iff the latest version is the number of events |
| `FilteredSync.KeptIsSuffix` | synckit/manager.go:510-523 | the filter leaves the events from k on iff it drops all before and keeps the rest |
| `FilteredSync.FilteredPullIsExact` | synckit/manager.go:457-644 | a successful pull makes the logs equal iff the local log is a prefix, the filter drops what its version has not passed of it and keeps the rest |
| `FilteredSync.UnfilteredPullIsExact` | synckit/manager.go:457-644 | an unfiltered one does iff the local log is exactly what its version has passed |
| `FilteredSync.FilteredPushIsExact` | synckit/manager.go:240-345 | a successful push makes the logs equal iff they were, or the remote has no gaps, was behind, and the filter keeps the rest |
| `FilteredSync.FilteredSyncIsExact` | synckit/manager.go:135-188 | the exact condition for a successful two-way sync with any filter against every remote log with rising versions |
| `FilteredSync.NumberedSyncIsExact` | synckit/manager.go:135-188 | without gaps: iff one log was a prefix of the other and the filter keeps all events to be transferred |
| `FilteredSync.EqualLogsStayEqualExactly` | synckit/manager.go:477-490 | equal logs stay equal under an unfiltered pull iff the remote versions have no gaps |
| `FilteredSync.SecondPullIsExact` | synckit/manager.go:477-523 | a second pull stores the last part of the first again; it changes nothing iff the filter drops all that the version has not passed |
| `FilteredSync.PullsOnceExactly` | synckit/manager.go:477-523 | without gaps: iff it drops all remote events beyond the new local length |
| `FilteredSync.FilterIsSafeExactly` | synckit/manager.go:510-523 | two pulls in a row never duplicate, whatever the logs, iff the filter keeps everything or nothing |
| `FilteredSync.FilteredPullsDuplicate` | synckit/manager.go:510-523 | the same pull made twice stores one event twice |
| `FilteredSync.GapDuplicates` | synckit/manager.go:289-298 | a filtered push leaves a gap, and an unfiltered successful sync of equal logs then duplicates an event |
| `FilteredSync.PushKeepsRising` | synckit/manager.go:240-345 | a push with any filter and failures keeps the remote versions strictly increasing |
| `FilteredSync.AfterKeepsRising` | synckit/manager.go:39-237 | so does every run of any calls |
| `FilteredSync.ReachableIsRising` | synckit/manager.go:39-237 | so the results on rising versions apply after every run from empty logs |
| `Projections.BatchEnd` | projection/runner.go:91-105 | a batch ends within the log and does not go back |
| `Projections.RoundCounts` | projection/runner.go:90-133 | an iteration counts a batch only if it met no fault, and a failed batch nothing |
| `Projections.Runner.ApplyBatch` | projection/runner.go:157-197 | apply, then store the offset, with failures of either |
| `Projections.Runner.ApplySince` | projection/runner.go:52-154 | for every outcome: last is start + applied, or nil; the counted events are exactly those of the leading batches without fault, each delivered; a failed batch counts nothing; the log may grow meanwhile |
| `Projections.CatchupCounts` | projection/runner.go:107-133 | the same for the loop from any iteration |
| `Projections.CountedIsDelivered` | projection/runner.go:107-133 | every counted event lies in a successful delivery of that call |
| `Projections.Replay` | projection/interfaces.go:28-39 | replaying an already handled prefix before a batch changes nothing, for an idempotent projector |
| `Projections.InOrderCovers` | projection/runner.go:90-133 | deliveries that start no later than what was reached cover every event below the furthest version |
| `Projections.NothingIsSkipped` | projection/runner.go:90-133 | when an event is attempted, every earlier one was delivered before or is in the same attempt |
| `Projections.OffsetIsDelivered` | projection/runner.go:107-110 | every event up to the stored offset was delivered successfully |
| `Projections.RoundDelivers` | projection/runner.go:90-133 | every iteration, with any fault and any projector, keeps deliveries in order and the offset within what was delivered |
| `Projections.CatchupDelivers` | projection/runner.go:50-154 | so does every call, also while the log grows; a successful one reaches the end of the log its last load found and applies exactly the missing events |
| `Projections.RunDelivers` | projection/runner.go:28-197 | after any run of faulty calls and appends, also during calls, with any projector, the offset names a prefix delivered in order, the whole log after a success |
| `Projections.RunReplays` | projection/runner.go:157-197 | after any run the read model of any projector is what the recorded deliveries lead to, in order |
| `Projections.FaultsLeave` | projection/runner.go:157-197 | what each fault leaves: a part handled and no offset, or all handled and the offset stored or not |
| `Projections.RoundKeeps` | projection/runner.go:90-133 | every iteration, with any fault, keeps the read model of an idempotent projector consistent with the stored offset |
| `Projections.CatchupKeeps` | projection/runner.go:50-154 | so does every call |
| `Projections.ConsistentAtEnd` | projection/runner.go:107-110 | an offset at the end of the log means the read model of the whole log |
| `Projections.RunIsExact` | projection/runner.go:28-197 | after a success in any run, the read model of an idempotent projector is the whole log applied once |
| `Projections.IdempotenceIsNeeded` | projection/interfaces.go:28-39 | every projector that is not idempotent has a run with a wrong read model |
| `Projections.ExactIffIdempotent` | projection/interfaces.go:28-39 | every run with every batch size and start ends exact after a success iff the projector is idempotent |
| `MemChanProtocol.StepKeepsInv` | transport/memchan/memchan.go:43-254 | every step of publisher, subscribers, cancellation and close keeps the invariant |
| `MemChanProtocol.EveryRunIsSafe` | transport/memchan/memchan.go:43-254 | no panic, buffers within capacity (16 by default), the history is the events of the pushes, and accepted events are handled ++ pending ++ buffered and an in-order selection of later pushes |
| `MemChanProtocol.RunMirrors` | transport/memchan/memchan.go:43-254 | every state is what the actions of the run say: history, subscriptions, open and cancelled, received and handed over |
| `MemChanProtocol.CloseIsFinal` | transport/memchan/memchan.go:54-56 | after a Close no push and no second Close happens, and the history stays |
| `MemChanProtocol.EveryStepIsSound` | transport/memchan/memchan.go:61-77 | events are sent only to open channels with room and dropped only at full ones, and only open channels are closed |
| `MemChanProtocol.PushNeverBlocks` | transport/memchan/memchan.go:61-77 | a push under way can always go on or be cut short |
| `MemChanProtocol.SubscriberCanGoOn` | transport/memchan/memchan.go:165-229 | a subscriber can always receive, hand over, see cancellation or closing, and clean up |
| `MemChanProtocol.CallersCanGoOn` | transport/memchan/memchan.go:43-60 | between pushes anyone can subscribe, and until the Close push or close |
| `MemChanProtocol.WithoutDropsAllArrives` | transport/memchan/memchan.go:61-77 | in a run without drops and aborts, a subscriber nobody closed was sent exactly the events of the later pushes |
| `MemChanProtocol.NothingIsLost` | transport/memchan/memchan.go:61-77 | an open subscriber has been sent exactly the events pushed since it subscribed iff nothing was dropped for it or withheld from it by an aborted push |
| `MemChanProtocol.LeaversHandledAll` | transport/memchan/memchan.go:183-254 | a subscriber that left has handled all it was sent but its buffer, and everything unless it was cancelled |
| `MemChanProtocol.ClosedSubscriberHandledAll` | transport/memchan/memchan.go:195-205 | one that saw its channel closed without being cancelled has handled all it was sent |
| `MemChanProtocol.CancelledCanLeaveEvents` | transport/memchan/memchan.go:183-254 | a cancelled subscriber leaves with an accepted event unhandled |
| `ProjectionPool.StepKeepsInv` | synckit/manager.go:1014-1076 | every step keeps slots equal to holding workers and every report accounted for |
| `ProjectionPool.EveryRunKeepsInv` | synckit/manager.go:1022-1051 | in every interleaving, also of overlapping calls, occupied slots are the running workers and at most MaxWorkers |
| `ProjectionPool.ReportingNeverBlocks` | synckit/manager.go:1018-1050 | a worker that has not reported always finds room in both channels, and one that has can give its slot back |
| `ProjectionPool.RunMirrors` | synckit/manager.go:1014-1076 | every state is what the actions of the run say: a worker has said ok iff it finished so, error iff it finished so or gave up |
| `ProjectionPool.NeverTooManyAtOnce` | synckit/manager.go:1022-1028 | in every run at most MaxWorkers slots are taken and not given back |
| `ProjectionPool.ReturnMeansSuccess` | synckit/manager.go:1053-1095 | a call that returned gave nil iff the run has every one of its runners finish with success and it did not stop on the timeout |
| `ProjectionPool.NilMeansSuccessUnlessExpired` | synckit/manager.go:1053-1095 | if its context never expires, iff the run has every one of its runners finish with success |
| `ProjectionPool.TimeoutCanHideSuccess` | synckit/manager.go:1066-1074 | all runners succeed and the call returns an error |
| `ProjectionPool.EveryStepProgresses` | synckit/manager.go:1022-1076 | every step other than a new call decreases a bounded measure, so the pool comes to rest |
| `ProjectionPool.RestMeansDone` | synckit/manager.go:1028-1028 | at rest every slot has been given back, every worker is done and every call has returned |
| `ProjectionPool.RestMeansAllFinished` | synckit/manager.go:1014-1076 | at rest every runner of every call has finished or given up, every slot was given back and every call returned |
| `ConflictDetection.BuildIndex` | synckit/manager.go:882-887 | each bucket holds exactly the local events of its key, in order |
| `ConflictDetection.BucketIsEnough` | synckit/manager.go:890-899 | looking only into the bucket finds the same conflicts |
| `ConflictDetection.ConflictsWith` | synckit/manager.go:899-949 | the inner loop finds exactly the clashes of one remote event, in local order |
| `ConflictDetection.DetectConflicts` | synckit/manager.go:879-953 | the indexed detector returns the nested-loop result in remote-major order |
| `ConflictDetection.ConflictsExactly` | synckit/manager.go:890-953 | a conflict is reported iff it is that of a clashing pair |
| `ConflictDetection.ConflictFields` | synckit/manager.go:904-917 | what every reported conflict says, in terms of its two events |
| `ConflictDetection.EveryClashIsReported` | synckit/manager.go:890-953 | every pair with the same key and different versions is reported |
| `ConflictDetection.ConflictsInOrder` | synckit/manager.go:890-953 | in the order of the remote events |
| `ConflictDetection.ClashesInOrder` | synckit/manager.go:899-949 | and for each in the order of the local events |
| `ConflictDetection.SameKeyExactly` | synckit/manager.go:885-891 | two events share a key iff same aggregate and type, or a colon in one ID straddles the border |
| `ConflictDetection.StraddlingExample` | synckit/manager.go:885-891 | two events of different aggregates and types that share a key |
| `ConflictDetection.SameKeyWithoutColons` | synckit/manager.go:885-891 | without colons in IDs, a shared key means same aggregate and same type |
| `Resolvers.FirstMatchConcat` | synckit/resolver.go:124-142 | first match over a concatenation |
| `Resolvers.GroupIsFlat` | synckit/composite.go:151-186 | a group answers like the first match among its flattened entries |
| `Resolvers.CompositeIsFlat` | synckit/composite.go:263-288 | for every tree, the composite resolver equals the first-match resolver over the flattened list, up to error text |
| `Resolvers.CompositeAnswersInOrder` | synckit/composite.go:151-288 | a tree answers with the entry at the lexicographically first answering path: own rules, subgroups, fallback, enabled groups only; else the resolver's fallback, else nothing |
| `Resolvers.GetAllRulesInOrder` | synckit/composite.go:131-147 | nothing for a disabled group, else its rules and then those of its subgroups, in order |
| `Resolvers.GetAllRulesIsRulesOf` | synckit/composite.go:131-147 | GetAllRules is the flattened list without the fallbacks, in the same order |
| `Resolvers.GetAllRulesAgrees` | synckit/composite.go:129-147 | the list of GetAllRules agrees with the tree on every conflict no group fallback is first to answer; otherwise the tree returns that fallback's outcome |
| `Resolvers.WithoutFallbacksGetAllRulesIsExact` | synckit/composite.go:129-186 | without group fallbacks the concatenated GetAllRules is the meaning of the tree |
| `Resolvers.FallbackMakesADifference` | synckit/composite.go:176-183 | a tree that resolves what its GetAllRules list does not |
| `StatefulResolvers.FirstMatchAt` | synckit/resolver.go:125-141 | the first-match scan answers with the first rule that matches |
| `StatefulResolvers.TotalIsSum` | synckit/stateful_resolver.go:354-383 | total = auto-resolved + manual + escalated + failed, for every list of outcomes |
| `StatefulResolvers.CountersExactly` | synckit/stateful_resolver.go:354-383 | each counter is the number of outcomes of its kind |
| `StatefulResolvers.AuditExactly` | synckit/stateful_resolver.go:212-275 | the record lists exactly the rules up to the first match, and that one as matched, and as failed iff it failed |
| `StatefulResolvers.TableByTarget` | synckit/statemachine/dcr_state.go:94-105 | from which states each state can be entered |
| `StatefulResolvers.StatefulResolver.ResolveWithTracking` | synckit/stateful_resolver.go:196-341 | the plain resolver's result, and a record of exactly the rules evaluated, matched and failed |
| `StatefulResolvers.StatefulResolver.StartResolution` | synckit/stateful_resolver.go:125-139 | from idle the analysis phase is always entered, with cleared records |
| `StatefulResolvers.StatefulResolver.Count` | synckit/stateful_resolver.go:354-383 | the counters stay those of the list of all outcomes |
| `StatefulResolvers.StatefulResolver.Resolve` | synckit/stateful_resolver.go:105-193 | the plain resolver's result or error; afterwards idle, coming from the outcome's end state, no active workflow, counters exact |
| `StatefulResolvers.StatefulResolver.Reset` | synckit/statemachine/dcr_state.go:197-213 | back to idle with cleared records, or unchanged when not allowed |
| `StateMachines.Machine.constructor` | synckit/statemachine/machine.go:37-61 | initial state, empty history, default size 50 |
| `StateMachines.Machine.CanTransition` | synckit/statemachine/types.go:86-98 | whether the table lists the target for the current state |
| `StateMachines.Machine.AddToHistory` | synckit/statemachine/machine.go:352-362 | appends and drops the oldest entry beyond the limit |
| `StateMachines.Machine.TransitionTo` | synckit/statemachine/machine.go:74-150 | rejected iff not listed, or vetoed by the validator, and then unchanged; otherwise moved, with the transition appended to the bounded history |
| `StateMachines.Machine.CreateSnapshot` | synckit/statemachine/machine.go:290-304 | state, entry time, configuration and history |
| `StateMachines.Machine.RestoreFromSnapshot` | synckit/statemachine/machine.go:342-349 | restores all of them and keeps the validator in use |
| `StateMachines.HistoryIsWindow` | synckit/statemachine/machine.go:74-156 | in every run the history is the last MaxHistorySize steps of the true trace, a chained walk of allowed, approved steps to the current state |
| `StateMachines.RestoreIsFaithful` | synckit/statemachine/machine.go:289-349 | a restored machine behaves like the original on every request sequence iff the validators agree on allowed steps out of reachable states |
| `SyncLifecycle.Manager.FinishSync` | synckit/manager.go:77-110 | the final state, then idle, as far as the table allows |
| `SyncLifecycle.TableByTarget` | synckit/sync_state.go:80-101 | from which states each state can be entered |
| `SyncLifecycle.EndsIdleExactly` | synckit/manager.go:77-110 | a sync ends idle iff some phase runs or an error is recorded |
| `SyncLifecycle.PassesThroughVerdict` | synckit/manager.go:80-101 | Failed is entered iff an error is recorded, Completed iff none is and the sync is not stuck |
| `SyncLifecycle.PushesExactly` | synckit/sync_state.go:90-94 | a sync pushes iff it is to push and met no conflicts; a two-way sync that met some fails |
| `SyncLifecycle.CallsLeaveIdle` | synckit/manager.go:53-72 | after any sequence of calls the machine is idle iff no sync got stuck; after a stuck one every sync is rejected |
| `SyncLifecycle.OneDirectionIsEnough` | synckit/manager.go:53-72 | unless both PushOnly and PullOnly are set, every sequence of calls leaves the machine idle |
| `SyncSession.Session.Pull` | synckit/manager.go:457-644 | logs and states of a pull together: conflicts are resolved only where the table lets the manager enter that state, elsewhere nothing is stored |
| `SyncSession.Session.Phases` | synckit/manager.go:135-188 | both phases: the logs, states and errors that follow from the two logs |
| `SyncSession.Session.Sync` | synckit/manager.go:39-208 | the logs after a sync, the states entered, the state left, the errors and whether it pushed, all computed from the logs, the failures and the other writer; rejected without effect when closed or not idle |
| `SyncSession.QuietSyncMeets` | synckit/manager.go:39-208 | undisturbed, the tracked sync leaves the logs of the untracked one, and records no error iff nothing failed |
| `SyncSession.PushesUnlessClash` | synckit/manager.go:553-563 | a two-way sync whose reads find something pushes iff no event stored meanwhile clashes with a pulled one; otherwise it fails and the remote log is unchanged |
| `CursorPaging.Connection.FetchVector` | storage/sqlite/pull.go:96-177 | the first call on a connection answers with a page and the next cursor; the temporary table it leaves makes every later one fail |
| `CursorPaging.ReadPage` | storage/sqlite/pull.go:126-176 | the first rows above the cursor in order, and the cursor raised to the highest counter seen per origin |
| `CursorPaging.AboveExactly` | storage/sqlite/pull.go:126-130 | which rows are above a cursor |
| `CursorPaging.AboveKeepsOrder` | storage/sqlite/pull.go:131-131 | in the order of the table |
| `CursorPaging.PageExactly` | storage/sqlite/pull.go:132-132 | a page is the first `limit` of them, or all |
| `CursorPaging.AdvanceExactly` | storage/sqlite/pull.go:139-161 | the next cursor of an origin is its highest counter, on the page or before |
| `CursorPaging.ReadPages` | storage/sqlite/pull.go:96-177 | k pages over a list of connections succeed iff these are new and distinct, and are then the pages of k calls, all rows when orderly and enough |
| `CursorPaging.PassedRows` | storage/sqlite/pull.go:126-132 | a higher cursor that has passed exactly the first n rows leaves the rest |
| `CursorPaging.NextPageStartsAfter` | storage/sqlite/pull.go:138-176 | after an orderly page, the rows still above the cursor are those that follow it |
| `CursorPaging.EnoughCalls` | storage/sqlite/pull.go:96-177 | as many calls as there are rows collect all of them, and the next page is empty |
| `CursorPaging.ExactNeedsOrder` | storage/sqlite/pull.go:155-161 | exact paging by single rows forces origins and increasing counters |
| `CursorPaging.PagingIsExactIffOrderly` | storage/sqlite/pull.go:92-177 | paging with every limit is exact, each row once and in order, iff the rows above the cursor have origins and increasing counters |
| `Idempotency.Tracker.constructor` | transport/httptransport/idempotency.go:23-42 | the defaults for zero age and size |
| `Idempotency.Tracker.Check` | transport/httptransport/idempotency.go:46-61 | the cached response iff present and not expired |
| `Idempotency.Tracker.FindOldest` | transport/httptransport/idempotency.go:70-80 | an entry with the smallest time, whatever the order of the scan |
| `Idempotency.Tracker.Record` | transport/httptransport/idempotency.go:64-88 | evicts an oldest entry when full, then stores the new one |
| `Idempotency.Tracker.Cleanup` | transport/httptransport/idempotency.go:98-105 | removes exactly the expired entries |
| `Idempotency.PushHandler.StoreAll` | transport/httptransport/http.go:193-220 | stores exactly the events that convert and whose store succeeds, in order |
| `Idempotency.PushHandler.HandlePush` | transport/httptransport/http.go:120-239 | answered from the cache iff the key is held and unexpired, refused iff unacceptable or unreadable, both without effect; otherwise the events are stored with their content and the key is recorded |
| `Idempotency.CommittedExactly` | transport/httptransport/http.go:193-220 | an event of the body is stored iff it converts, the store is open and its Store does not fail; in order, with its content |
| `Idempotency.NeverTooManyKeys` | transport/httptransport/idempotency.go:68-82 | in every run that starts with at most maxSize keys, the tracker holds at most maxSize keys |
| `Idempotency.KeySurvives` | transport/httptransport/idempotency.go:64-88 | an unexpired key is held through fewer than maxSize further Records |
| `Idempotency.EnoughRecordsEvict` | transport/httptransport/idempotency.go:64-88 | the bound is tight: Records of maxSize other, different keys evict the entry |
| `Idempotency.RepeatedPushIsIdempotent` | transport/httptransport/http.go:126-138 | a repeated push within maxAge and fewer than maxSize Records is answered from the cache and leaves the store unchanged |
| `Idempotency.CachedMeansPushedBefore` | transport/httptransport/http.go:126-138 | only a push of a non-empty key that was processed before, within maxAge, is answered from the cache |
| `TimeoutMetrics.Tracker.RecordTimeout` | synckit/statemachine/timeout.go:300-321 | counters, maximum and truncated running average after one more timeout |
| `TimeoutMetrics.TruncDivBounds` | synckit/statemachine/timeout.go:319-320 | truncating division is off by less than one and towards zero |
| `TimeoutMetrics.AverageErrorBound` | synckit/statemachine/timeout.go:314-321 | n times the average is within n(n-1)/2 of the sum of the durations |
| `TimeoutMetrics.AverageIsBetween` | synckit/statemachine/timeout.go:314-321 | the average lies between the smallest and the largest duration |
| `TimeoutMetrics.MaximumIsExact` | synckit/statemachine/timeout.go:308-311 | the recorded maximum is the largest duration, or zero if none is positive |
| `TimeoutMetrics.CountsSumToTotal` | synckit/statemachine/timeout.go:304-306 | per-state counts are exact and sum to the total |

## Left out

- MemStores.MemStore.Store: sequence numbers are unbounded, the 64-bit wrap of the counter is not modelled; event data is text, and the stored offset, which equals the version, is not kept twice.
- StateMachines.Machine.CreateSnapshot: the snapshot is a value; that the source shares the history slice with the snapshot is not modelled, nor are metadata, transition IDs, metrics and observers.
- StateMachines.Machine.TransitionTo: calls are sequential; check and store are two steps in the source, so concurrent transitions are not covered.
- CursorPaging.Connection.FetchVector: counters of 2^63 and more, which the source converts to negative numbers, and database errors other than that of the temporary table are not modelled; the lemmas about paging take every page from a connection without that table.
- TimeoutMetrics.Tracker.RecordTimeout: durations are unbounded, overflow of 64-bit arithmetic is not modelled.
- Projections.Runner.ApplyBatch: batches are segments of the log; hooks that apply other batches directly are not part of the runs.
- MemChanProtocol.EveryRunIsSafe: the wall-clock versions that a subscriber attaches to received events are not modelled; Close closes its channels in one step.
- Idempotency.RepeatedPushIsIdempotent: requests are handled one at a time and at increasing times; two overlapping first requests with one key are not covered.
- SyncProtocol.SyncManager.Pull: another caller may store events between the two reads of a pull; writes between storing two pulled events, and two syncs of one store at once, are not covered.
- Conflicts with a nil version or an empty event, which the built-in resolvers answer specially; the model's versions are never nil.
- Rules with a nil matcher and cyclic rule groups, on which the source panics or does not return.
- Adding rules and groups with their namespaced names, enabling and disabling, statistics: they would only add easy members.
- HTTP plumbing, headers, compression and status codes, except the idempotency path of the push handler.
- SQLite, Postgres, Badger and RabbitMQ engines: a table is a sequence of rows and an offset store a single value.
- Auto-sync timers, real-time notification loops, retry with floating-point backoff, logging, tracing, health checks, configuration, builders, codecs.
- Integer-cursor paging (storage/sqlite/pull.go:55-90): an easier case of vector-cursor paging.
