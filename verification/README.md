# GogGrid: a verified model of its replication, history sync and event delivery

GogGrid replicates the state of every node of a cluster by gossip, pulls history from a peer
when it joins, and pushes changes to WebSocket clients. This project models that logic in
Dafny and proves what holds over all inputs, all schedules and all runs.

The imperative parts are classes whose methods are proved against functions; most theorems are
about those functions and about state machines built from them. `Completion` and the pipeline of
`FanOut` are state machines of their own, finer than the classes beside them (`GossipManager` runs a
handler at a time, `WsHub` a case at a time); they share those classes' outcomes and channel functions.

| file | what it holds |
|---|---|
| `VectorClocks.dfy` | the pointwise order of clocks; the `VectorClock` class and its loops |
| `NodeStates.dfy` | the conflict rule, the merge and its events; departures; redelivery; when arrival order matters; single-entry clocks |
| `Channels.dfy` | buffered channels; panics are preconditions |
| `StateManager.dfy` | the `StateManager` class |
| `Cluster.dfy` | a cluster over a lossy, duplicating, reordering network: invariants, convergence, takeovers, event streams |
| `PushPull.dfy` | what a push-pull exchange leaves two replicas with |
| `Restarts.dfy` | what a restarted node recovers, who hears it, and when its recovery is overwritten: exact conditions |
| `Recovery.dfy` | convergence in runs with restarts |
| `Deliveries.dfy` | what was sent can arrive, nothing else does, and events tell all: any run, restarts included |
| `Publisher.dfy` | one round of the monitor loop; the broadcast queue and its invalidation |
| `Storage.dfy` | the history table, conflict-skipping import, the ordered query |
| `HistoryPull.dfy` | the paginated pull as a protocol, record by record, between two tables that are both being written to and cleaned: completeness, bounds |
| `PullStorage.dfy` | what a pull leaves in the requester's table, and what it counts |
| `PullOutcomes.dfy` | how a pull goes on and ends: rows written ahead of it, giving up, failing, the sync time |
| `PullWitnesses.dfy` | runs of the pull that lose a record or miscount |
| `Gossip.dfy` | the message handlers as a class |
| `Completion.dfy` | the races around completing one history sync: what never happens |
| `Signalling.dfy` | the same races: what must happen |
| `FanOut.dfy` | the WebSocket hub as a class; the whole event pipeline |
| `FanOutAccounts.dfy` | where every event of the pipeline is or was lost, and when a client is dropped |
| `Discovery.dfy` | the discovery cache |

Run `dafny verify dfyconfig.toml` to check everything.

## How the model is set up

- Times are integers (nanoseconds); they, the database's failures and the network's choices are
  parameters or steps. A zero Go time is `None`. Clock values are int64, and `Increment` wraps.
- Node ids are unique: replicas are keyed by them. The program takes the host name, or "unknown" when there is
  none (`cmd/GogGrid/main.go:66-70`); of nodes that share an id nothing is proved.
- A nil clock and an empty one are the same value: neither `Compare` nor `Merge` can tell them apart.
- `Clusters.Step` is as fine as the critical sections: `collectAndPublish` reads its clock and
  writes its state in two steps, between which anything may happen. The network is the set of
  states ever sent; a delivery picks any of them. A cluster sync is one delivery per state, so it
  may also be cut short or interleaved. A *steady run* is one without restarts and with at most
  2^63 - 1 steps, so that no version wraps.
- `HistoryPull.PullNext` imports a page record by record; either side may write or clean old rows in between, a
  write may fail at any record, and the caller may give up while the handler is still importing.
- `published`, `delivered`, `firstTable`, `emitted`, `hubLog`, `removals`, `importers`, `finishers` and
  stamps are history: they record what happened and no step depends on them.

## What was found where the code and its documentation differ

- Clocks have one entry only. README.md of the repository shows clocks with several, and
  `pkg/models/models.go` says each received update is merged in; no run, with or without
  restarts, produces a clock with another node's entry (`Clusters.ReachableClocksHaveOneEntry`).
  This is what convergence rests on: for arbitrary clocks the outcome is independent of the order
  of arrival exactly when no two states tie (`NodeStates.OrderIndependentIffReconcilable`), and the
  conflict rule can run in a circle (`NodeStates.ConflictRuleCanCycle`).
- `cmd/GogGrid/main.go:208` speaks of recovering the clock from SQLite. The clock is not a column
  (`pkg/models/models.go:35`), so that branch yields an empty clock (`Publisher.RecoverClock`), and a restarted
  node recovers its version from its peers or not at all: it publishes on a version above v exactly when a copy
  above v came back to it between the restart and the read (`Restarts.RestartedNodeRecovers`). A replica that holds
  a copy takes the publication over exactly when a copy at least as new had come back by then, or the publication
  happens to reach the same version later (`Restarts.RestartedNodeIsHeardIffACopyCameBack`).
  `Restarts.UnheardAfterRestart` is a run in which version 1, published however late, is rejected.
- The unlocked read and write of `collectAndPublish` lose nothing without restarts
  (`Clusters.PublicationLosesNoUpdate`). After a restart they can: a publication overwrites a copy of its
  node at least as new as itself exactly when, between its read and its write, a copy above the version
  it read was delivered (`Restarts.PublicationOverwritesIffACopyCameBack`); `Restarts.StaleReadLosesRecovery`
  is a run in which version 2 is overwritten by version 1.
- `ImportHistoryRecords` is documented to skip rows with the same node, time and event type. The
  row's id travels along, and ON CONFLICT DO NOTHING names no column, so a record whose id is taken
  is skipped too. When nobody else touches the requester's table and the responder deletes nothing in range, a
  successful sync stores a record in range exactly when, at the start, its key was there or no row had its id
  (`PullStorage.SuccessfulPullStoresIffIdWasFree`); with other writers the same holds of each insert
  (`PullStorage.RecordIsStoredIffIdIsFree`), and the key is there at the end exactly when some insert stored it and
  no cleaning reached it since (`PullStorage.SuccessfulPullStoresWhatItCan`).
  `PullWitnesses.IdClashLosesARecord` is a sync that succeeds and leaves its one record behind.
- The total of a sync is not always what it inserted: a write that fails ends the page before its rows are
  counted, though they stay. Whoever else writes to the table, the total falls short of the sync's own inserts
  exactly when that page had inserted a row (`PullStorage.TotalIsTheInsertsIffNoFaultAfterRows`), hence never
  on a sync that succeeds.
- The hourly cleanup deletes rows while pages, asked for by offset, are still to come: the rows behind them move
  forward and are passed over. A sync that succeeds misses at most as many records as the responder deleted
  meanwhile (`HistoryPull.SuccessfulPullMissesAtMostTheDeleted`), none when it deleted none in range
  (`HistoryPull.SuccessfulPullIsComplete`), and it can miss one the responder still has
  (`PullWitnesses.CleaningLosesARecord`).

## Model

| member | source | states |
|---|---|---|
| VectorClocks.CompareDecidesTheOrder | pkg/models/models.go:65-92 | the three answers of Compare are exactly: strictly above, strictly below, and equal-or-concurrent in the pointwise order where a missing entry is below any present one; antisymmetric |
| VectorClocks.LeqIsAPartialOrder | pkg/models/models.go:53-58 | the causal order of clocks is reflexive, antisymmetric, transitive; its strict part is transitive |
| VectorClocks.JoinIsLeastUpperBound | pkg/models/models.go:94-101 | a merged clock is above both clocks and below every clock above both |
| VectorClocks.JoinIsASemilattice | pkg/models/models.go:94-101 | merging is commutative, associative and idempotent, hence independent of the order of entries and clocks |
| VectorClocks.BumpClimbsIffNoWrap | pkg/models/models.go:60-63 | an increment strictly climbs exactly when the entry is not at the int64 maximum, where it moves the clock down |
| VectorClocks.VectorClock.Increment | pkg/models/models.go:61-63 | in place: one more at the node's entry, from zero when missing |
| VectorClocks.VectorClock.Compare | pkg/models/models.go:66-92 | both loops, in any order of keys, arrive at the order-free answer |
| VectorClocks.VectorClock.Merge | pkg/models/models.go:95-101 | in place, in any order of keys: the join |
| NodeStates.AcceptedMergeClimbs | pkg/state/state.go:132-144 | for all clocks: what an accepted merge stores is strictly above what it replaces by (clock, LastUpdated); joining the clock changes the incoming state exactly when the two were concurrent |
| NodeStates.AboveIsAStrictOrder | pkg/state/state.go:156-171 | the (clock, LastUpdated) order is irreflexive, asymmetric and transitive |
| NodeStates.RedeliveryIsRejected | pkg/state/state.go:97-192 | a state once accepted is rejected on every later delivery, after any merges, inactive marks and local updates of other nodes, and local updates of its own node that rise, for all clocks |
| NodeStates.AcceptancesAreBounded | pkg/state/state.go:97-192 | over any schedule in which local updates of the delivered nodes rise, the accepted deliveries number at most the distinct states delivered; local updates of other nodes are free |
| NodeStates.OrderIndependentIffReconcilable | pkg/state/state.go:112-171 | for every pool of states: all schedules that deliver the same states, in any order and multiplicity, end in the same map if and only if no two states of the pool are in an unordered tie |
| NodeStates.ConflictRuleCanCycle | pkg/state/state.go:158-171 | with multi-entry clocks three states can beat each other in a circle, and the order of arrival decides which survives |
| NodeStates.SoloConflictIsRank | pkg/state/state.go:158-171 | on single-entry clocks the conflict rule is the comparison of (version, LastUpdated), concurrency never arises, and a winner is stored as received |
| NodeStates.SoloMergeKeepsTheMaximum | pkg/state/state.go:112-154 | on single-entry clocks the store is a maximum register by (version, LastUpdated), holding a delivered state unchanged |
| NodeStates.SoloReplicasAgreeOnRank | pkg/state/state.go:112-154 | replicas that received the same single-entry states, in any order and multiplicity, agree on every version and update time |
| NodeStates.ReplayRebuildsTheMap | pkg/state/state.go:98-192 | replaying the emitted events over the map as it was rebuilds the map, for any sequence of updates, merges and marks |
| NodeStates.EventsTellWhatHappened | pkg/state/state.go:97-192 | an operation emits one event or none, none exactly for a rejected merge and an unknown departure; the event carries the entry the map then holds, and is a join exactly for a merge of an unknown node, a leave exactly for a departure |
| NodeStates.JoinComesFirst | pkg/state/state.go:112-131 | over any sequence of operations a join is the first event of a node that was not known before |
| NodeStates.LeftNodeStaysInactive | pkg/state/state.go:173-192 | after a departure the entry stays inactive and otherwise unchanged through any operations, until one publishes for the node or delivers a state that beats the entry |
| StateManagers.StateManager.constructor | pkg/state/state.go:28-39 | an empty map and no subscribers |
| StateManagers.StateManager.GetClusterState | pkg/state/state.go:41-63 | the copy loop returns the whole map |
| StateManagers.StateManager.UpdateLocalNode | pkg/state/state.go:97-109 | the entry is replaced unconditionally; one "update" event; every subscriber's queue takes it or drops it |
| StateManagers.StateManager.ResolveConflict | pkg/state/state.go:156-171 | the remote state wins exactly when its clock is strictly above, or neither is and it is later |
| StateManagers.StateManager.MergeNodeState | pkg/state/state.go:111-154 | returns true exactly when the state was taken over, which is when exactly one event was emitted; map, events, queues and history row follow the merge |
| StateManagers.StateManager.MarkNodeInactive | pkg/state/state.go:173-192 | only the status changes; one "leave" event and one history row when the node is known, nothing otherwise |
| StateManagers.StateManager.Subscribe | pkg/state/state.go:209-216 | a fresh open queue of 64 slots is added |
| StateManagers.StateManager.Unsubscribe | pkg/state/state.go:218-224 | the channel leaves the set before it is closed, so no subscriber is ever closed |
| StateManagers.StateManager.Broadcast | pkg/state/state.go:226-242 | every subscriber with fewer than 64 events queued gets the event, any other keeps its queue; in any order, none blocked on |
| StateManagers.StateManager.RecordEvent | pkg/state/state.go:244-264 | the history row carries the state's own update time, status and metrics and the source gossip |
| StateManagers.OfferAllKeepsWhatFits | pkg/state/state.go:226-242 | a burst of events leaves in a queue exactly the ones that fit, in order |
| StateManagers.RecordedCopiesTheEntry | pkg/state/state.go:244-264 | a join, a takeover and a departure each offer one history row, with the node, update time, status and metrics of the entry the map then holds, source gossip, and the event type of the case |
| StateManagers.TakeoversAreRecorded | pkg/state/state.go:112-154 | after any schedule of merges every takeover whose write worked has its row in the history, under the update time of the state |
| Clusters.ReachableClocksHaveOneEntry | cmd/GogGrid/main.go:208-217 | in every run, restarts included, every copy in any manager or message has exactly its own node's clock entry and is stored under its own id |
| Clusters.OwnerDominates | cmd/GogGrid/main.go:206-223 | without restarts no replica and no message is ahead of the owner; copies with equal clocks agree on all but the status; no two copies are concurrent |
| Clusters.PublicationLosesNoUpdate | cmd/GogGrid/main.go:206-223 | although read and write are separate steps, a publication is exactly one version above the owner's copy and beats every copy anywhere |
| Clusters.VersionsNeverGoBack | pkg/state/state.go:112-154 | without restarts no replica's version of any node ever decreases |
| Clusters.DeliveryChainsConverge | pkg/gossip/gossip.go:203-233 | after a node's last publication, any time-ordered chain of deliveries from it to m leaves m with the node's own version, agreeing on all but the status, whatever else is lost, duplicated or reordered |
| Clusters.TakeoversAreBounded | pkg/state/state.go:112-154 | without restarts a replica has never taken over more states of a node than the version it holds, hence than the node has published, its own publications included |
| PushPull.PushPullConverges | pkg/gossip/gossip.go:327-343 | when two replicas each send the other what they hold, with anything else going on before both arrive, both hold at least the newer version, and agree on all but the status unless one learnt something newer still |
| PushPull.PushPullAgrees | pkg/gossip/gossip.go:327-343 | two snapshots of one moment, merged crosswise as lists in any order, give maps with the same nodes and versions that agree on all but the statuses |
| Clusters.EventsNeverGoBack | pkg/state/state.go:97-192 | without restarts the clocks of a node never go back in any manager's event stream |
| Deliveries.SyncedCopiesCanArrive | pkg/gossip/gossip.go:176-233 | in any run, every copy a node holds when it syncs can be delivered to anyone at any later time |
| Deliveries.PublicationsCanArrive | pkg/gossip/gossip.go:151-164 | so can every publication |
| Deliveries.SyncReaches | pkg/gossip/gossip.go:203-233 | whatever has happened since, delivering what was synced leaves the receiver with at least the version synced |
| Deliveries.OneSyncIsEnough | pkg/gossip/gossip.go:203-233 | from any state of a run without restarts, one sync of a node and its delivery to m leave m with the node's own version, agreeing on all but the status |
| Deliveries.NobodyIsStuck | cmd/GogGrid/main.go:206-223 | at any time every node can sync, restart and notice a departure, and either read its clock or publish |
| Deliveries.CopiesComeFromPublications | cmd/GogGrid/main.go:208-223 | in any run, every copy in any manager or message has the clock, metrics and times of a publication of its own node, and is active, or inactive after somebody noticed the departure |
| Deliveries.PublicationsReadTheirClock | cmd/GogGrid/main.go:206-223 | every publication has a read of its clock before it, with no other publication and no restart of the node in between |
| Deliveries.EventsRebuildEveryReplica | pkg/state/state.go:97-192 | in any run, replaying all events of a manager since its start gives its map |
| Deliveries.DepartureStaysNoticed | pkg/gossip/gossip.go:271-274 | in any run a noticed departure leaves the entry inactive until a restart, a publication of the node itself, or a delivery that beats the entry |
| Restarts.RestartedNodeRecovers | cmd/GogGrid/main.go:208-217 | in any run: a restarted node publishes on a version above v if and only if, between its restart and the read of its clock, a copy of it above v was delivered to it |
| Restarts.PublicationIsAcceptedIff | cmd/GogGrid/main.go:217-223 | in any run: a replica accepts a publication if and only if it holds no copy, or one at most the version the publication was built on, or one of the published version with an earlier update |
| Restarts.RestartedNodeIsHeardIffACopyCameBack | cmd/GogGrid/main.go:206-223 | in any run of at most 2^63 - 1 steps: a replica that holds a copy accepts a restarted node's publication if and only if a copy at least as new had come back to the node before it read its clock, or the two tie on the version and the publication is later |
| Restarts.UnheardAfterRestart | cmd/GogGrid/main.go:208-223 | a run in which a replica at version 2 rejects the version 1 of a restarted node, however late that is published |
| Recovery.SupremePublicationsSpread | pkg/gossip/gossip.go:203-233 | in any run, restarts included: a last publication that beats every copy of its node when it is made reaches, up to the status, whoever a chain of deliveries leads to, if each holder on the chain stands until it has passed the copy on |
| Recovery.RecoveredNodeSpreads | cmd/GogGrid/main.go:208-223 | if a copy at least as new as every copy there is came back to a restarted node before it read its clock, its publication spreads in that way |
| Restarts.PublicationOverwritesIffACopyCameBack | cmd/GogGrid/main.go:212-223 | in any run a publication overwrites a copy of its node at least as new as itself if and only if, between its read and its write, a copy above the version read was delivered to the node |
| Restarts.StaleReadLosesRecovery | cmd/GogGrid/main.go:212-223 | a run in which a restarted node, handed its version 2 between read and write, overwrites it with version 1 |
| Publisher.CollectAndPublish | cmd/GogGrid/main.go:196-250 | the published state is active, with the collected metrics and the times given; its clock is the manager's own joined and incremented, the SQLite branch adding nothing; manager, subscribers, broadcast queue, persisted state and history follow, each write on its own success; nothing happens without metrics |
| Publisher.RecoverClock | cmd/GogGrid/main.go:208-216 | the clock is that of the manager's own entry, and empty without one, whatever the database holds |
| Publisher.BroadcastQueue.QueueBroadcast | pkg/gossip/gossip.go:549-554 | queued broadcasts of the same node are removed, the others keep their order |
| Publisher.SurvivingKeepsTheOrder | pkg/gossip/gossip.go:542-560 | invalidation works on each stretch of the queue by itself and removes exactly the broadcasts of the same node, so that others keep their places |
| Publisher.InvalidationIsLossless | pkg/gossip/gossip.go:542-560 | for broadcasts of any nodes whose ranks rise per node, what survives the queue leaves any receiver in the state that all of them in order would |
| Publisher.QueuedPublicationsAreLossless | pkg/gossip/gossip.go:151-164 | without restarts any stretch of a node's publications may be queued: only the last survives, and every replica ends as if it had received them all |
| Storage.InsertConserves | pkg/storage/storage.go:101-105 | an insert keeps both unique constraints, alters no row, and adds one unless the key or the id clashes |
| Storage.InsertSkipsIff | pkg/models/models.go:38-52 | an insert is skipped exactly when a row has the same node, time and event type, or the id it brings |
| Storage.InsertStoresTheRow | pkg/storage/storage.go:101-105 | an inserted row is stored as it came, under its own id or one that no row ever had |
| Storage.ImportConserves | pkg/storage/storage.go:166-182 | an import alters no existing row and keeps both unique constraints |
| Storage.ImportIsIdempotent | pkg/storage/storage.go:166-182 | importing a batch again, whatever was added since, inserts nothing |
| Storage.ImportedIffIdWasFree | pkg/storage/storage.go:166-182 | a record of a page has its key in the table after the import if and only if it was there before or no row had the record's id |
| Storage.SelectIsByRank | pkg/storage/storage.go:134-150 | a page holds exactly the rows at or after the time asked from of which, by timestamp and id, at least offset and fewer than offset + limit come first; the limit is 500 if none between 1 and 500 is given |
| Storage.SelectIsOrdered | pkg/storage/storage.go:134-150 | a page is strictly ordered by timestamp and id |
| Storage.PositionsOnlyMoveBack | pkg/storage/storage.go:134-150 | while rows are inserted anywhere, no row moves to an earlier position |
| Storage.Latest | pkg/storage/storage.go:152-164 | the maximum timestamp, and nothing exactly for an empty table |
| Storage.CleaningDropsAPrefix | pkg/storage/storage.go:128-132 | in the order of the query a cleaning deletes a prefix: every other row moves forward by as many positions as rows in range were deleted |
| Storage.CleanConserves | pkg/storage/storage.go:128-132 | a cleaning keeps exactly the rows that are not before the cutoff, and both unique constraints |
| Storage.Store.ImportHistoryRecords | pkg/storage/storage.go:169-182 | stops at the first refused write, keeps what came before, and returns the growth of the table |
| Storage.Store.GetAllHistorySince | pkg/storage/storage.go:137-150 | the ordered window, never larger than the limit; a query that fails yields nothing |
| HistoryPull.SuccessfulPullMissesAtMostTheDeleted | pkg/gossip/gossip.go:345-432 | when a sync succeeds, the records in range at its start that were not delivered number at most the rows in range that the responder deleted while pages were still to be asked for, although rows were inserted anywhere in either table throughout, between any two records too |
| HistoryPull.SuccessfulPullIsComplete | pkg/gossip/gossip.go:345-432 | when a sync succeeds and the responder deleted no row in range while pages were still to be asked for, every record it held at the start with a time at or after the sync time, or any time when there is none, was delivered |
| HistoryPull.OnlyRecordsInRangeAreDelivered | pkg/gossip/gossip.go:345-360 | in any run, only records at or after a positive sync time are delivered, each a row that the responder held |
| HistoryPull.OldCutoffsDeleteNothing | pkg/storage/storage.go:128-132 | cleanings whose cutoff is at most the time asked from delete no row in range |
| HistoryPull.RequestsAreBounded | pkg/gossip/gossip.go:411-423 | under any growth at most 100 requests are sent, each at the next multiple of 500 |
| HistoryPull.FixedResponderPageCount | pkg/gossip/gossip.go:345-432 | against n standing rows, whoever else writes to the requester or cleans it, a sync without faults ends after exactly n/500+1 requests with success when n < 50000, and otherwise after exactly 100 with failure |
| PullStorage.TotalIsTheInsertsIffNoFaultAfterRows | pkg/gossip/gossip.go:398-404 | in any run, whoever else touches the requester's table, the total of a sync never exceeds the rows it inserted, and equals them if and only if no write failed on a page that had already inserted a row |
| PullStorage.TotalIsTheGrowthIffNoFaultAfterRows | pkg/gossip/gossip.go:398-404 | its corollary: when nobody else touches the table, the same of the growth of the table |
| PullStorage.SuccessfulTotalIsTheInserts | pkg/gossip/gossip.go:398-432 | a sync that succeeds has counted every row it added, whoever else touches the table |
| PullWitnesses.FaultLeavesAnUncountedRow | pkg/gossip/gossip.go:398-404 | a run in which a row of a failed page stays and is not counted |
| PullStorage.RecordIsStoredIffIdIsFree | pkg/storage/storage.go:174-180 | in every run, each pulled record is stored by its insert if and only if its key was there or the id it brought was free at that moment |
| PullStorage.SuccessfulPullStoresIffIdWasFree | pkg/gossip/gossip.go:388-432 | when nobody else touches the requester's table and no row in range is deleted at the responder, a successful sync leaves a record in range in that table if and only if, at the start, the key was there or no row had the id |
| PullStorage.KeyIsHeldIffStoredAndKept | pkg/storage/storage.go:101-182 | in any run, a key is in the requester's table if and only if it was at the start or some insert, pulled or its own, stored it (the key was there or the id free), and no cleaning has reached it since |
| PullStorage.SuccessfulPullStoresWhatItCan | pkg/gossip/gossip.go:388-432 | whoever else writes to the requester or cleans it, a successful sync has handed every record in range to its table, and the key is there at the end if and only if the record, or a row of the requester's own with its key, was storable when inserted and no cleaning has reached the key since |
| PullWitnesses.IdClashLosesARecord | pkg/storage/storage.go:166-182 | a run in which a successful sync delivers a record and does not store it |
| PullWitnesses.CleaningLosesARecord | pkg/storage/storage.go:127-150 | a run in which the responder deletes one row between two pages and a successful sync misses a record that the responder still has |
| HistoryPull.PageRowsAreDistinct | pkg/gossip/gossip.go:345-367 | a page holds rows of the responder's table, each once |
| HistoryPull.AnswerIsTheWindow | pkg/gossip/gossip.go:345-367 | for the numbers in a request: exactly the rows at or after the time, if positive, in the window of offset and limit; more to come exactly when the page is full; the next offset |
| PullOutcomes.ActiveSyncIsNeverStuck | pkg/gossip/gossip.go:388-432 | while a sync is active one of serving, accepting, importing and concluding can go on, a write may fail exactly where one may succeed, the caller may give up unless it has, and others may write or clean at any time |
| PullOutcomes.RowsWrittenAheadAreDelivered | pkg/gossip/gossip.go:345-432 | a row that the responder writes while pages are still to be asked for, at a place not yet asked for, is delivered as well when the sync succeeds |
| PullOutcomes.NewestRowsAreDelivered | pkg/gossip/gossip.go:345-432 | in particular every new row at least as late as all others |
| PullOutcomes.AbandonedSyncNeverSucceeds | pkg/gossip/gossip.go:476-496 | after the caller gave up the sync never succeeds and sends no further request |
| PullOutcomes.FaultEndsTheSync | pkg/gossip/gossip.go:398-402 | after a failed write the sync has failed for good, with nothing more delivered or counted and the sync time as it was |
| PullOutcomes.SyncTimeStandsStill | pkg/gossip/gossip.go:498-511 | every page is asked for under the sync time the sync began with |
| PullOutcomes.SuccessMovesTheSyncTime | pkg/gossip/gossip.go:424-431 | success moves the sync time to the latest time in the requester's table, if that can be queried and there is any, and else leaves it |
| Gossip.GossipManager.HandleClusterSync | pkg/gossip/gossip.go:299-307 | the states are merged one by one; the emitted events rebuild the result and are offered to every subscriber in order; each acceptance is recorded at its own time and success |
| Gossip.GossipManager.HandleHistoryPullRequest | pkg/gossip/gossip.go:345-386 | a member gets the page, its continuation flag and its next offset; a stranger, or anyone when the query fails, gets nothing |
| Gossip.GossipManager.BeginSync | pkg/gossip/gossip.go:455-474 | a sync is registered with an empty one-slot channel, offset and total 0, and asks from offset 0 |
| Gossip.GossipManager.NextRequest | pkg/gossip/gossip.go:498-511 | asks for 500 records from the current offset, since the last sync time |
| Gossip.GossipManager.FailPendingSync | pkg/gossip/gossip.go:530-540 | the first call removes, signals and closes; any other changes nothing |
| Gossip.GossipManager.ImportPage | pkg/gossip/gossip.go:398-409 | the total grows by what the import inserted; the offset moves only when more is to come; a refused write leaves both |
| Gossip.GossipManager.HandleHistoryPullResponse | pkg/gossip/gossip.go:388-432 | an unknown id changes nothing; otherwise import, total, offset, next request, outcome and sync time for each of fault, page limit, continuation and completion, with the query for the latest time working or not |
| Completion.CompletionIsSignalledOnce | pkg/gossip/gossip.go:467-540 | over all interleavings the outcome is sent at most once and the channel closed at most once, never after the caller withdrew a registered sync; a signalling thread neither panics nor blocks |
| Completion.CallerIsNotForgotten | pkg/gossip/gossip.go:476-496 | once the thread that took the sync has ended, a caller still waiting finds the outcome in the channel |
| Signalling.OutcomeIsNotDropped | pkg/gossip/gossip.go:398-432 | a thread whose context, send, import or page limit failed, or that finished the last page, has exactly that outcome in hand for as long as the sync is registered |
| Signalling.ReportingRemovesTheSync | pkg/gossip/gossip.go:530-540 | the next step of such a thread leaves the sync removed for good |
| Signalling.NobodyWaitsInVain | pkg/gossip/gossip.go:476-540 | once any thread has had an outcome to report and all threads have ended, a caller still waiting finds the outcome in the closed channel |
| Signalling.NobodyIsHeldUp | pkg/gossip/gossip.go:476-540 | a waiting caller can withdraw at any time and receives exactly when the outcome has been sent; every thread that has not ended can go on, and does something when it does |
| Signalling.WithdrawalRemovesTheSync | pkg/gossip/gossip.go:483-495 | a caller that withdrew leaves no sync registered, and nobody else removes one in its name |
| Signalling.ResponsesAreImportedIffPending | pkg/gossip/gossip.go:388-402 | a response is imported if and only if the sync is registered when its thread looks it up, even if it is removed right after |
| Signalling.NextPageIsAskedForIffPending | pkg/gossip/gossip.go:411-423 | after a page with more to come the next one is asked for if and only if the sync is still registered at the second look |
| Signalling.TwoPagesSucceed | pkg/gossip/gossip.go:455-540 | a run in which two pages are imported and the caller receives no error |
| Completion.SuccessMeansACompletedImport | pkg/gossip/gossip.go:398-432 | what the caller receives comes from the one thread that took the sync over, and is nil if and only if that thread imported a last page without fault |
| Completion.LateResponsesImportNothing | pkg/gossip/gossip.go:388-396 | a response whose handling starts after the sync was removed never imports |
| FanOut.WsHub.Register | pkg/api/websocket.go:90-92 | a new open client joins the known ones |
| FanOut.WsHub.Unregister | pkg/api/websocket.go:93-98 | a known client is forgotten and closed once; an unknown one is left alone |
| FanOut.WsHub.Broadcast | pkg/api/websocket.go:99-111 | every client gets the message or, when its queue is full, is closed and forgotten; closed exactly when no longer known |
| FanOut.ClientsReceiveSegments | pkg/api/websocket.go:88-116 | in every run a client is handed a gap-free segment of the hub's log from its registration to its drop; known exactly while open; closed at most once, never touched afterwards |
| FanOut.ClosedClientsGetNothing | pkg/api/websocket.go:93-111 | a closed client stays closed and nothing is added to its stream |
| FanOut.ClientStreamIsASubsequence | pkg/api/websocket.go:67-116 | through queue, forwarder and hub a client's stream is an order-preserving, duplicate-free subsequence of the manager's events |
| FanOut.ClientClocksNeverGoBack | pkg/api/websocket.go:67-116 | without restarts the clocks a client sees for a node never go back |
| FanOutAccounts.EveryEventIsAccountedFor | pkg/api/websocket.go:67-116 | in any run every event is in the hub's log, its inbox, the forwarder's hand or the subscriber's queue, or was dropped at a full queue or discarded; each place has received what was passed on to it |
| FanOutAccounts.NothingIsLostWithoutOverflow | pkg/api/websocket.go:67-116 | while no queue was full and nothing was discarded, the line holds all events in their order |
| FanOutAccounts.PipelineIsNeverStuck | pkg/api/websocket.go:67-116 | whatever is on its way, the forwarder or the hub can go on; the forwarder waits for nothing but room in the inbox, the hub for nothing |
| FanOutAccounts.BuffersAreBounded | pkg/api/websocket.go:32-41 | the subscriber's queue never holds more than 64, the hub's inbox and each client's queue never more than 256 |
| FanOutAccounts.BroadcastReachesThoseWithRoom | pkg/api/websocket.go:99-111 | a known client with room gets the message and stays; one without is closed and forgotten, and its stream stays as it was |
| FanOutAccounts.OpenUntilDropped | pkg/api/websocket.go:88-116 | from its registration on a client is open if and only if it has neither unregistered nor been found full by a broadcast |
| FanOutAccounts.ReadsTakeTheMessages | pkg/api/websocket.go:150-177 | a connection has taken as many messages as it made reads |
| FanOutAccounts.EventReachesAClient | pkg/api/websocket.go:67-116 | a run in which an emitted event reaches a client and is read |
| Discovery.DiscoveryBase.IsNew | pkg/gossip/discovery.go:32-54 | the deleting loop, in any order, removes exactly the entries older than five cooldowns; then the address is new or noted |
| Discovery.DiscoveryBase.TryJoin | pkg/gossip/discovery.go:56-66 | peers of another cluster leave no trace |
| Discovery.PruningIsInvisible | pkg/gossip/discovery.go:39-54 | with time that does not run back, every answer is the one a cache that never forgets would give |
| Discovery.AnswerIffCooledDown | pkg/gossip/discovery.go:32-54 | a call is answered yes if and only if every earlier yes for its address lies more than the cooldown back |
| Discovery.JoinsAreRateLimited | pkg/gossip/discovery.go:32-54 | k yes answers for one address span more than k - 1 cooldowns |

## Left out

- memberlist, msgpack, GORM and SQLite internals: only an abstract network, payloads as values, and a keyed, ordered table are kept. Column defaults, encoding failures and the retransmission policy of the broadcast queue are not modelled; ties of the query order are broken by row id.
- Restarts.PublicationIsAcceptedIff: assumes the version read is below the int64 maximum, where an increment wraps.
- Restarts.PublicationOverwritesIffACopyCameBack: its second half, on the version published, assumes the same.
- Clusters.DeliveryChainsConverge: speaks of the deliveries that happen; timers, tickers and the fairness of peer choice are not modelled, so nothing is said about when a chain arises.
- Aliasing: stored states are values here. In the program the stored copy shares its clock map with the caller's state, and merging writes into the received one.
- Metrics are an opaque part of a state: network and load figures are not listed one by one, and `pkg/monitor` is not modelled.
- `RemoveNode`: nothing in the program calls it; it would break the monotonicity of versions, and its event looks like that of `MarkNodeInactive`.
- Storage.Store.CleanOldRecords: the clock it subtracts the retention from, and the hourly ticker, are parameters; in a pull a cleaning is a step with any cutoff.
- `GetAllNodeStates`, `DeleteNodeState` and `GetNodeHistory`, which only look up or delete.
- Completion.SuccessMeansACompletedImport: speaks of the last page; that the pages before it were imported too is `HistoryPull.SuccessfulPullIsComplete`, in whose protocol one request is open at a time, so a page is not handled twice.
- Two history syncs running at once in one process: the program starts one, so the sync time stays fixed while pages travel.
- The 120 second timeout is a step that may happen at any time; HTTP, sockets, read and write pumps, configuration, UDP and mDNS are not modelled.
- Stopping the hub, which ends the pipeline: what was proved of a run holds of every prefix of it.
