# FastRG controller: configuration arbitration, verified

A Dafny model of how the controller keeps subscriber configuration consistent while many parties write
at once. REST and gRPC handlers, the automatic rollback and offline edits made on nodes all share
revisioned etcd keys through one optimistic compare-and-swap. An at-least-once Kafka consumer and a
checkpointed projection keep PostgreSQL tables in agreement with what happened. `dafny verify
dfyconfig.toml` checks everything.

## How it is built

* **The store and the swap.** `Etcd` is the write history of the store; live values and ModRevisions are
  read off it. `CasProtocol` is the swap as a transition system: any number of clients, each a get, a
  mutate and a guarded transaction with up to five retries, any other client or a plain delete stepping in
  between, and transport errors that may or may not have landed. `CasLoop` is the retry loop itself, run
  against a server other clients write to between its calls.
* **What is written.** `Config` holds the decoded values and every mutation run inside the swap on `configs/`
  and `user_counts/` keys. `VersionChain`, `OfflineArbitration`, `RollbackGuard`, `DesireStatus`, `DnsRuns`
  and `StoredConfig` prove what these keep over every run; `Dns` holds the in-place list loops; `NodeRegistry`
  does the same for node entries; `Acknowledgement` says what a swap that returned nil means for all these
  writers; `Keys` proves what validation and the key parsers are for.
* **What the tables say.** `Pppoe`, `Replay` and `ConfigTables` are the guarded statements and redelivery into
  them. `Projection` runs any number of overlapping workers; `ProjectionLoops` is one worker's own loops.
* **The consumer.** `RetryPolicy` is the handling of one failing message, `Offsets` the consume loop over
  several partitions, `CrashRedelivery` the handlers as separately durable effects.
* **The sweep.** `Sweep` picks the nodes that run behind and paces the requests to them.

Code that works by changing things step by step (the swap loop, the DNS array loops, the batch collapse, the
repositories, the consume loop, the handlers, the projection loops, the sweep) is imperative here too, each
method proved against a function of the old state; the theorems are about those functions and the state
machines built from them.

## What the proofs found

Where a promise does not hold in general, the exact condition is proved, with an input that shows it.

* A create that read "missing" before another party created and deleted the key can still commit, carrying its
  old time stamp (`SlowCreateCommitsAnOldStamp`). Stamps are ordered within a generation of a key (creation to
  deletion); across generations they are in order exactly when each create is stamped no earlier than what was on
  the key before it (`StampsInOrderExactlyWhen`), and exactly when a create is not, an offline edit older than an
  earlier write can get back in (`OlderEditsGetInExactlyWhen`, `OldStampLetsEditsBackIn`).
* An accepted offline edit can commit again, stamps in order, exactly when the controller's clock was still behind
  the edit's own time (`CommitsAgainExactlyWhen`, `FutureEditCommitsTwice`).
* A swap whose mutation asks to delete a missing key is acknowledged without a write
  (`DeleteOfAbsentWritesNothing`). No mutation of the controller asks for that, so in every run each acknowledged
  swap is exactly one write (`EveryConfigAckIsOneWrite`, `EveryNodeAckIsOneWrite`).
* A rollback is pinned to one version exactly when the report carries both an applied version and a numeric
  ModRevision (`PinnedExactlyByRevision`); otherwise it can delete a recreated config
  (`UnpinnedRollbackHitsRecreated`).
* Creates and updates never undo a dial; a rollback or an offline edit may (`PreservedExactlyWhen`,
  `RollbackUndoesDial`).
* Versions count 1, 2, 3, … up to the signed 64-bit limit of the server, where they turn negative, and the
  unsigned one of the consumer, where a rollback restarts at 0 (`LinkAdvances`, `LinksBreakAtTheLimit`).
* The row a rollback restores is the success of greatest insertion id, not of greatest revision; a confirmation
  that arrives out of order separates the two (`LastSuccessAgreesExactlyWhen`, `ConfirmedOutOfOrder`).
* The failure row is keyed by revision 0, so of all failures of a subscriber the history keeps only the first
  (`FailureAddsRowExactlyWhen`, `OnlyFirstFailureIsKept`).
* A consumer without a database acknowledges a message that failed five times though it is stored nowhere
  (`LostExactlyWhen`, `WithoutDatabaseALetterIsLost`). The code provides for such a consumer
  (internal/kafka/consumer.go:1478-1485), but the shipped wiring starts one only once a database is connected
  (main.go:128-149).
* The two HSI key parsers differ exactly on keys of the right shape with an empty node or user (`ParsersAgree`).
* The comments of the projection speak of skipping subscriber-count events and of reconciling current rows; by the
  code, `user_counts/` keys are never delivered to it and only the history is written. The model follows the code.
* In the projection theorems "the latest relist" is the completed relist of greatest revision. The checkpoint
  may move backward; the theorems allow it.

## Model

| member | source | states |
|---|---|---|
| Etcd.SameRevisionSameValue | internal/storage/etcd.go:130-136 | Two reads of a key that show the same ModRevision show the same value, however far apart; ModRevisions never run backward. This is why the guard on ModRevision is enough. |
| Etcd.LiveIsLatest | internal/storage/etcd.go:137-196 | The live entry of a key is what its latest event put, with that event's revision. |
| CasProtocol.EveryRunIsExact | internal/storage/etcd.go:137-196 | In every interleaved run each logged write of a swap is the mutation applied to the value and ModRevision the key had immediately before it; a client that ended with success committed exactly one write, unless its mutation asked to delete a key it saw missing; one that ended with an error other than a transport error committed none. |
| CasProtocol.NextKeepsInv | internal/storage/etcd.go:137-196 | Every step of every client, and every plain delete, keeps the invariant behind that: no step loses or doubles an acknowledged write. |
| CasProtocol.GuardMeansUnchanged | internal/storage/etcd.go:160-186 | A guard that holds at commit means the key still has the very value and revision that was read, or is missing as it was when read. |
| CasProtocol.StampsGrowWithinGeneration | internal/storage/etcd.go:137-196 | Within one generation of a key the clocks read by successive writers never decrease in commit order. |
| CasProtocol.SlowCreateCommitsAnOldStamp | internal/storage/etcd.go:160-176 | The version-0 guard cannot tell one absence from a later one: a run in which a create commits a stamp older than the write and delete before it. |
| CasProtocol.StampsInOrderExactlyWhen | internal/storage/etcd.go:160-176 | In every run the stamps of a key are in commit order if and only if every create on it is stamped no earlier than what was on the key before. |
| CasProtocol.DeleteOfAbsentWritesNothing | internal/storage/etcd.go:160-186 | A run in which a swap is acknowledged and nothing was written. |
| Acknowledgement.EveryConfigAckIsOneWrite | internal/storage/etcd.go:183-185 | In every run over the config keys a swap that returned nil committed exactly one write. |
| Acknowledgement.EveryNodeAckIsOneWrite | internal/server/grpc_server.go:368-492 | The same for the writers of the node registry. |
| CasLoop.TryOnce | internal/storage/etcd.go:147-182 | One attempt against an interfered-with server: exactly what it answers and what it appends, for every fate of the read, the guard and the reply. |
| CasLoop.CASWithRevision | internal/storage/etcd.go:137-196 | The retry loop: on success exactly one write was appended, on top of what interfered, computed from the entry live at that moment; five conflicts in a row give the conflict error and no write; the pauses double from 50 ms. |
| CasLoop.ConflictMeansMoved | internal/storage/etcd.go:183-195 | A guard that fails means somebody else wrote the key between this attempt's read and its commit. |
| CasLoop.Server.Txn | internal/storage/etcd.go:160-182 | The guarded transaction commits exactly when the guard holds, and appends exactly its own event. |
| Config.GrpcUpdateIsRestUpdate | internal/server/config_grpc_server.go:198-242 | Every gRPC update equals the REST update that spells out its intent about port mappings. |
| Config.UpdateRoundTrip | internal/server/rest_server.go:135-177 | Over any stored config, an update that spells out every field stores exactly that except desire_status; omitted toggles and port mappings keep their stored values, or the defaults where none are stored. |
| Config.UpdatesSettle | internal/server/rest_server.go:1311-1333 | Repeating an update changes nothing, and an update and a dial give the same config in either order. |
| Config.EveryPutIsStamped | internal/server/rest_server.go:1196-1213 | Every committed put of any writer carries the clock its writer read, its writer's name and its node; a missing key is only put by create, update, record and count writers, at version 1, and never deleted. |
| Config.ServerCountsOn | internal/server/rest_server.go:344-366 | A server writer counts on from any number it can read off the old version, negative ones included, and starts at 2 over one it cannot read. |
| VersionChain.LinkAdvances | internal/server/rest_server.go:344-366 | A writer that replaces version n stamps n + 1 if and only if n is below its counter's limit. |
| VersionChain.LinksBreakAtTheLimit | internal/kafka/consumer.go:189-223 | At the limits a rollback restarts at 0 and a server writer turns negative. |
| VersionChain.VersionIsPosition | internal/kafka/consumer.go:562-584 | Under any interleaving of all writers the live version is the position in the key's generation. |
| VersionChain.EveryRunCountsUp | internal/server/rest_server.go:344-366 | In every run of the system the versions of a generation are 1, 2, 3, … in commit order, below the signed 64-bit limit. |
| OfflineArbitration.EditReplacesOlderValue | internal/kafka/consumer.go:518-585 | A committed offline edit replaced the latest write on its key, which was stamped before the edit and had a lower version (or an equal one, for a tombstone), and wrote exactly the proposed payload. |
| OfflineArbitration.EditIsAnsweredExactly | internal/kafka/consumer.go:518-585 | In terms of the log alone, below the version limit: exactly when an edit commits, exactly when it is already reflected; it is discarded in every other case. |
| OfflineArbitration.CommittedEditIsStored | internal/kafka/consumer.go:572-584 | A committed edit leaves nothing, or its payload with the next version, its own node, the offline marker and a fresh stamp. |
| OfflineArbitration.NewerWriteShutsOutEdits | internal/kafka/consumer.go:518-585 | In every run, once a write stamped t is on a key no edit made at or before t writes or deletes it again, across deletes and recreations, if the creates of the key are stamped in commit order. |
| OfflineArbitration.OlderEditsGetInExactlyWhen | internal/kafka/consumer.go:518-585 | Right after a create, an edit no younger than an earlier write can get in if and only if that create is stamped out of order. |
| OfflineArbitration.AcceptedOnce | internal/kafka/consumer.go:518-585 | A proposal accepted at a controller time not before it was made commits at most once, given stamps in commit order. |
| OfflineArbitration.EveryRunAcceptsOnce | internal/kafka/consumer.go:1339-1405 | The same over every run of redeliveries, edits, rollbacks, deletes and recreations whose creates are stamped in commit order. |
| OfflineArbitration.CommitsAgainExactlyWhen | internal/kafka/consumer.go:566-570 | An edit just accepted can commit again in some order-respecting continuation if and only if the controller's clock was behind the edit's time. |
| OfflineArbitration.AcceptedEditsOutrankCreates | internal/kafka/consumer.go:548-566 | Below the version limit every accepted edit has a version above 1, or at least 1 for a tombstone. |
| OfflineArbitration.EveryGenerationShutsOutEdits | internal/kafka/consumer.go:518-585 | Within a generation, older edits stay out in every run, with no assumption about clocks. |
| OfflineArbitration.FutureEditCommitsTwice | internal/kafka/consumer.go:570-576 | Why the controller time must not precede the edit: a valid log where an edit from a fast clock commits twice. |
| OfflineArbitration.OldStampLetsEditsBackIn | internal/kafka/consumer.go:518-585 | Why stamps must be in order: a valid log where a slow create reopens the key to an older edit. |
| RollbackGuard.ReplacesTheFailedVersion | internal/kafka/consumer.go:248-325 | A rollback whose report carries an applied version and a ModRevision replaces or deletes exactly the version written at that ModRevision, still the latest on its key. |
| RollbackGuard.RestoresThePrevious | internal/kafka/consumer.go:189-223 | It leaves the payload it was given under the failed version's node with a fresh stamp and the next version, or nothing if it was given none. |
| RollbackGuard.RollbackFiresExactlyWhen | internal/kafka/consumer.go:248-325 | In terms of the log alone, below the version limit: with an applied version a rollback fires iff the live value is that version of its generation, and of the given ModRevision if there is one; without one iff it is the first of its generation, or the one right after the last success. |
| RollbackGuard.EveryRunRollbackHitsItsVersion | internal/kafka/consumer.go:267-288 | So in every run a committed rollback without applied version deletes only the first value of a generation, or replaces exactly the successor of the last success. |
| RollbackGuard.RollsBackOnce | internal/kafka/consumer.go:248-325 | Two rollbacks of one report never both commit. |
| RollbackGuard.EveryRunRollsBackOnce | internal/kafka/consumer.go:1238-1245 | The same in every run with redelivery and concurrent writers. |
| RollbackGuard.PinnedExactlyByRevision | internal/kafka/consumer.go:267-315 | A report pins its rollback to one version if and only if it has an applied version and a numeric ModRevision. |
| RollbackGuard.UnpinnedRollbackHitsRecreated | internal/kafka/consumer.go:300-313 | A valid log in which a report without ModRevision deletes a recreated config. |
| DesireStatus.StoredIsLastAsked | internal/server/rest_server.go:1415-1442 | The stored desire_status is the one set by the last committed dial or hangup since creation, or disconnect. |
| DesireStatus.EveryRunKeepsTheDial | internal/server/rest_server.go:1311-1333 | The same for every run of creates, updates, dials, hangups and deletes with any conflicts. |
| DesireStatus.PreservedExactlyWhen | internal/kafka/consumer.go:189-223 | Which writes other than a dial leave desire_status alone: creates and updates always, a rollback or offline edit if and only if the payload it puts back asks for the same. |
| DesireStatus.RollbackUndoesDial | internal/kafka/consumer.go:189-223 | A rollback that puts disconnect back over a dialled version. |
| StoredConfig.EveryRunStoresWhatWasAsked | internal/server/rest_server.go:1415-1442 | In every run of user writers each field of the stored config is what the last committed create or update that speaks of it said; a dial moves nothing but the desired state, the author and the stamp; the node is that of the last create or update, the author that of the last write. |
| StoredConfig.UserWriteChangesWhatItSays | internal/server/config_grpc_server.go:506-525 | One committed create, update, dial or hangup changes what it speaks of and nothing else, a gRPC clear flag and an empty REST list included. |
| StoredConfig.RefusedExactlyWhen | internal/server/rest_server.go:1384-1389 | A create is refused iff the key is there, a delete or dial iff it is not, an update never. |
| StoredConfig.DialRefusesForeignValues | internal/server/rest_server.go:1422-1429 | A dial is refused over exactly those values that are no HSI config with a user. |
| StoredConfig.EveryRunKeepsTheCount | internal/server/config_grpc_server.go:652-680 | In every run of count writers the stored count is the last one set, by a user or an accepted offline edit. |
| Dns.AddOrUpdateInPlace | internal/server/rest_server.go:2190-2222 | The in-place loop replaces the first record of the domain or appends; full exactly when the domain is new and there are 64 records. |
| Dns.RemoveInPlace | internal/server/rest_server.go:2265-2301 | The filter that reuses the array it reads keeps exactly the other records in order, and reports whether the domain was there. |
| Dns.AddOrUpdateRefinesMap | internal/server/config_grpc_server.go:716-746 | On a list with distinct domains an add or update is one map update, keeps domains distinct and every other position. |
| Dns.WithoutRefinesMap | internal/server/config_grpc_server.go:767-801 | A removal drops the domain from the map, keeps distinctness and order, and leaves an empty list exactly when the map is empty. |
| DnsRuns.PutStep | internal/server/rest_server.go:2190-2222 | The add/update swap maps to one map update, or is refused exactly for a 65th domain. |
| DnsRuns.DeleteStep | internal/server/rest_server.go:2265-2301 | The delete swap removes the domain; the key is deleted exactly when the map becomes empty; refused when the domain is absent. |
| DnsRuns.EveryRunKeepsTheMap | internal/server/config_grpc_server.go:716-801 | In every run of controller record writers the stored list is that map, with distinct domains and 1 to 64 entries. |
| Keys.ValidUserIDsAreCanonical | internal/validation/validation.go:51-68 | Validation accepts exactly the canonical decimal strings of 1 to 2^32 - 1. |
| Keys.NodeIDsAreAscii | internal/validation/validation.go:39-47 | Node identifiers are exactly 1 to 64 ASCII letters, digits, hyphens and underscores. |
| Keys.SplitOfJoin | internal/projection/projection.go:192-198 | Splitting at slashes undoes joining slash-free parts. |
| Keys.ParsersAgree | internal/server/node_monitor.go:836-846 | On every string the two HSI key parsers agree, except exactly on four parts "configs", node, "hsi", user with an empty node or user, which only the projection's accepts. |
| Keys.EmptyUserSplitsTheParsers | internal/projection/projection.go:192-198 | A key only one of them reads. |
| Keys.KeysRoundTrip | internal/kafka/consumer.go:356-367 | For valid identifiers both parsers return exactly the printed node and user of HSI keys and reject the other kinds. |
| Keys.KeysNeverCollide | internal/validation/validation.go:39-68 | For valid identifiers no two keys of any kind print alike. |
| Keys.PrintedKeys | internal/server/config_grpc_server.go:109-119 | The four key families spelled out. |
| NodeRegistry.RegisterNodeCASValue | internal/server/grpc_server.go:368-407 | The field-by-field registration value, NIC models carried over. |
| NodeRegistry.HeartbeatNodeCASValue | internal/server/grpc_server.go:409-436 | The field-by-field heartbeat edit equals the heartbeat of the model, whose every field EveryRunKeepsEveryField pins. |
| NodeRegistry.StaleNodeCASValue | internal/server/grpc_server.go:438-472 | The stale edit with its error cases. |
| NodeRegistry.ShutdownNodeCASValue | internal/server/grpc_server.go:474-492 | The shutdown edit. |
| NodeRegistry.EveryRunKeepsMarkersAndNics | internal/server/node_monitor.go:288-308 | In every run inactive_at and inactive_reason are present iff the status is inactive, and stored NIC models persist until the key is deleted. |
| NodeRegistry.EveryRunKeepsEveryField | internal/server/grpc_server.go:368-492 | In every run each field of a stored node is what the last committed request that speaks of it said since the key was created. |
| NodeRegistry.LastSeenIsStored | internal/server/grpc_server.go:409-436 | The stored last_seen_time is that of the last registration or heartbeat. |
| NodeRegistry.StaleExactlyWhen | internal/server/grpc_server.go:438-472 | A sweep deactivates a node iff it is not inactive and was last heard of more than 60 s before the sweep's clock. |
| NodeRegistry.SweepOnlyHitsSilentNodes | internal/server/grpc_server.go:438-472 | In every run a committed stale mark hit a node that was active at the commit and had no registration or heartbeat within 60 s of the sweep's clock, and changed only the three status fields. |
| NodeRegistry.RefusedExactlyWhen | internal/server/grpc_server.go:368-492 | A registration is never refused; anything else exactly when there is no value, none that decodes, or, for a sweep, nothing stale. |
| Pppoe.PppoeRowsFromBatch | internal/kafka/consumer.go:770-796 | The position-map loop gives the collapse of the batch, and refuses any batch with another event. |
| Pppoe.CollapseKeepsWinner | internal/kafka/consumer.go:764-769 | Collapsing keeps, per subscriber, the newest event and among equal times the last. |
| Pppoe.InOrderLeavesWinner | internal/db/event_repo.go:58-80 | Writing one at a time leaves that same winner over the stored row. |
| Pppoe.BatchRefinesSingles | internal/db/event_repo.go:119-153 | For every batch and starting table, collapse plus one multi-row upsert gives the table that in-order single upserts give; the collapsed rows have distinct keys. |
| Pppoe.StatusTable.UpsertPPPoEStatus | internal/db/event_repo.go:58-80 | The guarded single upsert, later or equal event time wins. |
| Pppoe.StatusTable.WritePPPoEBatch | internal/kafka/consumer.go:737-755 | When the statement lands the table is as after one-at-a-time handling, whether or not its success is reported; otherwise it is untouched. |
| Replay.ReplayConverges | internal/kafka/consumer.go:668-697 | However often delivery rewinds, batched or single, a batch that landed unreported included, once it is back at the greatest offset reached every subscriber of the partition has the row of exactly-once in-order delivery, ties included. |
| Replay.ReplayNeverGoesBackInTime | internal/db/event_repo.go:58-80 | At every other moment the event time already equals that row's. |
| ConfigTables.ConfigRepo.UpsertCurrent | internal/db/config_repo.go:10-47 | The guarded upsert, strictly greater revision wins. |
| ConfigTables.ConfigRepo.AppendHistoryWithStatus | internal/db/config_repo.go:101-120 | The idempotent append: the first row of a subscriber, revision and status stays. |
| ConfigTables.ConfigRepo.UpsertCurrentWithHistory | internal/db/config_repo.go:124-140 | Both writes or neither. |
| ConfigTables.ConfigRepo.GetLastSuccessfulConfig | internal/db/config_repo.go:170-191 | The success row of greatest insertion id. |
| ConfigTables.LastSuccessIsTheLatest | internal/db/config_repo.go:170-191 | That row is the one of greatest id among the subscriber's success upserts that have a config; none is found iff there is none. |
| ConfigTables.ConfigRepo.RollbackToLastSuccessful | internal/db/config_repo.go:193-208 | Appends the failure row keyed by revision 0. |
| ConfigTables.CurrentIsGreatestSuccess | internal/kafka/consumer.go:1186-1207 | For any order and multiplicity of confirmations each current row equals the success row of greatest revision, and exists iff there is one. |
| ConfigTables.ConfirmedRevisionNeverDecreases | internal/db/config_repo.go:10-27 | No step lowers the revision of a current row. |
| ConfigTables.CurrentIsGenuine | internal/kafka/consumer.go:1304-1337 | Without compaction a current row's content is what etcd held for the subscriber at the row's revision. |
| ConfigTables.CurrentIsReported | internal/kafka/consumer.go:1186-1207 | Every current row is one the subscriber's node reported, with that event's time and the attested revision. |
| ConfigTables.LastSuccessAgreesExactlyWhen | internal/db/config_repo.go:170-191 | When, after a confirmation, the last success by id is the current row: iff the confirmation is newer, or is a repeat and they agreed before. |
| ConfigTables.ConfirmedOutOfOrder | internal/db/config_repo.go:170-191 | Confirmations of revisions 3 and then 2 leave revision 3 current and revision 2 the last success by id. |
| ConfigTables.FailureAddsRowExactlyWhen | internal/db/config_repo.go:193-208 | Recording a failure adds a row if and only if the subscriber has no failed row of revision 0 yet. |
| ConfigTables.OnlyFirstFailureIsKept | internal/kafka/consumer.go:1267-1276 | However many failures of a subscriber are reported, the history keeps exactly one. |
| Projection.EventsAreRecordedOnce | internal/projection/projection.go:52-149 | With any number of overlapping workers, crashes, restarts and backward checkpoints, every HSI event after the latest relist and up to the checkpoint is in the history exactly once, as pending. |
| Projection.RelistRecordsLiveVersions | internal/projection/projection.go:92-117 | A completed relist has recorded the live version of every HSI key, once. |
| Projection.PendingRowsAreEvents | internal/projection/projection.go:122-149 | Every pending row is the row of an event etcd really had. |
| Projection.RunKeepsInv | internal/db/config_repo.go:144-166 | Every step of every worker keeps the invariant behind these, the unguarded checkpoint write included. |
| Projection.RowShowsTheWrite | internal/projection/projection.go:160-188 | The row built from a committed HSI write shows the version, time, author and desired state its writer stamped. |
| Projection.RowTellsTheEvent | internal/projection/projection.go:122-149 | The row of an event tells its key, its value or deletion, and its revision, so the history is a transcript. |
| Projection.WatchedExactlyUnderConfigs | internal/storage/etcd.go:71-84 | The events delivered are exactly those of keys printed under configs/. |
| Projection.FiledUnderItsKey | internal/projection/projection.go:192-198 | A row is filed under the identifiers its key parses back to. |
| ProjectionLoops.Projector.Reconcile | internal/projection/projection.go:92-117 | Whichever call fails first, the loop of one worker is a run of list steps followed by the checkpoint step or a restart; the checkpoint moves, and the relist counts as complete, only when all calls succeed; a first listing goes on to watch from its revision, one forced by compaction starts over; the invariant is kept. |
| ProjectionLoops.Projector.HandleEvent | internal/projection/projection.go:122-149 | Handling one event is a record step and an advance step, or a restart after whichever of the two writes fails. |
| ProjectionLoops.WatchCatchesUp | internal/storage/etcd.go:71-108 | A worker whose writes all work leaves nothing behind: after as many deliveries as etcd has events, every HSI event after the relists is in the history, once. |
| ProjectionLoops.Projector.WatchConfigs | internal/storage/etcd.go:71-108 | The watch loop handles every watched event after its start revision in order, none skipped, until the first handler error, compaction or shutdown ends it. |
| RetryPolicy.InfraRetryBackoff.Next | internal/kafka/consumer.go:72-88 | The k-th wait handed out since the start or the last reset, from 0, is min(2 * 2^k, 30) seconds. |
| RetryPolicy.AttemptUntilDecided | internal/kafka/consumer.go:806-864 | The attempt loop decides as the policy says and sleeps exactly the policy's pauses. |
| RetryPolicy.WaitAndSendToDLQ | internal/kafka/consumer.go:1465-1495 | Returns only once the letter is stored, the consumer is shut down, or there is no database. |
| RetryPolicy.HandleOne | internal/kafka/consumer.go:801-882 | Hands the offset over exactly after success or a stored letter and no shutdown. |
| RetryPolicy.UndecidedExactlyWhen | internal/kafka/consumer.go:806-864 | Retrying goes on exactly while there is no success and fewer than five failures that count. |
| RetryPolicy.DeadLetteringBeginsExactlyAt | internal/kafka/consumer.go:843-850 | Dead-lettering begins at an attempt iff it is the fifth failure outside outages, with no success before. |
| RetryPolicy.ExhaustedExactlyWhen | internal/kafka/consumer.go:806-864 | A message is given up if and only if five failures outside outages come before any success. |
| RetryPolicy.HandedOverExactlyWhen | internal/kafka/consumer.go:864-882 | An offset is handed over iff there is no shutdown and the message succeeded in time, or failed five times first and was stored or could not be for want of a database. |
| RetryPolicy.FailureCountsExactlyWhen | internal/kafka/consumer.go:901-931 | Which failures count: none of etcd, and of the database only answers outside the transient SQLSTATE classes and codes. |
| RetryPolicy.OutagesNeverCount | internal/kafka/consumer.go:816-841 | The verdict is what it would be had no infrastructure failure happened. |
| RetryPolicy.FiveAttemptsDecide | internal/kafka/consumer.go:806-864 | Five attempts outside outages always decide, so the loop ends whenever outages are finite. |
| RetryPolicy.OutagePauses | internal/kafka/consumer.go:72-88 | The k-th consecutive outage wait, from 0, is min(2 * 2^k, 30) seconds, starting over after any other failure. |
| RetryPolicy.CountedPauses | internal/kafka/consumer.go:849-857 | The waits between counted failures are 100 ms times 1.5 to the number of failures so far, exactly. |
| Offsets.EveryRunIsSafe | internal/kafka/consumer.go:644-697 | With a database, in every reachable state each message at or below a handed-over offset has been handled, dropped as unusable, or stored as a dead letter. |
| Offsets.AcknowledgedStateIsInTheTable | internal/kafka/consumer.go:668-697 | In every such state each PPPoE state change at or below a handed-over offset, unless dead-lettered, has its subscriber's row in pppoe_status with an event time not before its own. |
| Offsets.NextKeepsInv | internal/kafka/consumer.go:668-697 | Every step keeps it: fetch, batch write, fallback, outage, failed commit, shutdown, restart, rebalance. |
| Offsets.HandedNeverDecreases | internal/kafka/consumer.go:876-881 | No step takes back a handed-over offset. |
| Offsets.HandedOverExactly | internal/kafka/consumer.go:685-697 | A written batch whose commit is taken hands over, per partition, the greater of the old offset and one more than its greatest; one acknowledged message likewise; anything else nothing. |
| Offsets.AllIsHandedOver | internal/kafka/consumer.go:692-697 | When every message settles and every commit is taken, the whole batch is handed over and the consumer goes on. |
| Offsets.BatchesAreBounded | internal/kafka/consumer.go:703-706 | No batch exceeds 500 messages. |
| Offsets.LostExactlyWhen | internal/kafka/consumer.go:1478-1495 | An acknowledged message is in no ledger iff there is no database and five failures outside outages came before any success. |
| Offsets.WithoutDatabaseALetterIsLost | internal/kafka/consumer.go:1478-1485 | A reachable state that shows it, for an event that fails before it reaches a table. |
| Offsets.Consumer.CollectBatch | internal/kafka/consumer.go:711-728 | To the first message the loop adds, in order, what arrives within the 50 ms linger, up to 500 messages. |
| Offsets.CollectedInOrder | internal/kafka/consumer.go:703-728 | What arrives for a partition within the linger joins the batch in the partition's order, none skipped, until the batch has 500 messages. |
| Offsets.Consumer.WritePPPoEBatch | internal/kafka/consumer.go:737-755 | Reports true, and settles the batch, exactly when it has two or more messages, all PPPoE, a database, and a working statement; then, if the commit is taken, all of it is handed over and nothing more; whenever the statement lands the table is as after writing the messages in order. |
| Offsets.Consumer.HandleFirst | internal/kafka/consumer.go:801-882 | One message's effect on ledger, table, offsets and batch; its own offset and no other is handed over if it is acknowledged and the commit taken; on shutdown the rest of the batch is given up unacknowledged. |
| Offsets.Consumer.ConsumeRound | internal/kafka/consumer.go:669-697 | One trip around the loop is collect, batch write or one-by-one handling. |
| Offsets.Consumer.Run | internal/kafka/consumer.go:644-697 | The whole loop, from any safe state to a safe state. |
| CrashRedelivery.RedeliveryConverges | internal/kafka/consumer.go:1080-1137 | A handler killed any number of times after any effects and then run to the end leaves etcd and the tables as one uninterrupted run, up to what the attempts read off clocks and of compaction in between. |
| CrashRedelivery.FinalReadingWasRead | internal/kafka/consumer.go:1304-1337 | Those readings are readings of the attempts. |
| CrashRedelivery.FailAbsorbs | internal/kafka/consumer.go:1141-1279 | For a failure report: audit row, rollback swap, failure row. |
| CrashRedelivery.OkAbsorbs | internal/kafka/consumer.go:1141-1223 | For a success report: audit row, current and history transaction. |
| CrashRedelivery.ConfirmAgain | internal/kafka/consumer.go:1304-1337 | Confirming again, perhaps after a compaction, changes nothing once a reading found something to record. |
| CrashRedelivery.RestoresTheLastSuccess | internal/kafka/consumer.go:1225-1245 | The rollback of a failure report puts back the payload of the subscriber's success of greatest id, or deletes the key if there is none. |
| CrashRedelivery.TombstoneAbsorbs | internal/kafka/consumer.go:1356-1382 | For a tombstone: a replay repairs the DNS cascade a crash left undone. |
| CrashRedelivery.ContentEditAbsorbs | internal/kafka/consumer.go:1339-1405 | For a content edit: a replay finds itself reflected, or is discarded again with one audit row. |
| CrashRedelivery.LandedOnce | internal/kafka/consumer.go:518-535 | A landed rollback or offline edit refuses to land again. |
| CrashRedelivery.StaysAtHome | internal/kafka/consumer.go:411-466 | A message writes only its own subscriber's keys, at most once each; poison edits, confirmations, error reports and link changes write nothing in etcd. |
| CrashRedelivery.PreparedExactlyWhen | internal/kafka/consumer.go:356-466 | Exactly the well-formed edits are put to arbitration, each under the key of its own kind, node and subscriber, spelled out. |
| CrashRedelivery.EditStaysInItsFamily | internal/kafka/consumer.go:1339-1405 | A DNS edit leaves the HSI and count keys as they were, a content HSI edit the DNS and count keys, a count edit everything under configs/. |
| CrashRedelivery.CommittedEditIsReadBack | internal/kafka/consumer.go:1353-1370 | The payload of an accepted edit is what is then read at its own key. |
| CrashRedelivery.TombstoneLeavesNothing | internal/kafka/consumer.go:1356-1382 | A tombstone that commits, or finds the config gone, leaves neither config nor DNS records. |
| CrashRedelivery.DiscardsAreAudited | internal/kafka/consumer.go:1407-1459 | An edit leaves its discard row, and etcd alone, exactly when it neither commits nor is already reflected. |
| CrashRedelivery.EditOfMissingKeyIsAudited | internal/kafka/consumer.go:518-524 | A content edit of a key that is gone changes nothing in etcd and leaves its row in node_events. |
| CrashRedelivery.ReportsAreAudited | internal/kafka/consumer.go:1150-1177 | Each report leaves one row with its own outcome the first time; a restated success and a link change leave none. |
| CrashRedelivery.FailureHitsTheReportedVersion | internal/kafka/consumer.go:1238-1245 | A failure report with both markers changes etcd only while the reported version is live. |
| CrashRedelivery.FailureIsRecorded | internal/kafka/consumer.go:1270-1276 | After a failure report there is a failed row, and current rows are untouched. |
| CrashRedelivery.ConfirmationIsRecorded | internal/kafka/consumer.go:1180-1214 | After a success report the confirmed revision has a success row and the current row is not behind it, and is this report's if it was news; with nothing to confirm both tables are left alone. |
| CrashRedelivery.EffectsAreAudited | internal/kafka/consumer.go:1141-1177 | Wherever the handler of a report dies, nothing it did is without its audit row. |
| CrashRedelivery.FailureRowComesLast | internal/kafka/consumer.go:1267-1276 | A failure is recorded only once its rollback has landed or been refused for good. |
| CrashRedelivery.CascadeComesLast | internal/kafka/consumer.go:1356-1362 | A tombstone touches the DNS records only once the config is gone. |
| CrashRedelivery.Handler.InsertNodeEvent | internal/db/event_repo.go:219-233 | First-wins insert, reporting whether it inserted. |
| CrashRedelivery.Handler.DeleteSubscriberDNS | internal/storage/config.go:8-15 | The unguarded DNS delete: one event if the key exists. |
| CrashRedelivery.Handler.HandleConfigApplyFail | internal/kafka/consumer.go:1222-1276 | The handler killed after k effects makes exactly the first k, in order. |
| CrashRedelivery.Handler.HandleConfigApplyOk | internal/kafka/consumer.go:1147-1223 | The same for a success report, the restated one included. |
| CrashRedelivery.Handler.HandleConfigOfflineEdit | internal/kafka/consumer.go:1339-1459 | The same for an offline edit, poison ones reported. |
| CrashRedelivery.Handler.HandleUntilDone | internal/kafka/consumer.go:1141-1279 | The imperative handlers, killed and rerun, end where one uninterrupted run ends. |
| Sweep.UnconfirmedFromRevisions | internal/server/node_monitor.go:937-956 | A node is pending iff it is active and some pushed revision exceeds the confirmed one, 0 if unconfirmed. |
| Sweep.BehindExactlyWhen | internal/server/node_monitor.go:949-953 | A config is behind iff confirmed at an older revision than pushed, or never. |
| Sweep.Monitor.DueForNudge | internal/server/node_monitor.go:962-993 | The two loops: new backoff states of exactly the pending nodes, and each due node asked once. |
| Sweep.TrackedIsLastPending | internal/server/node_monitor.go:966-970 | The tracked set always equals the last pending set. |
| Sweep.AskedExactlyWhen | internal/server/node_monitor.go:972-991 | A node pending throughout is asked at a sweep iff its own history of requests makes it due. |
| Sweep.WaitsInSeconds | internal/server/node_monitor.go:814-828 | The waits are 60, 120, 240, 480 and then 900 seconds. |
| Sweep.NotAskedAtOnce | internal/server/node_monitor.go:974-982 | A node that fell behind again starts over with the full 60 s. |
| Sweep.NeverEarly | internal/server/node_monitor.go:962-993 | Its n-th request comes no earlier than 60 + sum of min(60 * 2^k, 900) for k in 1..n-1 after it was first seen. |
| Sweep.NeverLate | internal/server/node_monitor.go:983-991 | Every gap between requests is below its backoff plus one sweep gap. |

## Left out

- JSON and protobuf text: the model starts from decoded values; a value that does not decode is a constructor
  where the code branches on it. The two spellings of one number ("7", "007") are one version here, also where
  an offline edit's version is compared with its metadata as text.
- Reason texts of discards and error messages, log lines, metrics and the stall timer: only the decision counts.
- PostgreSQL columns that hold the server's own clock (updated_at and the failure row's time).
- `null` as the stored JSON of a node or a config, and an empty stored value: the code reads them as a missing or
  corrupt value in ways that differ by caller; no controller writer stores them.
- Clocks of several replicas: all writers read one clock that never runs backward.
- The etcd, PostgreSQL and Kafka engines: assumed are a revisioned map, atomic transactions, an ordered log per
  partition, at-least-once fetch. Truncation of a partition's log is not modelled.
- Leader election: overlapping projection workers are allowed instead of excluded; the sweep is one worker.
- Two config events at one etcd revision: every writer of the controller writes one key per transaction.
- Check-then-act across keys (VLAN uniqueness, the subscriber-count limit, DNS records without an HSI config, the
  last-user guard, bulk deletion of inactive nodes): the code does not promise these under concurrency.
- The 64-record cap and distinct domains for offline DNS edits: the code does not check them.
- A consumer without etcd: its handlers skip the etcd effects; modelled is the configured one. A consumer without a
  database fails outright on any event that reaches a table; only its dead-letter step is modelled.
- Live node RPC reads, NIC fetching, gauges, the web front end, authentication, HTTP and gRPC status mapping.
- The loops around single swaps and single steps: the stale sweep over all nodes, which swaps each node on its own,
  and the restart loop of the projection, whose every restart is a step of the interleaved model.
- Offsets.EveryRunIsSafe: for events other than PPPoE state changes "handled" is that their handler returned without an
  error; what the handlers write is the subject of CrashRedelivery.
- OfflineArbitration.CommitsAgainExactlyWhen: not for an edit of version 0 or 1 accepted over a key whose version had
  wrapped around to 0; below the 64-bit limit there is none (OfflineArbitration.AcceptedEditsOutrankCreates).
- ProjectionLoops.Projector.Reconcile: one worker alone; interleaving with other workers is the subject of Projection.
- CrashRedelivery.RedeliveryConverges: no other writer between the attempts, because the code promises no more;
  what concurrent writers can do is the subject of RollbackGuard and OfflineArbitration.
- ConfigTables.CurrentIsGenuine: does not cover a compacted revision, whose content the code takes from the live value.
