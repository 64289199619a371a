# Posduif sync protocol, verified

Posduif is an offline-first messaging application: a Go sync engine over PostgreSQL and a Flutter client with a
local SQLite store. This project models the protocol between them and proves what it does and does not guarantee:

* **WAL delivery.** `ChangeTracker` keeps an in-memory queue of WAL changes per device; `Manager` serves them in
  batches, stores a watermark (`last_synced_lsn`) and prunes. The model shows that queue and watermark together behave
  like the full log with a cursor, over whole runs with failures, restarts, `PerformSync` calls and interleaved
  requests.
* **Uploads.** The client sends its pending messages; the server inserts them one by one and answers with a count; the
  client marks the first `synced_count` of them. The model proves the counting law, safety under retries, and exactly
  when the marking is right.
* **Polling.** The fallback path reads pending rows oldest first and marks them one at a time; query, marks and reply are
  separate steps here, with everything else in between.
* **Enrollment.** One transaction over tokens and users, whose invariant (no two users share a device) is what loop
  prevention in the tracker relies on.

## Reading order

`Prelude`, `Lsn` (the LSN codec), `Models` (records), `Database` (tables, statements, `DB`), `ChangeTracker` (routing,
queues), `Manager` (one sync, one poll, one batch of inserts), `Handlers`, `Device` and `Enrollment` (the remaining
endpoints and the client) follow the source files. Each stateful component is a class; its methods are proved against
pure functions on the tables. `Routing` and `Statements` say, column by column, what those functions do. The theorems
about runs are about them too: `Delivery` (the log-and-cursor
simulation), `DeliveryRuns`, `WalSync`, `ServerRuns`, `ServerRestarts`, `Interleaving`, `LoneRequests`, `UploadRuns`,
`PollingRuns`, `EnrollmentRuns`, `LoopPrevention`, `Convergence`.

## Modelling choices

* Tables are finite maps keyed by primary key, a single statement or transaction is one atomic step, the clock and
  fresh UUIDs are inputs, and a database error is a `fault` input of the statement it hits. Rows the database may return
  in any order (ties in `created_at`, the client's unordered select) are any sequence the query allows.
* Strings with a closed vocabulary (operation, status, user type) are enumerations with an escape case; a WAL change's
  column map is a record with one dynamic value per column that the code reads.
* `last_synced_lsn` is a `pg_lsn` column (sync-engine/internal/database/migrations.go:45), so the text read back is
  PostgreSQL's unpadded rendering, not the padded text that `LSN.String` wrote. `Lsn.LsnRoundTrip` covers both.
* LSNs are natural numbers below 2^64. A device's changes carry strictly increasing LSNs unless a member says
  "non-decreasing".
* `Delivery` and the modules built on it make one WAL sync one step. `LoneRequests.SplitIsPull` shows that this loses
  nothing while the requests of a device do not overlap; `Interleaving` is about requests that do.
* Users may change arbitrarily between the changes of a server run (`ServerRuns`); across restarts (`ServerRestarts`)
  they stay as they are, so that a replayed change is routed as before.

## Where the code falls short of its intent

Each comes with a counterexample, an exact account of when it happens, or both.

* `PerformSync` throws away the messages its own sync takes and writes back the watermark it read first. Without a
  restart pruning hides the second half and the device misses exactly the discarded (or lost) batches
  (`DeliveryRuns.NoRestartExact`); a replay takes such changes a second time (`DeliveryRuns.StaleMarkTakesTwice`). A
  replay repeats nothing exactly when it starts at the cursor or the watermark covers what was taken
  (`DeliveryRuns.ReplayTakes`). With calls one after the other the device itself never receives a change twice as long as
  the row can be read (`DeliveryRuns.NeverTwice`); when `GetSyncStatus` cannot read the row it replaces it and drops the
  watermark, and then the device can (`DeliveryRuns.LostMarkReceivedTwice`): once the replay is drained it has, exactly
  when the last change it had received lies at or past both the replay position and the watermark's cut
  (`DeliveryRuns.ReplayDrains`, `DeliveryRuns.DrainRepeats`). A `PerformSync` that reads the row before a `SyncIncoming`
  and writes it back after it, followed by a restart and a replay, also serves a change twice
  (`Interleaving.StaleWriterRepeats`).
* A batch limit that splits a run of equal LSNs loses the rest of the run (`WalSync.TieLoss`).
* Concurrent requests of one device can return the same change and can lower the stored watermark
  (`Interleaving.DuplicateReachable`, `Interleaving.RegressionReachable`), but lose nothing, not even across
  restarts that replay from a position the watermark covers (`Interleaving.AtLeastOnce`,
  `Interleaving.MarkIsRecoverable`). A row write lowers the watermark exactly when what it writes is below the stored one
  (`Interleaving.RegressionExact`); a request repeats something exactly when its first change is at or below the highest watermark written so far
  (`Interleaving.RepeatExact`), which is the stored one as long as no write lowers it (`Interleaving.GuardDecides`). With
  one request in flight at a time no request does either (`LoneRequests.LoneExact`, `LoneRequests.LoneRaises`).
* `take(syncedCount)` can mark a message as synced that the server lacks, which is then never sent again
  (`UploadRuns.MarkedNotStored`). Over every run, marked means stored exactly when no upload's count reaches a message
  that the server lacks and refuses (`UploadRuns.MarkedMeansStored`), in particular when inserts fail on duplicate ids only
  (`UploadRuns.UploadSafety`). Marked and accepted are the same messages exactly when no message the tables reject, even
  as a duplicate, precedes one they accept (`UploadRuns.AcknowledgementExact`); the response's failed ids, which the client
  ignores, would have told them apart (`UploadRuns.FailedIdsExact`). Messages accepted without a mark, because the response
  is lost or the marking loop stops, leave a backlog of the same size that uploads never drain (`UploadRuns.CountingLaw`).
* The server moves its watermark, or marks its rows, before the response is on its way: a lost response is never made
  good, not even by a replay (`DeliveryRuns.RestartsExact`, `PollingRuns.PollingDelivery`).
* A poll that fails between marks has marked rows it never returns (`PollingRuns.PollingDelivery`), and a `MarkAsRead`
  that slips in is undone (`PollingRuns.ReadUndone`); that is the only way a status goes backwards
  (`PollingRuns.StatusForward`).
* Overlapping polls of a device can return a message twice (`PollingRuns.TwoPollsReturnTwice`): they can exactly when a
  query reads a row that a poll in flight has read (`PollingRuns.PollingDelivery`, `PollingRuns.OverlapRepeats`), which
  never happens with one poll per device at a time while the recipients of rows in flight stay on their devices
  (`PollingRuns.OnePollPerDevice`).
* A full-row `UpdateUser` with a stale row can put two users on one device; it does exactly when somebody else has come
  to hold the device since the row was read (`EnrollmentRuns.WriteBackExact`, `EnrollmentRuns.StaleWriteBackShares`,
  `EnrollmentRuns.DevicesExact`), and then loop prevention withholds legitimate messages
  (`LoopPrevention.LoopPreventionExact`). Usernames and tokens stay sound even then (`EnrollmentRuns.KeyedInvariant`).
* An UPDATE change overwrites columns it does not carry with empty values on the device
  (`Convergence.PartialUpdateErases`). A device that has received the whole log holds the right rows exactly when the last
  change of every message shows its sender, recipient and content (`Convergence.ConvergesExactly`).

## Model

| member | source | states |
|---|---|---|
| `Lsn.ParseExact` | sync-engine/internal/models/lsn.go:20-37 | parsing gives l if and only if the text is two non-empty hexadecimal fields below 2^32 around one slash whose values are the halves of l |
| `Lsn.ParseIgnoresSpelling` | sync-engine/internal/models/lsn.go:26-34 | leading zeros and letter case do not change the parsed LSN |
| `Lsn.LsnRoundTrip` | sync-engine/internal/models/lsn.go:13-37 | every 64-bit LSN survives its own text and the column's rendering of it |
| `Lsn.LsnOrder` | sync-engine/internal/models/lsn.go:13-37 | for any two valid texts, numeric order of the parsed LSNs is the lexicographic order of the (high, low) fields |
| `Database.StoredWatermark` | sync-engine/internal/database/queries.go:425-447 | the metadata upsert keeps the watermark of the row it is given and changes nothing else of it, or refuses text that carries none |
| `Statements.WatermarkExact` | sync-engine/internal/sync/change_tracker.go:160-173 | a row has watermark l exactly if its text is present and parses to l |
| `Statements.StorableExact` | sync-engine/internal/database/queries.go:425-447 | the metadata upsert refuses a row exactly if its watermark text does not parse |
| `Database.DB.UpdateSyncMetadata` | sync-engine/internal/database/queries.go:425-447 | inserts or replaces exactly the row of one device; on failure nothing changes |
| `Database.DB.UpdateUser` | sync-engine/internal/database/queries.go:139-152 | replaces the whole row of one existing user unless a constraint refuses it |
| `Statements.UserSaved` | sync-engine/internal/database/queries.go:139-152 | the update is refused exactly for a name of another user, an unknown type or an unknown token; otherwise the whole row, and only that one, is replaced |
| `Database.DB.CreateMessage` | sync-engine/internal/database/queries.go:156-178 | defaults are filled in, the row goes in exactly when keys, references and status allow, and the insert trigger notes the sender's last message |
| `Statements.InsertsExact` | config/database-init.sql:53-64 | an insert goes through if and only if the statement does not fail, the id is new, sender and recipient exist and the status is blank or one of the three |
| `Statements.UploadedRows` | sync-engine/internal/database/queries.go:156-178 | after the inserts of a batch each accepted message is in the table with the author's columns, its own status and creation time unless missing (then pending_sync and the clock), updated now and neither synced nor read; older rows have not changed |
| `Statements.StatusRow` | sync-engine/internal/database/queries.go:242-255 | a status change stamps synced_at or read_at, whichever the status calls for, and updated_at, and leaves every other column and row alone |
| `Database.DB.GetPendingMessagesForDevice` | sync-engine/internal/database/queries.go:376-406 | returns distinct pending rows of the device's users, oldest first, as many as the limit allows, none left out that is older than one returned |
| `Database.DB.Oldest` | sync-engine/internal/database/queries.go:382-383 | finds a row with the least creation time |
| `Database.DB.CompleteEnrollment` | sync-engine/internal/database/queries.go:299-372 | the transaction either publishes the enrollment's users and tokens or leaves both tables untouched |
| `ChangeTracking.ChangeTracker.AddChange` | sync-engine/internal/sync/change_tracker.go:31-139 | appends the change to exactly the queues of the devices that a declarative rule over table, operation, recipient fallback and senders selects; every other queue is untouched, a failed lookup changes nothing, and every queued change stays convertible |
| `Routing.RoutingExact` | sync-engine/internal/sync/change_tracker.go:31-125 | a change reaches a device if and only if its columns name a recipient enrolled there and a sender, and no sender it names, now or before an UPDATE, is enrolled there |
| `Routing.LookupsExact` | sync-engine/internal/sync/change_tracker.go:86-117 | AddChange fails exactly when a user lookup that the columns call for fails |
| `Routing.WholeRowRouted` | sync-engine/internal/sync/change_tracker.go:37-125 | an INSERT or UPDATE carrying a whole row of unchanged sender reaches exactly the recipient's device, unless the sender is on it |
| `Routing.NewSenderRouted` | sync-engine/internal/sync/change_tracker.go:62-125 | an UPDATE with another old sender is kept from the devices of both senders |
| `Routing.OldRecipientRouted` | sync-engine/internal/sync/change_tracker.go:43-51 | an UPDATE without the recipient column goes to the old row's recipient |
| `Routing.NeverRouted` | sync-engine/internal/sync/change_tracker.go:32-83 | other tables and operations, recipients that are no text, and changes without a sender reach nobody and look nobody up |
| `ChangeTracking.ChangeTracker.SenderDevices` | sync-engine/internal/sync/change_tracker.go:93-117 | collects the devices of the new and the old sender, failing exactly when a lookup it needs fails |
| `ChangeTracking.ChangeTracker.GetDevicesForUser` | sync-engine/internal/sync/change_tracker.go:210-249 | at most one device, the user's non-empty one; an unknown user has none |
| `ChangeTracking.ChangeTracker.GetChangesForDevice` | sync-engine/internal/sync/change_tracker.go:141-186 | the queued changes above the watermark, cut to the limit; all of them when there is no readable watermark; an error without a metadata row |
| `ChangeTracking.ChangeTracker.ClearChangesForDevice` | sync-engine/internal/sync/change_tracker.go:188-208 | keeps exactly the changes above the given LSN in that device's queue |
| `ChangeTracking.NewerMembers` | sync-engine/internal/sync/change_tracker.go:157-178 | the filter keeps a change if and only if it is queued and above the watermark |
| `LoopPrevention.UniqueIsExact` | sync-engine/internal/sync/change_tracker.go:82-125 | with unshared devices a routable change is withheld from its recipient's device if and only if the recipient is the new sender or, for an UPDATE, the old one |
| `LoopPrevention.LoopPreventionExact` | sync-engine/internal/sync/change_tracker.go:93-125 | withholding is exact for all changes and devices if and only if no two users share a device |
| `LoopPrevention.SharedLosesMessage` | sync-engine/internal/sync/change_tracker.go:119-125 | two users on one device: a message from one to the other is withheld although its recipient did not send it |
| `LoopPrevention.EnrolledLoopPrevention` | sync-engine/internal/sync/change_tracker.go:82-125 | in every enrollment run whose write-backs still own their devices withholding is exact |
| `Syncing.Manager.SyncIncomingWAL` | sync-engine/internal/sync/manager.go:64-118 | the new queue, metadata row and reply of the device are those of one WAL sync, in every error case too; other devices are untouched |
| `Syncing.Manager.ConvertBatch` | sync-engine/internal/sync/manager.go:72-87 | the messages of the convertible changes in order, and their largest LSN |
| `Syncing.Manager.SyncIncomingPolling` | sync-engine/internal/sync/manager.go:121-135 | marks a page the query may return one row at a time and returns it only if no mark failed |
| `Syncing.Manager.PerformSync` | sync-engine/internal/sync/manager.go:26-55 | in WAL mode the lane and success of a sync whose reply is dropped and whose row is overwritten; in polling mode a poll whose page is dropped |
| `Syncing.Manager.SyncOutgoing` | sync-engine/internal/sync/manager.go:137-155 | tables after the inserts, the counts, and the failed ids |
| `Delivery.PullTakesNextBatch` | sync-engine/internal/sync/manager.go:65-118 | on a stretch of an increasing log one sync returns exactly the next changes above the mark up to the limit, leaves the rest, and stores the last LSN; a failing sync changes nothing |
| `Delivery.RunSimulates` | sync-engine/internal/sync/manager.go:26-118 | over every admissible run of additions, syncs, PerformSync and status calls that do not overlap, with any limits and failures, and restarts, everything taken is a prefix of the log in order and without repetition, and the queue is the log from the cursor on (after a restart, with replayed changes before it) |
| `DeliveryRuns.NoRestartExact` | sync-engine/internal/sync/manager.go:26-118 | without restarts, calls one after the other and whatever fails, no change is taken twice or skipped; the device misses exactly what PerformSync discarded or the network lost |
| `DeliveryRuns.RestartsExact` | sync-engine/internal/sync/change_tracker.go:157-178 | through SyncIncoming alone, with restarts replaying from any point at or before the cursor, everything taken is exactly a prefix of the log; the device receives all of it if no response is lost, and a lost one is never made good |
| `DeliveryRuns.ReplayTakes` | sync-engine/internal/sync/change_tracker.go:157-208 | after a full replay a pull with any limit takes the log from the replay position or the watermark's cut, whichever is later, up to the limit, and repeats something already taken exactly when the restart was not admissible |
| `DeliveryRuns.NeverTwice` | sync-engine/internal/sync/manager.go:26-118 | mixing all calls with restarts to any position, the device receives a strictly increasing subsequence of the log unless a row-rewriting call could not read the row |
| `DeliveryRuns.StaleMarkTakesTwice` | sync-engine/internal/sync/manager.go:26-55 | counterexample: PerformSync, one restart and a replay take the same change twice |
| `DeliveryRuns.LostMarkReceivedTwice` | sync-engine/internal/api/handlers/sync.go:132-141 | counterexample: a status call that cannot read the row, a restart and a replay deliver a change to the device twice |
| `DeliveryRuns.ReplayReceivesAgain` | sync-engine/internal/sync/change_tracker.go:157-208 | whatever has become of the watermark, a pull with any limit after a full replay serves exactly the positions m..e, so one again if and only if the device has received one of those |
| `DeliveryRuns.ReplayDrains` | sync-engine/internal/sync/manager.go:65-118 | with a positive limit, reply number j of the replayed queue is its j-th slice from the replay position or the watermark's cut on |
| `DeliveryRuns.DrainRepeats` | sync-engine/internal/sync/manager.go:65-118 | so the drained replay serves a received change again if and only if the last one received lies at or past that point |
| `WalSync.SyncNeverLowersMark` | sync-engine/internal/sync/manager.go:73-109 | for any queue at all SyncIncoming never lowers the watermark and raises it when it returns a message |
| `WalSync.PerformRestoresMark` | sync-engine/internal/sync/manager.go:26-55 | PerformSync leaves the watermark it read first |
| `WalSync.PulledRow` | sync-engine/internal/sync/manager.go:90-108 | a sync that returns something leaves the row idle, stamped and with its pending count; any other leaves everything as it was |
| `WalSync.PerformRow` | sync-engine/internal/sync/manager.go:26-55 | in both modes a closing write that goes through leaves the row idle, stamped and with nothing pending if the sync succeeded, in the error state and otherwise as it was read if not; before it the row says syncing |
| `WalSync.PerformTakes` | sync-engine/internal/sync/manager.go:40 | a PerformSync without failures takes the next hundred changes above the watermark at most and leaves the rest queued |
| `WalSync.Unconvertible` | sync-engine/internal/sync/manager.go:76-87 | a change that does not convert is skipped: messages and watermark are those of the rest |
| `WalSync.Draining` | sync-engine/internal/sync/manager.go:65-118 | sync number j returns the j-th slice of the queue, so exactly ceil(n/k) syncs return something and later ones nothing |
| `WalSync.TieLoss` | sync-engine/internal/sync/change_tracker.go:180-206 | with non-decreasing LSNs one sync drops exactly the queued changes beyond the limit tied with the last delivered one, for good; it is lossless if and only if the cut does not split a run of equal LSNs |
| `ServerRuns.ServerDeliversLog` | sync-engine/internal/sync/change_tracker.go:31-208 | for every run of the whole server between two restarts, any users at any time and every device, what was taken for the device is a prefix of the changes routed to it and its queue is the rest |
| `ServerRuns.RoutedConvertible` | sync-engine/internal/sync/change_tracker.go:31-40 | in every run every change routed to any device is an INSERT or UPDATE that converts without error |
| `ServerRuns.Projection` | sync-engine/internal/sync/change_tracker.go:127-138 | seen from one device, a run over all devices is a run of that device alone over its routed log |
| `ServerRestarts.CrashedServerDelivers` | sync-engine/internal/sync/change_tracker.go:31-208 | over every run of the whole server with crashes that empty the tracker and replay the log to all devices (users unchanged), what was taken for a device served through SyncIncoming is a prefix of its part of the log as long as no crash skips ahead, and the device receives all of it if none of its responses is lost |
| `ServerRestarts.WalProjection` | sync-engine/internal/sync/change_tracker.go:22-27 | seen from one device, a crash at any log position is a restart of that device at the matching position of its part of the log |
| `Interleaving.AtLeastOnce` | sync-engine/internal/sync/change_tracker.go:141-208 | with row read, queue copy, row write and pruning as separate steps of any number of requests and row writers, and crashes that lose queue and requests and replay the log from a position before which everything is answered, every routed change is in a reply that can no longer fail, still queued above the watermark, or ahead of a replay in progress |
| `Interleaving.MarkIsRecoverable` | sync-engine/internal/sync/change_tracker.go:157-178 | everything before a position that the stored watermark covers is answered, so a replay may start there |
| `Interleaving.UnrecoverableLoses` | sync-engine/internal/sync/change_tracker.go:22-27 | a replay from any other position loses a change that no reply holds |
| `Interleaving.AnsweredIsPrefix` | sync-engine/internal/sync/manager.go:65-118 | however requests overlap, the answered changes are exactly those enqueued up to the highest watermark written so far |
| `Interleaving.RepeatExact` | sync-engine/internal/sync/manager.go:65-118 | in every reachable state a request repeats an answered change if and only if its first change is at or below the highest watermark written so far |
| `Interleaving.RegressionExact` | sync-engine/internal/sync/manager.go:90-108 | a step lowers the stored watermark if and only if it is a row write that goes through and carries less than the stored one |
| `Interleaving.GuardDecides` | sync-engine/internal/sync/manager.go:90-108 | as long as no write has lowered the watermark, a request repeats something if and only if the stored watermark already covers its first change |
| `Interleaving.DuplicateReachable` | sync-engine/internal/sync/manager.go:65-115 | two overlapping requests both return the same change |
| `Interleaving.RegressionReachable` | sync-engine/internal/sync/manager.go:90-108 | a slow request lowers the stored watermark |
| `Interleaving.StaleWriterRepeats` | sync-engine/internal/sync/manager.go:26-55 | counterexample: PerformSync reads the row before a request and writes it back after it; a restart and a replay serve the change twice |
| `LoneRequests.LoneExact` | sync-engine/internal/sync/manager.go:65-118 | in every run between two restarts with one request in flight at a time, AddChange and full-row writers between its steps and any failures, the concatenated replies are a prefix of the enqueued changes and between requests the queue is the rest |
| `LoneRequests.LoneRaises` | sync-engine/internal/sync/manager.go:90-108 | in such runs every row write of a request raises the watermark |
| `LoneRequests.SplitIsPull` | sync-engine/internal/sync/manager.go:65-118 | the run of the four steps of a request with additions between them reaches the state after the first additions, one whole WAL sync, and the remaining additions |
| `Handlers.IncomingLimit` | sync-engine/internal/api/handlers/sync.go:38-43 | the limit is the requested one if that is positive, and 100 otherwise |
| `Handlers.SyncHandler.UploadOutgoing` | sync-engine/internal/api/handlers/sync.go:87-114 | tables, counts and failed ids are those of the inserts alone, whatever happens to the sender write-backs |
| `Handlers.SyncHandler.GetSyncStatus` | sync-engine/internal/api/handlers/sync.go:132-150 | reports the row it reads; without one it reports and writes an idle row without a watermark |
| `Device.AppDatabase.GetPendingMessages` | mobile/lib/core/database/database.dart:60-62 | all pending messages, each once, in some order |
| `Device.AppDatabase.InsertUsers` | mobile/lib/core/database/database.dart:124-128 | replaces the listed rows one after the other, all or none |
| `Device.SyncService.SyncIncoming` | mobile/lib/core/sync/sync_service.dart:31-75 | files every message of the response in order and replaces the users; an exception part-way keeps what was filed before it, drops the rest and leaves the users; an error response changes nothing |
| `Device.SyncService.SyncOutgoing` | mobile/lib/core/sync/sync_service.dart:77-105 | uploads all pending messages and marks the first synced_count of them, or as many as come before an exception; a lost response marks none |
| `UploadRuns.CountingLaw` | mobile/lib/core/sync/sync_service.dart:77-105 | over all runs, with lost responses, interrupted marking loops and own messages coming back as deliveries: messages marked synced + messages accepted without a mark = own messages on the server + own pending messages redelivered, and likewise for pending messages and those the server lacks |
| `UploadRuns.MarkedMeansStored` | mobile/lib/core/sync/sync_service.dart:79-101 | over every run, with lost responses, resends, interrupted loops and any failures, every own message marked synced is on the server after every prefix of the run if and only if no upload's count reaches a message that the server lacks and refuses; and always what the server holds of the device's messages has the device's body |
| `UploadRuns.MarkedStoredStep` | mobile/lib/core/sync/sync_service.dart:93-101 | one event keeps every marked message stored if and only if it is no upload, or none of the first min(acceptable messages, marks made) messages of its batch is both absent from the server and unacceptable |
| `UploadRuns.UploadSafety` | mobile/lib/core/sync/sync_service.dart:79-100 | in particular if inserts fail only on duplicate ids, every own message marked synced is on the server with the same body |
| `UploadRuns.AcceptedExact` | sync-engine/internal/sync/manager.go:137-154 | an insert of a batch succeeds if and only if it would have succeeded alone in the state before the upload |
| `UploadRuns.AcknowledgementExact` | mobile/lib/core/sync/sync_service.dart:93-101 | exactly the messages that get stored are marked if and only if, in the state before the upload, no message the tables reject precedes one they accept; otherwise a rejected one is marked |
| `UploadRuns.FailedIdsExact` | sync-engine/internal/sync/manager.go:137-154 | the reported ids are exactly those of the rejected messages, one for each |
| `UploadRuns.MarkedNotStored` | mobile/lib/core/sync/sync_service.dart:93-101 | counterexample: a message is marked synced that the server lacks, another stays pending that it has |
| `UploadRuns.InsertCounts` | sync-engine/internal/api/handlers/sync.go:91-107 | each accepted insert adds exactly one of the device's messages to the table |
| `UploadRuns.SenderNoted` | sync-engine/internal/api/handlers/sync.go:98-106 | after an upload each user's last_message_sent is the content of their last accepted message and nothing else of the row has changed |
| `PollingRuns.PollingDelivery` | sync-engine/internal/sync/manager.go:121-135 | with query, marks and reply as separate steps among submissions, reads, user changes and other polls: if no query reads a row of a poll in flight, no message is returned twice, replies are oldest first, and rows marked by polls that failed or whose response was lost are never pending again nor returned |
| `PollingRuns.OnePollPerDevice` | sync-engine/internal/sync/manager.go:121-135 | with any number of devices polling at once, one poll each, while changes of the users leave the recipients of rows in flight on their devices, no message is returned twice |
| `PollingRuns.OverlapRepeats` | sync-engine/internal/sync/manager.go:121-135 | two polls in flight that have read the same row return it twice if both run on |
| `PollingRuns.TwoPollsReturnTwice` | sync-engine/internal/sync/manager.go:121-135 | counterexample: two polls that query before either marks return the same page |
| `PollingRuns.SyncedIsAccounted` | sync-engine/internal/sync/manager.go:127-132 | in every run, if messages arrive pending, a row that has become synced without being returned was marked by a poll in flight, by one that failed, or by one whose response was lost |
| `PollingRuns.AloneIsPoll` | sync-engine/internal/sync/manager.go:121-135 | run back to back, the steps of a poll are one call of the manager |
| `PollingRuns.MarkedIs` | sync-engine/internal/sync/manager.go:127-132 | marking a page stamps exactly the rows of its first n ids as synced now and changes nothing else |
| `PollingRuns.StatusForward` | sync-engine/internal/database/queries.go:242-254 | a step moves a status backwards if and only if it is a poll's mark on a row that has been read since the query |
| `PollingRuns.ReadUndone` | sync-engine/internal/sync/manager.go:122-132 | counterexample: a read between the query and the mark falls back to synced |
| `PollingRuns.PollingDrains` | sync-engine/internal/database/queries.go:376-406 | of n pending rows exactly ceil(n/limit) successive polls return something |
| `EnrollmentService.Service.CreateEnrollment` | sync-engine/internal/enrollment/service.go:25-52 | adds one unused token that expires after an hour, unless the statement fails, token or id exist or the creator does not; then nothing changes |
| `EnrollmentService.Service.GetEnrollment` | sync-engine/internal/enrollment/service.go:54-72 | reports the columns of the token; `valid` equals the guard of the completion statement at the same instant: unused and not expired |
| `EnrollmentService.Service.CompleteEnrollment` | sync-engine/internal/enrollment/service.go:74-98 | success is one enrollment transaction on a live token with a non-empty username, after which the returned user holds device, name and token and the token is used; failure leaves users and tokens unchanged and happens only on a fault, a dead token, no username, or device and name (or the fresh id) taken by different users |
| `EnrollmentRuns.CompletionExact` | sync-engine/internal/database/queries.go:306-371 | when a completion succeeds, which user and token it changes and how in all three branches, that exactly that user then holds the device, and that a failure changes nothing |
| `EnrollmentRuns.KeyedInvariant` | sync-engine/internal/database/queries.go:299-372 | over every run of completions, token creations, logins and write-backs, stale ones included, usernames stay unique and every enrollment token id, of a user or of a row read for a write-back, names an existing used token |
| `EnrollmentRuns.DevicesExact` | sync-engine/internal/database/queries.go:139-152 | devices are unique throughout a run if and only if every write-back that goes through still owns its device |
| `EnrollmentRuns.EnrollmentInvariant` | sync-engine/internal/database/queries.go:299-372 | in such runs all parts of the invariant hold at the end |
| `EnrollmentRuns.StepExact` | sync-engine/internal/database/queries.go:139-152 | a single event keeps the invariant if and only if it is not a write-back whose device somebody else has taken |
| `EnrollmentRuns.WriteBackExact` | sync-engine/internal/database/queries.go:139-152 | a full-row write-back keeps devices unique if and only if nobody else holds the row's device |
| `EnrollmentRuns.FreshWriteBackClean` | sync-engine/internal/api/handlers/sync.go:101-105 | a write-back right after its read is always of that kind |
| `EnrollmentRuns.StaleWriteBackShares` | sync-engine/internal/database/queries.go:139-152 | counterexample: read, two enrollments, write-back, and two users share a device |
| `EnrollmentRuns.TokenCompletesOnce` | sync-engine/internal/database/queries.go:307-316 | in every run each token completes at most one enrollment |
| `EnrollmentRuns.SpendOnce` | sync-engine/internal/database/queries.go:307-316 | a used token stays used and completes nothing, and a completion happens before the token expires |
| `Convergence.DeviceConverges` | mobile/lib/core/sync/sync_service.dart:38-50 | once it has received as many messages as the log has, in any batches and with any restarts, the device holds the same ids and bodies as after replaying the log at once: the last change per message id |
| `Convergence.ConvergesExactly` | sync-engine/internal/sync/change_tracker.go:252-299 | when the device has received the whole log, it holds the rows as they are after it if and only if the last change of every message shows its sender, recipient and content |
| `Convergence.WholeRowsConverge` | sync-engine/internal/sync/change_tracker.go:252-299 | in particular if the last change of every message carries the whole row |
| `Convergence.ConversionRoundTrip` | sync-engine/internal/sync/change_tracker.go:252-299 | converting a change that carries all columns of a row gives the row back |
| `Convergence.ConversionColumns` | sync-engine/internal/sync/change_tracker.go:253-299 | exactly INSERT and UPDATE convert; each column of the right type is taken over, each other one becomes empty, pending_sync, the commit time or no time |
| `Convergence.FiledRow` | mobile/lib/core/sync/sync_service.dart:38-49 | the device files the last message of an id with the author's columns and both times as delivered, synced now and not read |
| `Convergence.PartialUpdateErases` | sync-engine/internal/sync/change_tracker.go:259-271 | counterexample: an UPDATE without the content column empties the content on the device |
| `Convergence.LastUserWins` | mobile/lib/core/database/database.dart:124-128 | the last listed row of a user replaces the local one, however new that is, and rows of users not listed stay |

## Left out

- Interleaving.AtLeastOnce: "in a reply" means the sync has stored its watermark and returns the batch; the code does not recover a response that is then lost on its way or discarded by PerformSync.
- DeliveryRuns.RestartsExact: a replay routes the same changes to the device as before the restart; the code would re-route by the users table of that moment. The same holds for `Interleaving.AtLeastOnce`.
- ServerRestarts.CrashedServerDelivers: users stay as they are and lookups succeed, since otherwise a replay may route changes differently.
- EnrollmentRuns.EnrollmentInvariant: completions are atomic, so two overlapping enrollment transactions of one device are not covered.
- Delivery.RunSimulates: requests of one device that overlap; `Interleaving` covers them.
- DeliveryRuns.NeverTwice: a response reaches the device's store whole or not at all; an exception while filing one (`Device.SyncService.SyncIncoming`) drops the rest of it.
- UploadRuns.CountingLaw: ids composed on the device are fresh UUIDs that nobody else inserts.
- Two performSync calls of one device at once: the client side runs one at a time.
- Row timestamps that no decision reads (created_at and updated_at of users, tokens and metadata) and the metadata row's generated id.
- The triggers that set updated_at, synced_at and read_at: the update statements already set the same columns.
- Lengths of VARCHAR columns and the syntax of UUID columns: such failures are part of the `fault` inputs.
- The WAL reader, WAL service and replication slot code: placeholders that never produce a change with a table or columns.
- HTTP routing, JWT, CORS, JSON, gzip, SSE and Redis notifications: they carry no protocol state.
- User search, message listing, unread counts and the client's watch streams: queries that change nothing.
- All screens and widgets, configuration, migrations other than the LSN column, and deployment.
