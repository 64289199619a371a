// The sync manager (sync-engine/internal/sync/manager.go): what one call does to a device's queue,
// its metadata row and the messages table, and the methods that do it.
module Syncing {
  import opened Prelude
  import opened Lsn
  import opened Models
  import opened Database
  import opened ChangeTracking

  // ---------------------------------------------------------------- one WAL sync

  // The messages of the convertible changes, in order.
  function Converted(cs: seq<WALChange>): seq<Message> {
    if cs == [] then []
    else
      var m := Convert(cs[|cs| - 1]);
      Converted(cs[..|cs| - 1]) + if m.Ok? then [m.value] else []
  }

  // The largest LSN of the convertible changes, zero if there are none.
  function MaxLsn(cs: seq<WALChange>): LSN {
    if cs == [] then 0
    else
      var c, m := cs[|cs| - 1], MaxLsn(cs[..|cs| - 1]);
      if Convert(c).Ok? && c.lsn > m then c.lsn else m
  }

  // Which metadata statements of one WAL sync fail.
  datatype SyncFaults = SyncFaults(read: bool, reread: bool, write: bool)

  const NO_FAULTS := SyncFaults(false, false, false)

  // A device's share of the server state: its queue and its metadata row.
  datatype Lane = Lane(queue: seq<WALChange>, row: Option<SyncMetadata>)

  datatype Pulled = Pulled(lane: Lane, reply: Result<seq<Message>>)

  function FreshRow(device: string, status: SyncStatus): SyncMetadata {
    SyncMetadata(device, None, None, 0, status)
  }

  // The row after an upsert of sm that may fail.
  function Upserted(row: Option<SyncMetadata>, sm: SyncMetadata, fault: bool): Option<SyncMetadata> {
    if fault || Stored(sm).None? then row else Stored(sm)
  }

  // The row after a sync has recorded the watermark max.
  function Advanced(device: string, row: Option<SyncMetadata>, reread: bool, max: LSN, now: Time): SyncMetadata {
    var sm := if reread || row.None? then FreshRow(device, Syncing) else row.value;
    sm.(lastSyncedLsn := Some(ColumnText(max)), lastSyncTimestamp := Some(now), syncStatus := Idle)
  }

  // syncIncomingWAL on one device's lane.
  function PullWal(device: string, lane: Lane, limit: int, now: Time, f: SyncFaults): Pulled {
    if f.read then Pulled(lane, Err(Cause.Database))
    else if lane.row.None? then Pulled(lane, Err(NoRows))
    else
      var batch := ChangeTracking.Page(Newer(lane.queue, Watermark(lane.row.value)), limit);
      var msgs := Converted(batch);
      if msgs == [] then Pulled(lane, Ok([]))
      else if f.write then Pulled(lane, Err(Cause.Database))
      else
        var max := MaxLsn(batch);
        Pulled(Lane(Newer(lane.queue, Some(max)), Some(Advanced(device, lane.row, f.reread, max, now))), Ok(msgs))
  }

  // Which metadata statements of PerformSync itself fail.
  datatype PerformFaults = PerformFaults(read: bool, write: bool, sync: SyncFaults, finish: bool)

  const NO_PERFORM_FAULTS := PerformFaults(false, false, NO_FAULTS, false)

  const PERFORM_LIMIT := 100

  // PerformSync in WAL mode. `batch` is what the inner sync took; PerformSync throws it away.
  datatype Performed = Performed(lane: Lane, ok: bool, batch: seq<Message>)

  // The row PerformSync writes first ...
  function PerformOpening(device: string, row: Option<SyncMetadata>, read: bool): SyncMetadata {
    if read || row.None? then FreshRow(device, Syncing) else row.value.(syncStatus := Syncing)
  }

  // ... and the one it writes last, still carrying the watermark it read at the start.
  function PerformClosing(sm: SyncMetadata, ok: bool, now: Time): SyncMetadata {
    if ok then sm.(lastSyncTimestamp := Some(now), syncStatus := Idle, pendingOutgoingCount := 0)
    else sm.(syncStatus := Failed)
  }

  function PerformWal(device: string, lane: Lane, now: Time, f: PerformFaults): Performed {
    var sm := PerformOpening(device, lane.row, f.read);
    var o := PullWal(device, lane.(row := Upserted(lane.row, sm, f.write)), PERFORM_LIMIT, now, f.sync);
    Performed(o.lane.(row := Upserted(o.lane.row, PerformClosing(sm, o.reply.Ok?, now), f.finish)),
              o.reply.Ok?, if o.reply.Ok? then o.reply.value else [])
  }

  // The metadata row after PerformSync in polling mode, whose poll does not touch it.
  function PerformPollingRow(device: string, row: Option<SyncMetadata>, ok: bool, now: Time, f: PerformFaults): Option<SyncMetadata> {
    var sm := PerformOpening(device, row, f.read);
    Upserted(Upserted(row, sm, f.write), PerformClosing(sm, ok, now), f.finish)
  }

  // ---------------------------------------------------------------- one polling sync

  // The messages table after the first n rows of page were marked synced.
  function MarkedSynced(messages: Messages, page: seq<Message>, n: nat, now: Time): Messages
    requires n <= |page|
  {
    if n == 0 then messages else StatusUpdated(MarkedSynced(messages, page, n - 1, now), page[n - 1].id, Synced, now)
  }

  datatype Polled = Polled(messages: Messages, reply: Result<seq<Message>>)

  // syncIncomingPolling given the rows the query returned; the mark number failAt, if reached, fails.
  function Poll(messages: Messages, page: seq<Message>, now: Time, failAt: nat): Polled {
    if failAt < |page| then Polled(MarkedSynced(messages, page, failAt, now), Err(Cause.Database))
    else Polled(MarkedSynced(messages, page, |page|, now), Ok(page))
  }

  ghost predicate PollsTo(users: Users, messages: Messages, device: string, limit: nat, now: Time, failAt: nat, after: Polled) {
    exists page :: PendingPage(users, messages, device, limit, page) && after == Poll(messages, page, now, failAt)
  }

  // PerformSync in polling mode: a poll of at most a hundred rows whose page is thrown away.
  ghost predicate PerformPolls(users: Users, messages: Messages, device: string, now: Time, failAt: nat, after: Messages, ok: bool) {
    exists polled :: PollsTo(users, messages, device, 100, now, failAt, polled) && polled.messages == after && ok == polled.reply.Ok?
  }

  lemma PollIsPerformed(users: Users, messages: Messages, device: string, now: Time, failAt: nat, polled: Polled)
    requires PollsTo(users, messages, device, PERFORM_LIMIT, now, failAt, polled)
    ensures PerformPolls(users, messages, device, now, failAt, polled.messages, polled.reply.Ok?)
  {
  }

  // ---------------------------------------------------------------- one upload

  datatype Uploaded = Uploaded(users: Users, messages: Messages, accepted: seq<bool>)

  // One more insert of a batch.
  function InsertOne(u: Uploaded, msg: Message, input: InsertInput): Uploaded {
    var m := Normalised(msg, input);
    if Inserts(u.users, u.messages, msg, input)
    then Uploaded(Noted(u.users, m), u.messages[m.id := m], u.accepted + [true])
    else u.(accepted := u.accepted + [false])
  }

  // Inserting the first n messages of the batch, one statement each; accepted[i] says message i went in.
  // env supplies each insert with its environment.
  function Insert(users: Users, messages: Messages, batch: seq<Message>, env: nat -> InsertInput, n: nat): (u: Uploaded)
    requires n <= |batch|
    ensures |u.accepted| == n
  {
    if n == 0 then Uploaded(users, messages, [])
    else InsertOne(Insert(users, messages, batch, env, n - 1), batch[n - 1], env(n - 1))
  }

  function CountTrue(bs: seq<bool>): (n: nat)
    ensures n <= |bs|
  {
    if bs == [] then 0 else CountTrue(bs[..|bs| - 1]) + if bs[|bs| - 1] then 1 else 0
  }

  // The ids the server reports as failed, in batch order.
  function FailedIds(batch: seq<Message>, env: nat -> InsertInput, accepted: seq<bool>): (ids: seq<string>)
    requires |accepted| <= |batch|
  {
    if accepted == [] then []
    else
      var n := |accepted| - 1;
      FailedIds(batch, env, accepted[..n]) + if accepted[n] then [] else [Normalised(batch[n], env(n)).id]
  }

  // ---------------------------------------------------------------- the manager

  class Manager {
    const db: DB
    const changeTracker: ChangeTracker
    const walEnabled: bool

    ghost predicate Valid()
      reads db, changeTracker
    {
      db.Valid() && changeTracker.Valid() && changeTracker.db == db
    }

    ghost function LaneOf(device: string): Lane
      reads db, changeTracker
    {
      Lane(QueueOf(changeTracker.changes, device), RowOf(db.syncMetadata, device))
    }

    constructor (db: DB, changeTracker: ChangeTracker, walEnabled: bool)
      requires db.Valid() && changeTracker.Valid() && changeTracker.db == db
      ensures Valid()
      ensures this.db == db && this.changeTracker == changeTracker && this.walEnabled == walEnabled
    {
      this.db, this.changeTracker, this.walEnabled := db, changeTracker, walEnabled;
    }

    method SyncIncomingWAL(device: string, limit: int, now: Time, f: SyncFaults) returns (reply: Result<seq<Message>>)
      requires Valid()
      modifies changeTracker, db`syncMetadata
      ensures Valid()
      ensures Pulled(LaneOf(device), reply) == PullWal(device, old(LaneOf(device)), limit, now, f)
      ensures forall d :: d != device ==> LaneOf(d) == old(LaneOf(d))
    {
      var changes := changeTracker.GetChangesForDevice(device, limit, f.read);
      if changes.Err? {
        return Err(changes.cause);
      }
      var messages, maxLsn := ConvertBatch(changes.value);
      if |messages| > 0 {
        var ok := RecordWatermark(device, maxLsn, now, f.reread, f.write);
        if !ok {
          return Err(Cause.Database);
        }
        changeTracker.ClearChangesForDevice(device, maxLsn);
      }
      return Ok(messages);
    }

    // The conversion loop of syncIncomingWAL.
    method ConvertBatch(changes: seq<WALChange>) returns (messages: seq<Message>, maxLsn: LSN)
      ensures messages == Converted(changes) && maxLsn == MaxLsn(changes)
    {
      messages, maxLsn := [], 0;
      for i := 0 to |changes|
        invariant messages == Converted(changes[..i]) && maxLsn == MaxLsn(changes[..i])
      {
        assert changes[..i + 1][..i] == changes[..i];
        var msg := Convert(changes[i]);
        if msg.Err? {
          continue;
        }
        messages := messages + [msg.value];
        if changes[i].lsn > maxLsn {
          maxLsn := changes[i].lsn;
        }
      }
      assert changes[..|changes|] == changes;
    }

    // The metadata update of syncIncomingWAL: read the row again, or start a new one, and write the watermark.
    method RecordWatermark(device: string, maxLsn: LSN, now: Time, reread: bool, write: bool) returns (ok: bool)
      requires db.Valid()
      modifies db`syncMetadata
      ensures db.Valid()
      ensures ok == !write
      ensures db.syncMetadata ==
        if ok then old(db.syncMetadata)[device := Advanced(device, RowOf(old(db.syncMetadata), device), reread, maxLsn, now)]
        else old(db.syncMetadata)
    {
      var found := db.GetSyncMetadata(device, reread);
      var sm := if found.Ok? then found.value else FreshRow(device, Syncing);
      sm := sm.(lastSyncedLsn := Some(LsnText(maxLsn)));
      sm := sm.(lastSyncTimestamp := Some(now), syncStatus := Idle);
      StoredText(sm, maxLsn);
      ok := db.UpdateSyncMetadata(sm, write);
    }

    method SyncIncomingPolling(device: string, limit: nat, now: Time, readFault: bool, failAt: nat)
      returns (reply: Result<seq<Message>>)
      requires Valid()
      modifies db`messages
      ensures Valid()
      ensures readFault ==> reply == Err(Cause.Database) && db.messages == old(db.messages)
      ensures !readFault ==>
        PollsTo(db.users, old(db.messages), device, limit, now, failAt, Polled(db.messages, reply))
    {
      var found := db.GetPendingMessagesForDevice(device, limit, readFault);
      if found.Err? {
        return Err(found.cause);
      }
      var page := found.value;
      for i := 0 to |page|
        invariant db.Valid()
        invariant i <= failAt
        invariant db.messages == MarkedSynced(old(db.messages), page, i, now)
      {
        var ok := db.UpdateMessageStatus(page[i].id, Synced, now, i == failAt);
        if !ok {
          return Err(Cause.Database);
        }
      }
      return Ok(page);
    }

    method SyncIncoming(device: string, limit: nat, now: Time, f: SyncFaults, failAt: nat)
      returns (reply: Result<seq<Message>>)
      requires Valid()
      modifies changeTracker, db`syncMetadata, db`messages
      ensures Valid()
      ensures forall d :: d != device ==> LaneOf(d) == old(LaneOf(d))
      ensures walEnabled ==>
        && Pulled(LaneOf(device), reply) == PullWal(device, old(LaneOf(device)), limit, now, f)
        && db.messages == old(db.messages)
      ensures !walEnabled ==>
        && LaneOf(device) == old(LaneOf(device))
        && (f.read ==> reply == Err(Cause.Database) && db.messages == old(db.messages))
        && (!f.read ==> PollsTo(db.users, old(db.messages), device, limit, now, failAt, Polled(db.messages, reply)))
    {
      if walEnabled {
        reply := SyncIncomingWAL(device, limit, now, f);
      } else {
        reply := SyncIncomingPolling(device, limit, now, f.read, failAt);
      }
    }

    // An UpdateSyncMetadata whose error PerformSync ignores.
    method SaveStatus(sm: SyncMetadata, fault: bool)
      requires Valid()
      modifies db`syncMetadata
      ensures Valid()
      ensures LaneOf(sm.deviceId) == old(LaneOf(sm.deviceId)).(row := Upserted(old(LaneOf(sm.deviceId)).row, sm, fault))
      ensures forall d :: d != sm.deviceId ==> LaneOf(d) == old(LaneOf(d))
    {
      var _ := db.UpdateSyncMetadata(sm, fault);
    }

    // PerformSync's opening: the row it read, or a new one, with the status set.
    method OpenStatus(device: string, read: bool, write: bool) returns (sm: SyncMetadata)
      requires Valid()
      modifies db`syncMetadata
      ensures Valid() && sm.deviceId == device
      ensures sm == PerformOpening(device, old(LaneOf(device)).row, read)
      ensures LaneOf(device) == old(LaneOf(device)).(row := Upserted(old(LaneOf(device)).row, sm, write))
      ensures forall d :: d != device ==> LaneOf(d) == old(LaneOf(d))
    {
      var found := db.GetSyncMetadata(device, read);
      if found.Err? {
        sm := FreshRow(device, Syncing);
      } else {
        sm := found.value.(syncStatus := Syncing);
      }
      SaveStatus(sm, write);
    }

    method PerformSync(device: string, now: Time, f: PerformFaults, failAt: nat) returns (ok: bool)
      requires Valid()
      modifies changeTracker, db`syncMetadata, db`messages
      ensures Valid()
      ensures forall d :: d != device ==> LaneOf(d) == old(LaneOf(d))
      ensures walEnabled ==>
        && LaneOf(device) == PerformWal(device, old(LaneOf(device)), now, f).lane
        && ok == PerformWal(device, old(LaneOf(device)), now, f).ok
        && db.messages == old(db.messages)
      ensures !walEnabled ==>
        && LaneOf(device).queue == old(LaneOf(device).queue)
        && LaneOf(device).row == PerformPollingRow(device, old(LaneOf(device)).row, ok, now, f)
        && (f.sync.read ==> !ok && db.messages == old(db.messages))
        && (!f.sync.read ==> PerformPolls(db.users, old(db.messages), device, now, failAt, db.messages, ok))
    {
      var sm := OpenStatus(device, f.read, f.write);
      var incoming := SyncIncoming(device, PERFORM_LIMIT, now, f.sync, failAt);
      if !walEnabled && !f.sync.read {
        PollIsPerformed(db.users, old(db.messages), device, now, failAt, Polled(db.messages, incoming));
      }
      ok := incoming.Ok?;
      if !ok {
        sm := sm.(syncStatus := Failed);
        SaveStatus(sm, f.finish);
        return;
      }
      sm := sm.(lastSyncTimestamp := Some(now), syncStatus := Idle, pendingOutgoingCount := 0);
      SaveStatus(sm, f.finish);
    }

    method SyncOutgoing(batch: seq<Message>, env: nat -> InsertInput)
      returns (syncedCount: nat, failedCount: nat, failed: seq<string>)
      requires Valid()
      modifies db`users, db`messages
      ensures Valid()
      ensures var u := Insert(old(db.users), old(db.messages), batch, env, |batch|);
              && db.users == u.users && db.messages == u.messages
              && syncedCount == CountTrue(u.accepted) && failedCount == |batch| - syncedCount
              && failed == FailedIds(batch, env, u.accepted)
    {
      syncedCount, failedCount, failed := 0, 0, [];
      for i := 0 to |batch|
        invariant db.Valid()
        invariant var u := Insert(old(db.users), old(db.messages), batch, env, i);
                  && db.users == u.users && db.messages == u.messages
                  && syncedCount == CountTrue(u.accepted) && failedCount == i - syncedCount
                  && failed == FailedIds(batch, env, u.accepted)
      {
        var ok, stored := db.CreateMessage(batch[i], env(i));
        ghost var before := Insert(old(db.users), old(db.messages), batch, env, i).accepted;
        assert (before + [ok])[..i] == before;
        if !ok {
          failedCount := failedCount + 1;
          failed := failed + [stored.id];
        } else {
          syncedCount := syncedCount + 1;
        }
      }
    }
  }
}
