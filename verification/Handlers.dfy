// The sync endpoints (sync-engine/internal/api/handlers/sync.go).
module Handlers {
  import opened Prelude
  import opened Models
  import opened Database
  import opened ChangeTracking
  import opened Syncing

  // Failures of the read and the write-back of the sender that follow a successful insert.
  datatype SenderFaults = SenderFaults(read: bool, write: bool)

  datatype Response = Response(syncedCount: nat, failedCount: nat, failed: seq<string>)

  // The limit rule of GetIncoming; None stands for a missing or non-numeric parameter.
  function IncomingLimit(query: Option<int>): (limit: nat)
    ensures limit > 0
    ensures query.Some? && query.value > 0 ==> limit == query.value
    ensures !(query.Some? && query.value > 0) ==> limit == 100
  {
    if query.Some? && query.value > 0 then query.value else 100
  }

  class SyncHandler {
    const db: DB
    const manager: Manager

    ghost predicate Valid()
      reads db, manager.changeTracker
    {
      manager.db == db && manager.Valid()
    }

    constructor (manager: Manager)
      requires manager.Valid()
      ensures Valid() && this.manager == manager && db == manager.db
    {
      this.manager, db := manager, manager.db;
    }

    // The write-back of the sender's row repeats what the insert trigger has already done, so whatever
    // becomes of it the tables are those of the inserts alone.
    method UploadOutgoing(batch: seq<Message>, env: nat -> InsertInput, senders: nat -> SenderFaults)
      returns (r: Response)
      requires Valid()
      modifies db`users, db`messages
      ensures Valid()
      ensures var u := Insert(old(db.users), old(db.messages), batch, env, |batch|);
              && db.users == u.users && db.messages == u.messages
              && r == Response(CountTrue(u.accepted), |batch| - CountTrue(u.accepted), FailedIds(batch, env, u.accepted))
    {
      var syncedCount: nat, failedCount: nat, failed: seq<string> := 0, 0, [];
      for i := 0 to |batch|
        invariant Valid()
        invariant var u := Insert(old(db.users), old(db.messages), batch, env, i);
                  && db.users == u.users && db.messages == u.messages
                  && syncedCount == CountTrue(u.accepted) && failedCount == i - syncedCount
                  && failed == FailedIds(batch, env, u.accepted)
      {
        ghost var before := Insert(old(db.users), old(db.messages), batch, env, i).accepted;
        var ok, stored := db.CreateMessage(batch[i], env(i));
        assert (before + [ok])[..i] == before;
        if !ok {
          failedCount := failedCount + 1;
          failed := failed + [stored.id];
        } else {
          syncedCount := syncedCount + 1;
          RewriteSender(stored, senders(i));
        }
      }
      r := Response(syncedCount, failedCount, failed);
    }

    // GetUserByID followed by UpdateUser with last_message_sent set.
    method RewriteSender(stored: Message, f: SenderFaults)
      requires Valid()
      requires stored.senderId in db.users ==> db.users[stored.senderId].lastMessageSent == Some(stored.content)
      modifies db`users
      ensures Valid()
      ensures db.users == old(db.users)
    {
      var sender := db.GetUserByID(stored.senderId, f.read);
      if sender.Ok? {
        var _ := db.UpdateUser(sender.value.(lastMessageSent := Some(stored.content)), f.write);
      }
    }

    // Creates the metadata row when it cannot read one, even if the row exists.
    method GetSyncStatus(device: string, read: bool, write: bool) returns (status: SyncMetadata)
      requires Valid()
      modifies db`syncMetadata
      ensures Valid()
      ensures var row := old(manager.LaneOf(device)).row;
        manager.LaneOf(device) ==
          if read || row.None? then old(manager.LaneOf(device)).(row := Upserted(row, FreshRow(device, Idle), write))
          else old(manager.LaneOf(device))
      ensures forall d :: d != device ==> manager.LaneOf(d) == old(manager.LaneOf(d))
      // It reports the row it read, or an idle one that has never synced, which is then the stored one.
      ensures !read && device in old(db.syncMetadata) ==> status == old(db.syncMetadata)[device]
      ensures read || device !in old(db.syncMetadata) ==>
        && status == SyncMetadata(device, None, None, 0, Idle)
        && (if write then db.syncMetadata == old(db.syncMetadata)
            else device in db.syncMetadata && db.syncMetadata[device] == status)
    {
      var found := db.GetSyncMetadata(device, read);
      if found.Err? {
        status := FreshRow(device, Idle);
        var _ := db.UpdateSyncMetadata(status, write);
      } else {
        status := found.value;
      }
    }
  }
}
