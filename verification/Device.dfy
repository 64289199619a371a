// The mobile client's store and its half of the protocol (mobile/lib/core/database/database.dart,
// mobile/lib/core/sync/sync_service.dart).
module Device {
  import opened Prelude
  import opened Models
  import opened Database
  import opened Syncing
  import opened Handlers

  type Store = map<string, Message>

  // What _syncIncoming files for a delivered message.
  function Filed(m: Message, now: Time): Message {
    Message(m.id, m.senderId, m.recipientId, m.content, Synced, m.createdAt, m.updatedAt, Some(now), None)
  }

  // Insert-or-replace of the messages, in order.
  function FiledAll(store: Store, msgs: seq<Message>, now: Time): Store {
    if msgs == [] then store
    else
      var m := msgs[|msgs| - 1];
      FiledAll(store, msgs[..|msgs| - 1], now)[m.id := Filed(m, now)]
  }

  function UsersReplaced(users: Users, list: seq<User>): Users {
    if list == [] then users
    else
      var u := list[|list| - 1];
      UsersReplaced(users, list[..|list| - 1])[u.id := u]
  }

  function WithLocalStatus(store: Store, id: string, status: Status): Store {
    if id in store then store[id := store[id].(status := status)] else store
  }

  // The store after the first n messages of a batch were marked synced.
  function MarkFirst(store: Store, batch: seq<Message>, n: nat): Store
    requires n <= |batch|
  {
    if n == 0 then store else WithLocalStatus(MarkFirst(store, batch, n - 1), batch[n - 1].id, Synced)
  }

  // `SELECT ... WHERE status = 'pending_sync'` in some order.
  ghost predicate Pending(store: Store, batch: seq<Message>) {
    && Distinct(Ids(batch))
    && (forall i :: 0 <= i < |batch| ==>
          batch[i].id in store && store[batch[i].id] == batch[i] && batch[i].status == PendingSync)
    && (forall id :: id in store && store[id].status == PendingSync ==> id in Ids(batch))
  }

  class AppDatabase {
    var messages: Store
    var users: Users

    ghost predicate Valid()
      reads this
    {
      forall id :: id in messages ==> messages[id].id == id
    }

    constructor ()
      ensures Valid() && messages == map[] && users == map[]
    {
      messages, users := map[], map[];
    }

    method GetPendingMessages() returns (batch: seq<Message>)
      requires Valid()
      ensures Pending(messages, batch)
    {
      var pending := set id | id in messages && messages[id].status == PendingSync;
      var rest := pending;
      batch := [];
      while rest != {}
        invariant rest <= pending
        invariant Distinct(Ids(batch))
        invariant forall i :: 0 <= i < |batch| ==> batch[i].id in pending && messages[batch[i].id] == batch[i] && batch[i].id !in rest
        invariant forall id :: id in pending ==> id in rest || id in Ids(batch)
        decreases |rest|
      {
        var id :| id in rest;
        IdsSnoc(batch, messages[id]);
        batch := batch + [messages[id]];
        rest := rest - {id};
      }
    }

    method InsertMessage(m: Message)
      requires Valid()
      modifies `messages
      ensures Valid()
      ensures messages == old(messages)[m.id := m]
    {
      messages := messages[m.id := m];
    }

    method UpdateMessageStatus(id: string, status: Status)
      requires Valid()
      modifies `messages
      ensures Valid()
      ensures messages == WithLocalStatus(old(messages), id, status)
    {
      messages := WithLocalStatus(messages, id, status);
    }

    // Replaces rows unconditionally, whichever side is newer; the batch is one transaction.
    method InsertUsers(list: seq<User>, fault: bool)
      modifies `users
      ensures users == if fault then old(users) else UsersReplaced(old(users), list)
    {
      if fault {
        return;
      }
      var txUsers := users;
      for i := 0 to |list|
        invariant txUsers == UsersReplaced(old(users), list[..i])
      {
        assert list[..i + 1][..i] == list[..i];
        txUsers := txUsers[list[i].id := list[i]];
      }
      assert list[..|list|] == list;
      users := txUsers;
    }
  }

  class SyncService {
    const database: AppDatabase
    const server: SyncHandler

    ghost predicate Valid()
      reads database, server.db, server.manager.changeTracker
    {
      database.Valid() && server.Valid()
    }

    constructor (database: AppDatabase, server: SyncHandler)
      requires database.Valid() && server.Valid()
      ensures Valid() && this.database == database && this.server == server
    {
      this.database, this.server := database, server;
    }

    // _syncIncoming on a response. An error response changes nothing. An exception at message failAt keeps what
    // was filed before it and drops the rest; one in the users' part leaves all users as they were.
    method SyncIncoming(response: Result<seq<Message>>, users: seq<User>, now: Time, failAt: nat, usersFault: bool)
      requires Valid()
      modifies database
      ensures Valid()
      ensures response.Err? ==> database.messages == old(database.messages) && database.users == old(database.users)
      ensures response.Ok? ==>
        var n := |response.value|;
        && database.messages == FiledAll(old(database.messages), response.value[..Min(failAt, n)], now)
        && database.users ==
             if failAt < n || usersFault then old(database.users) else UsersReplaced(old(database.users), users)
    {
      if response.Err? {
        return;
      }
      var msgs := response.value;
      for i := 0 to Min(failAt, |msgs|)
        invariant database.Valid() && database.users == old(database.users)
        invariant database.messages == FiledAll(old(database.messages), msgs[..i], now)
      {
        assert msgs[..i + 1][..i] == msgs[..i];
        database.InsertMessage(Filed(msgs[i], now));
      }
      if failAt < |msgs| {
        return;
      }
      if |users| > 0 {
        database.InsertUsers(users, usersFault);
      }
    }

    // _syncOutgoing against the server; `lost` says that the response does not arrive, and an exception at
    // mark number failAt stops the marking.
    method SyncOutgoing(env: nat -> InsertInput, senders: nat -> SenderFaults, lost: bool, failAt: nat)
      returns (batch: seq<Message>)
      requires Valid()
      modifies database`messages, server.db`users, server.db`messages
      ensures Valid()
      ensures Pending(old(database.messages), batch)
      ensures var u := Insert(old(server.db.users), old(server.db.messages), batch, env, |batch|);
        && server.db.users == u.users && server.db.messages == u.messages
        && database.messages ==
             if lost then old(database.messages) else MarkFirst(old(database.messages), batch, Min(CountTrue(u.accepted), failAt))
    {
      batch := database.GetPendingMessages();
      if |batch| == 0 {
        return;
      }
      var response := server.UploadOutgoing(batch, env, senders);
      if lost {
        return;
      }
      if response.syncedCount > 0 {
        MarkTaken(batch, response.syncedCount, failAt);
      }
    }

    // for (final msg in pendingMessages.take(syncedCount))
    method MarkTaken(batch: seq<Message>, syncedCount: nat, failAt: nat)
      requires Valid()
      modifies database`messages
      ensures Valid()
      ensures database.messages == MarkFirst(old(database.messages), batch, Min(Min(syncedCount, |batch|), failAt))
    {
      for i := 0 to Min(Min(syncedCount, |batch|), failAt)
        invariant Valid()
        invariant database.messages == MarkFirst(old(database.messages), batch, i)
      {
        database.UpdateMessageStatus(batch[i].id, Synced);
      }
    }
  }
}
