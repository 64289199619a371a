// What the statements leave in the tables, column by column, and when a constraint refuses them.
module Statements {
  import opened Prelude
  import opened Lsn
  import opened Models
  import opened Database
  import opened Syncing

  // ---------------------------------------------------------------- inserted messages

  // The id under which an upload files a message.
  function RowId(msg: Message, input: InsertInput): string {
    if msg.id == "" then input.freshId else msg.id
  }

  // The row keeps what its author wrote. A missing status or creation time is filled in; the rest is the server's.
  ghost predicate KeepsSubmission(row: Message, msg: Message, input: InsertInput) {
    && row.id == RowId(msg, input)
    && row.senderId == msg.senderId && row.recipientId == msg.recipientId && row.content == msg.content
    && (msg.status != Blank ==> row.status == msg.status)
    && (msg.status == Blank ==> row.status == PendingSync)
    && (msg.createdAt != ZERO_TIME ==> row.createdAt == msg.createdAt)
    && (msg.createdAt == ZERO_TIME ==> row.createdAt == input.now)
    && row.updatedAt == input.now && row.syncedAt.None? && row.readAt.None?
  }

  // An insert goes through exactly if the statement does not fail, the id is new, both users exist and the
  // status is one of the three the table knows, or blank.
  lemma InsertsExact(users: Users, messages: Messages, msg: Message, input: InsertInput)
    ensures Inserts(users, messages, msg, input) <==>
      && !input.fault && RowId(msg, input) !in messages
      && msg.senderId in users && msg.recipientId in users && !msg.status.OtherStatus?
  {
  }

  // One more insert: the new row if it goes through, and every other row as it was.
  lemma InsertOneRow(u: Uploaded, msg: Message, input: InsertInput)
    ensures var u' := InsertOne(u, msg, input);
      && u'.accepted == u.accepted + [Inserts(u.users, u.messages, msg, input)]
      && (forall id :: id in u.messages ==> id in u'.messages && u'.messages[id] == u.messages[id])
      && (forall id :: id in u'.messages ==> id in u.messages || id == RowId(msg, input))
      && (Inserts(u.users, u.messages, msg, input) ==>
            RowId(msg, input) in u'.messages && KeepsSubmission(u'.messages[RowId(msg, input)], msg, input))
      && (!Inserts(u.users, u.messages, msg, input) ==> u'.messages == u.messages)
  {
  }

  // After the inserts of a batch every accepted message is in the table as submitted, and no older row has
  // changed.
  lemma {:induction false} UploadedRows(users: Users, stored: Messages, batch: seq<Message>, env: nat -> InsertInput, n: nat)
    requires n <= |batch|
    ensures var u := Insert(users, stored, batch, env, n);
      && (forall id :: id in stored ==> id in u.messages && u.messages[id] == stored[id])
      && (forall i :: 0 <= i < n && u.accepted[i] ==>
            var id := RowId(batch[i], env(i));
            id !in stored && id in u.messages && KeepsSubmission(u.messages[id], batch[i], env(i)))
  {
    if n > 0 {
      UploadedRows(users, stored, batch, env, n - 1);
      var p, u := Insert(users, stored, batch, env, n - 1), Insert(users, stored, batch, env, n);
      InsertOneRow(p, batch[n - 1], env(n - 1));
      InsertsExact(p.users, p.messages, batch[n - 1], env(n - 1));
      forall i | 0 <= i < n && u.accepted[i]
        ensures var id := RowId(batch[i], env(i));
          id !in stored && id in u.messages && KeepsSubmission(u.messages[id], batch[i], env(i))
      {
        if i < n - 1 {
          assert p.accepted[i];
        }
      }
    }
  }

  // ---------------------------------------------------------------- status changes

  // Marking a row synced or read stamps that event, and only that one; author, content and creation stay, and so
  // do all other rows.
  lemma StatusRow(messages: Messages, id: string, status: Status, now: Time)
    ensures var after := StatusUpdated(messages, id, status, now);
      && after.Keys == messages.Keys
      && (forall other :: other in messages && other != id ==> after[other] == messages[other])
      && (id in messages ==>
            && (status == Synced ==> after[id] == messages[id].(status := Synced, updatedAt := now, syncedAt := Some(now)))
            && (status == Read ==> after[id] == messages[id].(status := Read, updatedAt := now, readAt := Some(now)))
            && (status != Synced && status != Read ==> after[id] == messages[id].(status := status, updatedAt := now)))
  {
  }

  // ---------------------------------------------------------------- users

  // The full-row update replaces one existing row, unless another user has the name, the type is unknown or the
  // row names a token that does not exist; without such a row it does nothing.
  lemma UserSaved(users: Users, tokens: Tokens, user: User)
    ensures SavedUser(users, tokens, user).Ok? <==>
      (user.id in users ==>
         && (forall id :: id in users && users[id].username == user.username ==> id == user.id)
         && (user.userType == Web || user.userType == Mobile)
         && (user.enrollmentTokenId.Some? ==> exists t :: t in tokens && tokens[t].id == user.enrollmentTokenId.value))
    ensures SavedUser(users, tokens, user).Ok? ==>
      var after := SavedUser(users, tokens, user).value;
      && after.Keys == users.Keys
      && forall id :: id in users ==> after[id] == if id == user.id then user else users[id]
  {
  }

  // ---------------------------------------------------------------- sync metadata

  // The watermark is what the stored text parses to, and there is none exactly if it does not parse or is missing.
  lemma WatermarkExact(sm: SyncMetadata, l: LSN)
    ensures Watermark(sm) == Some(l) <==> sm.lastSyncedLsn.Some? && ParseLSN(sm.lastSyncedLsn.value) == Ok(l)
  {
    assert ParseLSN("").Err?;
  }

  // The upsert refuses a row exactly if it carries text that does not parse.
  lemma StorableExact(sm: SyncMetadata)
    ensures Stored(sm).Some? <==> (sm.lastSyncedLsn.Some? ==> ParseLSN(sm.lastSyncedLsn.value).Ok?)
  {
  }
}
