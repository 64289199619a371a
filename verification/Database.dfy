// The server's tables and the statements the engine runs on them
// (sync-engine/internal/database/queries.go, config/database-init.sql).
// Each statement is atomic. A statement that can fail for reasons outside the model takes a `fault` input.
module Database {
  import opened Prelude
  import opened Lsn
  import opened Models

  type Users = map<string, User>
  type Messages = map<string, Message>
  type Tokens = map<string, EnrollmentToken>
  type Metadata = map<string, SyncMetadata>

  // ---------------------------------------------------------------- sync_metadata

  function RowOf(meta: Metadata, device: string): Option<SyncMetadata> {
    if device in meta then Some(meta[device]) else None
  }

  // What the upsert stores for sm; a watermark the pg_lsn column cannot parse is refused.
  function Stored(sm: SyncMetadata): Option<SyncMetadata> {
    match sm.lastSyncedLsn
    case None => Some(sm)
    case Some(text) =>
      match ParseLSN(text)
      case Ok(l) => Some(sm.(lastSyncedLsn := Some(ColumnText(l))))
      case Err(_) => None
  }

  // The watermark as the tracker reads it: absent, empty and unreadable text all mean "none".
  function Watermark(sm: SyncMetadata): Option<LSN> {
    match sm.lastSyncedLsn
    case None => None
    case Some(text) =>
      if text == "" then None
      else
        match ParseLSN(text)
        case Ok(l) => Some(l)
        case Err(_) => None
  }

  // Storing a row keeps the watermark it was given.
  lemma StoredWatermark(sm: SyncMetadata)
    ensures Stored(sm).Some? ==> Watermark(Stored(sm).value) == Watermark(sm)
    ensures Stored(sm).Some? ==> Stored(sm).value == sm.(lastSyncedLsn := Stored(sm).value.lastSyncedLsn)
    ensures Stored(sm).None? ==> Watermark(sm) == None
  {
    if sm.lastSyncedLsn.Some? {
      var parsed := ParseLSN(sm.lastSyncedLsn.value);
      if parsed.Ok? {
        LsnRoundTrip(parsed.value);
      }
      assert ParseLSN("").Err?;
    }
  }

  lemma StoredText(sm: SyncMetadata, l: LSN)
    ensures Stored(sm.(lastSyncedLsn := Some(LsnText(l)))) == Some(sm.(lastSyncedLsn := Some(ColumnText(l))))
    ensures Watermark(sm.(lastSyncedLsn := Some(ColumnText(l)))) == Some(l)
  {
    LsnRoundTrip(l);
  }

  // ---------------------------------------------------------------- users

  predicate NameTaken(users: Users, name: string, except: string) {
    exists id | id in users :: id != except && users[id].username == name
  }

  predicate TokenKnown(tokens: Tokens, tokenId: Option<string>) {
    tokenId.None? || exists t | t in tokens :: tokens[t].id == tokenId.value
  }

  // UPDATE users SET ... WHERE id: no row, a constraint violation, or the whole row replaced.
  function SavedUser(users: Users, tokens: Tokens, user: User): Result<Users> {
    if user.id !in users then Ok(users)
    else if NameTaken(users, user.username, user.id) || user.userType.OtherType?
            || !TokenKnown(tokens, user.enrollmentTokenId) then Err(Constraint)
    else Ok(users[user.id := user])
  }

  // ---------------------------------------------------------------- messages

  // What the environment supplies to one insert: a possible failure, a fresh UUID and the clock.
  datatype InsertInput = InsertInput(fault: bool, freshId: string, now: Time)

  function Normalised(msg: Message, input: InsertInput): Message {
    Message(
      if msg.id == "" then input.freshId else msg.id,
      msg.senderId, msg.recipientId, msg.content,
      if msg.status == Blank then PendingSync else msg.status,
      if msg.createdAt == ZERO_TIME then input.now else msg.createdAt,
      input.now, None, None)
  }

  // Primary key, foreign keys and the status check of the messages table.
  predicate Insertable(users: Users, messages: Messages, m: Message) {
    m.id !in messages && m.senderId in users && m.recipientId in users
    && (m.status == PendingSync || m.status == Synced || m.status == Read)
  }

  predicate Inserts(users: Users, messages: Messages, msg: Message, input: InsertInput) {
    !input.fault && Insertable(users, messages, Normalised(msg, input))
  }

  // The AFTER INSERT trigger on messages.
  function Noted(users: Users, m: Message): Users {
    if m.senderId in users
    then users[m.senderId := users[m.senderId].(lastMessageSent := Some(m.content))]
    else users
  }

  function WithStatus(row: Message, status: Status, now: Time): Message {
    row.(status := status, updatedAt := now,
         syncedAt := if status == Synced then Some(now) else row.syncedAt,
         readAt := if status == Read then Some(now) else row.readAt)
  }

  function StatusUpdated(messages: Messages, id: string, status: Status, now: Time): Messages {
    if id in messages then messages[id := WithStatus(messages[id], status, now)] else messages
  }

  predicate PendingFor(users: Users, messages: Messages, device: string, id: string) {
    id in messages && messages[id].status == PendingSync
    && messages[id].recipientId in users && users[messages[id].recipientId].deviceId == Some(device)
  }

  ghost predicate OldestFirst(page: seq<Message>) {
    forall i, j :: 0 <= i < j < |page| ==> page[i].createdAt <= page[j].createdAt
  }

  function Ids(page: seq<Message>): (ids: seq<string>)
    ensures |ids| == |page|
    ensures forall i :: 0 <= i < |page| ==> ids[i] == page[i].id
  {
    seq(|page|, i requires 0 <= i < |page| => page[i].id)
  }

  lemma IdsSnoc(page: seq<Message>, m: Message)
    ensures Ids(page + [m]) == Ids(page) + [m.id]
  {
  }

  // The rows `WHERE status = 'pending_sync' ... ORDER BY created_at ASC LIMIT limit` may return.
  // Rows created at the same instant come in any order.
  ghost predicate PendingPage(users: Users, messages: Messages, device: string, limit: nat, page: seq<Message>) {
    && Distinct(Ids(page))
    && OldestFirst(page)
    && |page| <= limit
    && (forall i :: 0 <= i < |page| ==>
          PendingFor(users, messages, device, page[i].id) && messages[page[i].id] == page[i])
    && (forall id :: PendingFor(users, messages, device, id) && id !in Ids(page) ==>
          |page| == limit && forall i :: 0 <= i < |page| ==> page[i].createdAt <= messages[id].createdAt)
  }

  // ---------------------------------------------------------------- enrollment_tokens

  predicate Usable(tokens: Tokens, token: string, now: Time) {
    token in tokens && tokens[token].usedAt.None? && now < tokens[token].expiresAt
  }

  // `SELECT id FROM users WHERE device_id = device`: some holder, or none if there is none.
  predicate Holder(users: Users, device: string, found: Option<string>) {
    match found
    case Some(id) => id in users && users[id].deviceId == Some(device)
    case None => forall id | id in users :: users[id].deviceId != Some(device)
  }

  // INSERT INTO users ... ON CONFLICT (username) DO UPDATE.
  predicate Named(users: Users, name: string, found: Option<string>) {
    match found
    case Some(id) => id in users && users[id].username == name
    case None => forall id | id in users :: users[id].username != name
  }

  datatype EnrollInput = EnrollInput(token: string, device: string, username: string, now: Time, freshId: string, fault: bool)

  datatype Enrolled = Enrolled(users: Users, tokens: Tokens, result: Result<string>)

  // CompleteEnrollment as one transaction. `holder` is the row the device lookup found and `named`
  // the row that owns the username; any other database failure is `fault`.
  function Enroll(users: Users, tokens: Tokens, q: EnrollInput, holder: Option<string>, named: Option<string>): Enrolled
    requires Holder(users, q.device, holder) && Named(users, q.username, named)
  {
    if !Usable(tokens, q.token, q.now) then Enrolled(users, tokens, Err(TokenUnavailable))
    else if q.fault then Enrolled(users, tokens, Err(Database))
    else
      var spent := tokens[q.token := tokens[q.token].(usedAt := Some(q.now), deviceId := Some(q.device))];
      var tokenId := spent[q.token].id;
      match holder
      case Some(id) =>
        if NameTaken(users, q.username, id) then Enrolled(users, tokens, Err(Constraint))
        else
          Enrolled(
            users[id := users[id].(username := q.username, enrolledAt := Some(q.now), enrollmentTokenId := Some(tokenId))],
            spent, Ok(id))
      case None =>
        match named
        case Some(id) =>
          Enrolled(
            users[id := users[id].(deviceId := Some(q.device), enrolledAt := Some(q.now), enrollmentTokenId := Some(tokenId))],
            spent, Ok(id))
        case None =>
          if q.freshId in users then Enrolled(users, tokens, Err(Constraint))
          else
            Enrolled(
              users[q.freshId := User(q.freshId, q.username, Mobile, Some(q.device), false, None, Some(q.now), Some(tokenId), None)],
              spent, Ok(q.freshId))
  }

  // ---------------------------------------------------------------- the database handle

  class DB {
    var users: Users
    var messages: Messages
    var tokens: Tokens
    var syncMetadata: Metadata

    // Every row is filed under its own primary key.
    ghost predicate Valid()
      reads this
    {
      && (forall id :: id in users ==> users[id].id == id)
      && (forall id :: id in messages ==> messages[id].id == id)
      && (forall d :: d in syncMetadata ==> syncMetadata[d].deviceId == d)
    }

    constructor ()
      ensures Valid()
      ensures users == map[] && messages == map[] && tokens == map[] && syncMetadata == map[]
    {
      users, messages, tokens, syncMetadata := map[], map[], map[], map[];
    }

    method GetSyncMetadata(device: string, fault: bool) returns (r: Result<SyncMetadata>)
      ensures r == if fault then Err(Cause.Database) else if device in syncMetadata then Ok(syncMetadata[device]) else Err(NoRows)
    {
      if fault {
        r := Err(Cause.Database);
      } else if device in syncMetadata {
        r := Ok(syncMetadata[device]);
      } else {
        r := Err(NoRows);
      }
    }

    method UpdateSyncMetadata(sm: SyncMetadata, fault: bool) returns (ok: bool)
      requires Valid()
      modifies `syncMetadata
      ensures Valid()
      ensures ok == (!fault && Stored(sm).Some?)
      ensures syncMetadata == if ok then old(syncMetadata)[sm.deviceId := Stored(sm).value] else old(syncMetadata)
    {
      var row := Stored(sm);
      ok := !fault && row.Some?;
      if ok {
        syncMetadata := syncMetadata[sm.deviceId := row.value];
      }
    }

    method GetUserByID(id: string, fault: bool) returns (r: Result<User>)
      ensures r == if fault then Err(Cause.Database) else if id in users then Ok(users[id]) else Err(NoRows)
    {
      if fault {
        r := Err(Cause.Database);
      } else if id in users {
        r := Ok(users[id]);
      } else {
        r := Err(NoRows);
      }
    }

    method UpdateUser(user: User, fault: bool) returns (ok: bool)
      requires Valid()
      modifies `users
      ensures Valid()
      ensures ok == (!fault && SavedUser(old(users), tokens, user).Ok?)
      ensures users == if ok then SavedUser(old(users), tokens, user).value else old(users)
    {
      var saved := SavedUser(users, tokens, user);
      ok := !fault && saved.Ok?;
      if ok {
        users := saved.value;
      }
    }

    method CreateMessage(msg: Message, input: InsertInput) returns (ok: bool, stored: Message)
      requires Valid()
      modifies `users, `messages
      ensures Valid()
      ensures stored == Normalised(msg, input)
      ensures ok == Inserts(old(users), old(messages), msg, input)
      ensures messages == if ok then old(messages)[stored.id := stored] else old(messages)
      ensures users == if ok then Noted(old(users), stored) else old(users)
    {
      stored := Normalised(msg, input);
      ok := !input.fault && Insertable(users, messages, stored);
      if ok {
        messages := messages[stored.id := stored];
        users := Noted(users, stored);
      }
    }

    method UpdateMessageStatus(id: string, status: Status, now: Time, fault: bool) returns (ok: bool)
      requires Valid()
      modifies `messages
      ensures Valid()
      ensures ok == !fault
      ensures messages == if ok then StatusUpdated(old(messages), id, status, now) else old(messages)
    {
      ok := !fault;
      if ok {
        messages := StatusUpdated(messages, id, status, now);
      }
    }

    // Takes the oldest remaining candidate until the limit or the candidates run out.
    method GetPendingMessagesForDevice(device: string, limit: nat, fault: bool) returns (r: Result<seq<Message>>)
      requires Valid()
      ensures fault ==> r == Err(Cause.Database)
      ensures !fault ==> r.Ok? && PendingPage(users, messages, device, limit, r.value)
    {
      if fault {
        return Err(Cause.Database);
      }
      var pending := set id | id in messages && PendingFor(users, messages, device, id);
      var rest := pending;
      var page: seq<Message> := [];
      while |page| < limit && rest != {}
        invariant |page| <= limit
        invariant Distinct(Ids(page)) && OldestFirst(page)
        invariant forall i :: 0 <= i < |page| ==>
          page[i].id in pending && messages[page[i].id] == page[i] && page[i].id !in rest
        invariant rest <= pending
        invariant forall id :: id in pending ==> id in rest || id in Ids(page)
        invariant forall i, id :: 0 <= i < |page| && id in rest ==> page[i].createdAt <= messages[id].createdAt
        decreases |rest|
      {
        var oldest := Oldest(rest);
        IdsSnoc(page, messages[oldest]);
        page := page + [messages[oldest]];
        rest := rest - {oldest};
      }
      r := Ok(page);
    }

    method Oldest(ids: set<string>) returns (oldest: string)
      requires ids != {} && ids <= messages.Keys
      ensures oldest in ids
      ensures forall id :: id in ids ==> messages[oldest].createdAt <= messages[id].createdAt
    {
      oldest :| oldest in ids;
      var rest := ids - {oldest};
      while rest != {}
        invariant oldest in ids && rest <= ids
        invariant forall id :: id in ids && id !in rest ==> messages[oldest].createdAt <= messages[id].createdAt
        decreases |rest|
      {
        var id :| id in rest;
        if messages[id].createdAt < messages[oldest].createdAt {
          oldest := id;
        }
        rest := rest - {id};
      }
    }

    method CreateEnrollmentToken(token: string, row: EnrollmentToken, fault: bool) returns (ok: bool)
      modifies `tokens
      ensures ok == (!fault && token !in old(tokens) && row.createdBy in users
                     && forall t | t in old(tokens) :: old(tokens)[t].id != row.id)
      ensures tokens == if ok then old(tokens)[token := row.(usedAt := None, deviceId := None)] else old(tokens)
    {
      ok := !fault && token !in tokens && row.createdBy in users && forall t | t in tokens :: tokens[t].id != row.id;
      if ok {
        tokens := tokens[token := row.(usedAt := None, deviceId := None)];
      }
    }

    method GetEnrollmentToken(token: string, fault: bool) returns (r: Result<EnrollmentToken>)
      ensures r == if fault then Err(Cause.Database) else if token in tokens then Ok(tokens[token]) else Err(NoRows)
    {
      if fault {
        r := Err(Cause.Database);
      } else if token in tokens {
        r := Ok(tokens[token]);
      } else {
        r := Err(NoRows);
      }
    }

    // The statements work on the transaction's own copies; only the commit at the end publishes them.
    method CompleteEnrollment(q: EnrollInput) returns (r: Result<string>)
      requires Valid()
      modifies `users, `tokens
      ensures Valid()
      ensures exists holder, named ::
        && Holder(old(users), q.device, holder) && Named(old(users), q.username, named)
        && Enrolled(users, tokens, r) == Enroll(old(users), old(tokens), q, holder, named)
    {
      ghost var someHolder, someName := Lookups(q.device, q.username);
      var txUsers, txTokens := users, tokens;
      if !Usable(txTokens, q.token, q.now) {
        return Err(TokenUnavailable);
      }
      if q.fault {
        return Err(Cause.Database);
      }
      txTokens := txTokens[q.token := txTokens[q.token].(usedAt := Some(q.now), deviceId := Some(q.device))];
      var tokenId := txTokens[q.token].id;
      var holder, named := Lookups(q.device, q.username);
      if holder.Some? {
        if NameTaken(txUsers, q.username, holder.value) {
          return Err(Constraint);
        }
        txUsers := txUsers[holder.value := txUsers[holder.value].(
          username := q.username, enrolledAt := Some(q.now), enrollmentTokenId := Some(tokenId))];
        r := Ok(holder.value);
      } else if named.Some? {
        txUsers := txUsers[named.value := txUsers[named.value].(
          deviceId := Some(q.device), enrolledAt := Some(q.now), enrollmentTokenId := Some(tokenId))];
        r := Ok(named.value);
      } else {
        if q.freshId in txUsers {
          return Err(Constraint);
        }
        txUsers := txUsers[q.freshId :=
          User(q.freshId, q.username, Mobile, Some(q.device), false, None, Some(q.now), Some(tokenId), None)];
        r := Ok(q.freshId);
      }
      users, tokens := txUsers, txTokens;
    }

    // The two point queries of the transaction: who holds the device, who owns the name.
    method Lookups(device: string, name: string) returns (holder: Option<string>, named: Option<string>)
      ensures Holder(users, device, holder) && Named(users, name, named)
    {
      holder, named := None, None;
      if id :| id in users && users[id].deviceId == Some(device) {
        holder := Some(id);
      }
      if id :| id in users && users[id].username == name {
        named := Some(id);
      }
    }
  }
}
