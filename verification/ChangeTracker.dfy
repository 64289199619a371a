// Per-device queues of WAL changes (sync-engine/internal/sync/change_tracker.go).
module ChangeTracking {
  import opened Prelude
  import opened Lsn
  import opened Models
  import opened Database

  type Queues = map<string, seq<WALChange>>

  function QueueOf(changes: Queues, device: string): seq<WALChange> {
    if device in changes then changes[device] else []
  }

  // ---------------------------------------------------------------- routing, declaratively

  // recipient_id of the change; an UPDATE that does not carry it falls back to the old row.
  function Recipient(c: WALChange): Value {
    if c.columns.recipientId != Absent then c.columns.recipientId
    else if c.operation == UPDATE then c.oldColumns.recipientId
    else Absent
  }

  function NewSender(c: WALChange): string {
    TextOr(c.columns.senderId, "")
  }

  function OldSender(c: WALChange): string {
    if c.operation == UPDATE then TextOr(c.oldColumns.senderId, "") else ""
  }

  predicate Supported(c: WALChange) {
    c.operation == INSERT || c.operation == UPDATE
  }

  predicate Routable(c: WALChange) {
    && c.table == "messages" && Supported(c)
    && Recipient(c).Text?
    && (NewSender(c) != "" || OldSender(c) != "")
  }

  // user is enrolled on this (non-empty) device
  predicate Holds(users: Users, user: string, device: string) {
    user in users && users[user].deviceId == Some(device) && device != ""
  }

  predicate IsSender(c: WALChange, user: string) {
    user != "" && (user == NewSender(c) || user == OldSender(c))
  }

  // The change belongs in this device's queue: its recipient is on the device and no sender of the change is.
  ghost predicate Delivers(users: Users, c: WALChange, device: string) {
    && Routable(c)
    && Holds(users, Recipient(c).text, device)
    && !exists s :: IsSender(c, s) && Holds(users, s, device)
  }

  // Which of AddChange's three user lookups fail.
  datatype LookupFaults = LookupFaults(recipient: bool, sender: bool, oldSender: bool)

  // A lookup that AddChange actually performs fails.
  predicate LookupFails(c: WALChange, f: LookupFaults) {
    && Routable(c)
    && (f.recipient || (NewSender(c) != "" && f.sender)
        || (OldSender(c) != "" && OldSender(c) != NewSender(c) && f.oldSender))
  }

  // ---------------------------------------------------------------- reading and pruning a queue

  predicate Above(c: WALChange, mark: Option<LSN>) {
    mark.None? || c.lsn > mark.value
  }

  // The changes above the mark, in queue order.
  function Newer(q: seq<WALChange>, mark: Option<LSN>): (r: seq<WALChange>) {
    if q == [] then []
    else
      var last := q[|q| - 1];
      Newer(q[..|q| - 1], mark) + if Above(last, mark) then [last] else []
  }

  function Page(q: seq<WALChange>, limit: int): seq<WALChange> {
    if limit > 0 && |q| > limit then q[..limit] else q
  }

  lemma {:induction false} NewerConcat(a: seq<WALChange>, b: seq<WALChange>, mark: Option<LSN>)
    ensures Newer(a + b, mark) == Newer(a, mark) + Newer(b, mark)
  {
    if b == [] {
      assert a + b == a;
    } else {
      assert (a + b)[..|a + b| - 1] == a + b[..|b| - 1];
      NewerConcat(a, b[..|b| - 1], mark);
    }
  }

  lemma {:induction false} NewerKeepsAll(q: seq<WALChange>, mark: Option<LSN>)
    requires forall i :: 0 <= i < |q| ==> Above(q[i], mark)
    ensures Newer(q, mark) == q
  {
    if q != [] {
      NewerKeepsAll(q[..|q| - 1], mark);
      assert q == q[..|q| - 1] + [q[|q| - 1]];
    }
  }

  lemma {:induction false} NewerDropsAll(q: seq<WALChange>, mark: Option<LSN>)
    requires forall i :: 0 <= i < |q| ==> !Above(q[i], mark)
    ensures Newer(q, mark) == []
  {
    if q != [] {
      NewerDropsAll(q[..|q| - 1], mark);
    }
  }

  lemma {:induction false} NewerMembers(q: seq<WALChange>, mark: Option<LSN>, c: WALChange)
    ensures c in Newer(q, mark) <==> c in q && Above(c, mark)
  {
    if q != [] {
      NewerMembers(q[..|q| - 1], mark, c);
      assert q == q[..|q| - 1] + [q[|q| - 1]];
    }
  }

  // ---------------------------------------------------------------- conversion

  // ConvertWALChangeToMessage
  function Convert(c: WALChange): Result<Message> {
    if !Supported(c) then Err(Unsupported)
    else
      Ok(Message(
           TextOr(c.columns.id, ""), TextOr(c.columns.senderId, ""), TextOr(c.columns.recipientId, ""),
           TextOr(c.columns.content, ""),
           if c.columns.status.Text? then StatusOf(c.columns.status.text) else PendingSync,
           InstantOr(c.columns.createdAt, c.commitTime), InstantOr(c.columns.updatedAt, c.commitTime),
           InstantOrNone(c.columns.syncedAt), InstantOrNone(c.columns.readAt)))
  }

  // ---------------------------------------------------------------- the tracker

  class ChangeTracker {
    const db: DB
    var changes: Queues

    // Nothing enters a queue that the conversion would later reject.
    ghost predicate Valid()
      reads this
    {
      forall d, c :: d in changes && c in changes[d] ==> Convert(c).Ok?
    }

    constructor (db: DB)
      ensures this.db == db && changes == map[] && Valid()
    {
      this.db := db;
      changes := map[];
    }

    method AddChange(change: WALChange, f: LookupFaults) returns (ok: bool)
      requires Valid()
      modifies this
      ensures Valid()
      ensures ok == !LookupFails(change, f)
      ensures !ok ==> changes == old(changes)
      ensures ok ==> forall d ::
        QueueOf(changes, d) == QueueOf(old(changes), d) + (if Delivers(db.users, change, d) then [change] else [])
    {
      ok := true;
      if change.table != "messages" || !(change.operation == INSERT || change.operation == UPDATE) {
        return;
      }
      var recipientId := change.columns.recipientId;
      if recipientId == Absent {
        if change.operation == UPDATE {
          recipientId := change.oldColumns.recipientId;
        }
        if recipientId == Absent {
          return;
        }
      }
      if !recipientId.Text? {
        return;
      }
      var senderId, oldSenderId := "", "";
      if change.columns.senderId.Text? {
        senderId := change.columns.senderId.text;
      }
      if change.operation == UPDATE && change.oldColumns.senderId.Text? {
        oldSenderId := change.oldColumns.senderId.text;
      }
      if senderId == "" && oldSenderId == "" {
        return;
      }

      var recipientDevices := GetDevicesForUser(recipientId.text, f.recipient);
      if recipientDevices.Err? {
        return false;
      }
      var senderDevices := SenderDevices(senderId, oldSenderId, f);
      if senderDevices.Err? {
        return false;
      }
      var filtered: seq<string> := [];
      for i := 0 to |recipientDevices.value|
        invariant Distinct(filtered)
        invariant forall d :: d in filtered <==> d in recipientDevices.value[..i] && d !in senderDevices.value
      {
        if recipientDevices.value[i] !in senderDevices.value {
          filtered := filtered + [recipientDevices.value[i]];
        }
      }
      assert forall s :: IsSender(change, s) <==> s != "" && (s == senderId || s == oldSenderId);
      assert forall d :: d in filtered <==> Delivers(db.users, change, d);
      AppendToQueues(filtered, change);
    }

    // The devices that already have the message because one of its senders is enrolled there.
    method SenderDevices(senderId: string, oldSenderId: string, f: LookupFaults) returns (r: Result<set<string>>)
      ensures r.Err? <==> (senderId != "" && f.sender) || (oldSenderId != "" && oldSenderId != senderId && f.oldSender)
      ensures r.Ok? ==> forall d :: d in r.value <==>
        (exists s :: s != "" && (s == senderId || s == oldSenderId) && Holds(db.users, s, d))
    {
      var found: set<string> := {};
      if senderId != "" {
        var devices := GetDevicesForUser(senderId, f.sender);
        if devices.Err? {
          return Err(devices.cause);
        }
        found := Elements(devices.value);
      }
      if oldSenderId != "" && oldSenderId != senderId {
        var devices := GetDevicesForUser(oldSenderId, f.oldSender);
        if devices.Err? {
          return Err(devices.cause);
        }
        found := found + Elements(devices.value);
      }
      return Ok(found);
    }

    // The section of AddChange that holds the write lock.
    method AppendToQueues(devices: seq<string>, change: WALChange)
      requires Valid() && Distinct(devices) && Convert(change).Ok?
      modifies this
      ensures Valid()
      ensures forall d :: QueueOf(changes, d) == QueueOf(old(changes), d) + (if d in devices then [change] else [])
    {
      for i := 0 to |devices|
        invariant Valid()
        invariant forall d :: QueueOf(changes, d) == QueueOf(old(changes), d) + (if d in devices[..i] then [change] else [])
      {
        var device := devices[i];
        if device !in changes {
          changes := changes[device := []];
        }
        changes := changes[device := changes[device] + [change]];
      }
    }

    // getDevicesForRecipient and getDevicesForSender: the user's device, if there is one.
    method GetDevicesForUser(id: string, fault: bool) returns (r: Result<seq<string>>)
      ensures r.Err? == fault
      ensures r.Ok? ==> |r.value| <= 1 && forall d :: d in r.value <==> Holds(db.users, id, d)
      ensures r.Ok? ==> forall d :: d in r.value <==> id in db.users && db.users[id].deviceId == Some(d) && d != ""
    {
      var user := db.GetUserByID(id, fault);
      if user.Err? {
        return if user.cause == NoRows then Ok([]) else Err(user.cause);
      }
      if user.value.deviceId.None? || user.value.deviceId.value == "" {
        return Ok([]);
      }
      return Ok([user.value.deviceId.value]);
    }

    method GetChangesForDevice(device: string, limit: int, fault: bool) returns (r: Result<seq<WALChange>>)
      ensures r == if fault then Err(Cause.Database)
                   else if device !in db.syncMetadata then Err(NoRows)
                   else Ok(Page(Newer(QueueOf(changes, device), Watermark(db.syncMetadata[device])), limit))
    {
      var sm := db.GetSyncMetadata(device, fault);
      if sm.Err? {
        return Err(sm.cause);
      }
      if device !in changes {
        return Ok([]);
      }
      var q := changes[device];
      var filtered: seq<WALChange> := [];
      for i := 0 to |q|
        invariant filtered == Newer(q[..i], Watermark(sm.value))
      {
        assert q[..i + 1][..i] == q[..i];
        if sm.value.lastSyncedLsn.None? || sm.value.lastSyncedLsn.value == "" {
          filtered := filtered + [q[i]];
        } else {
          var lastLsn := ParseLSN(sm.value.lastSyncedLsn.value);
          if lastLsn.Err? {
            filtered := filtered + [q[i]];
          } else if q[i].lsn > lastLsn.value {
            filtered := filtered + [q[i]];
          }
        }
      }
      assert q[..|q|] == q;
      if limit > 0 && |filtered| > limit {
        filtered := filtered[..limit];
      }
      return Ok(filtered);
    }

    method ClearChangesForDevice(device: string, syncedLsn: LSN)
      requires Valid()
      modifies this
      ensures Valid()
      ensures changes == if device in old(changes)
                         then old(changes)[device := Newer(old(changes)[device], Some(syncedLsn))] else old(changes)
    {
      if device !in changes {
        return;
      }
      var q := changes[device];
      var filtered: seq<WALChange> := [];
      for i := 0 to |q|
        invariant filtered == Newer(q[..i], Some(syncedLsn))
      {
        assert q[..i + 1][..i] == q[..i];
        if q[i].lsn > syncedLsn {
          filtered := filtered + [q[i]];
        }
      }
      assert q[..|q|] == q;
      forall c | c in filtered
        ensures c in q
      {
        NewerMembers(q, Some(syncedLsn), c);
      }
      changes := changes[device := filtered];
    }
  }
}
