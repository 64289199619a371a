// Replaying deliveries into the device's insert-or-replace store.
module Convergence {
  import opened Prelude
  import opened Models
  import opened Database
  import opened ChangeTracking
  import opened Syncing
  import opened Device
  import opened Delivery
  import opened DeliveryRuns

  // No later message of the sequence has the same id.
  predicate IsLast(msgs: seq<Message>, i: nat)
    requires i < |msgs|
  {
    forall j :: i < j < |msgs| ==> msgs[j].id != msgs[i].id
  }

  // The store holds, for every id that occurs in msgs and no other, the body of its last occurrence.
  ghost predicate ReplicaOf(store: Store, msgs: seq<Message>) {
    && (forall id :: id in store ==> exists i :: 0 <= i < |msgs| && msgs[i].id == id)
    && (forall i :: 0 <= i < |msgs| && IsLast(msgs, i) ==> msgs[i].id in store && SameBody(store[msgs[i].id], msgs[i]))
  }

  // What the device holds after filing every batch it received, each at its own time.
  function DeviceStore(batches: seq<Batch>, clock: nat -> Time): Store {
    if batches == [] then map[]
    else
      var n := |batches| - 1;
      var before := DeviceStore(batches[..n], clock);
      if batches[n].toClient then FiledAll(before, batches[n].msgs, clock(n)) else before
  }

  lemma FileOne(store: Store, before: seq<Message>, m: Message, now: Time)
    requires ReplicaOf(store, before)
    ensures ReplicaOf(store[m.id := Filed(m, now)], before + [m])
  {
    var after, msgs := store[m.id := Filed(m, now)], before + [m];
    assert msgs[|before|] == m;
    forall id | id in after
      ensures exists i :: 0 <= i < |msgs| && msgs[i].id == id
    {
      if id != m.id {
        var i :| 0 <= i < |before| && before[i].id == id;
        assert msgs[i] == before[i];
      }
    }
    forall i | 0 <= i < |msgs| && IsLast(msgs, i)
      ensures msgs[i].id in after && SameBody(after[msgs[i].id], msgs[i])
    {
      if i < |before| {
        assert msgs[|before|].id != msgs[i].id;
        assert forall j :: i < j < |before| ==> msgs[j] == before[j];
        assert IsLast(before, i);
      }
    }
  }

  lemma {:induction false} FileAll(store: Store, before: seq<Message>, msgs: seq<Message>, now: Time)
    requires ReplicaOf(store, before)
    ensures ReplicaOf(FiledAll(store, msgs, now), before + msgs)
  {
    if msgs == [] {
      assert before + msgs == before;
    } else {
      var p, m := msgs[..|msgs| - 1], msgs[|msgs| - 1];
      FileAll(store, before, p, now);
      FileOne(FiledAll(store, p, now), before + p, m, now);
      assert before + msgs == (before + p) + [m] by {
        assert msgs == p + [m];
      }
      assert FiledAll(store, msgs, now) == FiledAll(store, p, now)[m.id := Filed(m, now)];
    }
  }

  lemma {:induction false} DeviceReplica(batches: seq<Batch>, clock: nat -> Time)
    ensures ReplicaOf(DeviceStore(batches, clock), Received(batches))
  {
    if batches != [] {
      var n := |batches| - 1;
      DeviceReplica(batches[..n], clock);
      if batches[n].toClient {
        FileAll(DeviceStore(batches[..n], clock), Received(batches[..n]), batches[n].msgs, clock(n));
      } else {
        assert Received(batches[..n]) + [] == Received(batches[..n]);
      }
    }
  }

  lemma LastOccurrence(msgs: seq<Message>, i: nat) returns (k: nat)
    requires i < |msgs|
    ensures k < |msgs| && msgs[k].id == msgs[i].id && IsLast(msgs, k)
    decreases |msgs| - i
  {
    k := i;
    if !IsLast(msgs, i) {
      var j :| i < j < |msgs| && msgs[j].id == msgs[i].id;
      k := LastOccurrence(msgs, j);
    }
  }

  // Replicas of the same sequence hold the same ids with the same bodies.
  lemma ReplicaUnique(a: Store, b: Store, msgs: seq<Message>)
    requires ReplicaOf(a, msgs) && ReplicaOf(b, msgs)
    ensures forall id :: id in a <==> id in b
    ensures forall id :: id in a && id in b ==> SameBody(a[id], b[id])
  {
    forall id | id in a || id in b
      ensures id in a && id in b && SameBody(a[id], b[id])
    {
      var i :| 0 <= i < |msgs| && msgs[i].id == id;
      var k := LastOccurrence(msgs, i);
    }
  }

  // The run serves the device through SyncIncoming, with failures and restarts behind the cursor, until it has
  // received as many messages as the log has.
  ghost predicate Drained(device: string, log: seq<WALChange>, row: Option<SyncMetadata>, es: seq<Event>) {
    && Increasing(log) && Convertible(log)
    && (forall i :: 0 <= i < |log| ==> Above(log[i], Mark(row)))
    && (forall i :: 0 <= i < |es| ==> OnlyIncoming(es[i]))
    && RestartsBehindCursor(device, log, Start(row), es)
    && |Received(Run(device, log, Start(row), es).batches)| == |log|
  }

  // Convergence: once the device has received as many messages as the log has, in batches of any sizes, with failures and
  // restarts in between, its store has the ids and bodies of the whole log replayed at once, namely those
  // of the last change of each message.
  lemma DeviceConverges(device: string, log: seq<WALChange>, row: Option<SyncMetadata>, es: seq<Event>, clock: nat -> Time, now: Time)
    requires Drained(device, log, row, es)
    ensures var store, whole := DeviceStore(Run(device, log, Start(row), es).batches, clock), FiledAll(map[], Converted(log), now);
      && ReplicaOf(store, Converted(log))
      && (forall id :: id in store <==> id in whole)
      && (forall id :: id in store && id in whole ==> SameBody(store[id], whole[id]))
  {
    var batches := Run(device, log, Start(row), es).batches;
    RestartsExact(device, log, row, es);
    TakenSplits(batches);
    assert log[..|log|] == log;
    DeviceReplica(batches, clock);
    FileAll(map[], [], Converted(log), now);
    assert [] + Converted(log) == Converted(log);
    ReplicaUnique(DeviceStore(batches, clock), FiledAll(map[], Converted(log), now), Converted(log));
  }

  // ---------------------------------------------------------------- which rows the device ends up with

  ghost predicate SameIds(msgs: seq<Message>, rows: seq<Message>) {
    |msgs| == |rows| && forall i :: 0 <= i < |msgs| ==> msgs[i].id == rows[i].id
  }

  lemma LastByIds(msgs: seq<Message>, rows: seq<Message>, i: nat)
    requires SameIds(msgs, rows) && i < |msgs|
    ensures IsLast(msgs, i) <==> IsLast(rows, i)
  {
  }

  ghost predicate LastBodiesAgree(msgs: seq<Message>, rows: seq<Message>)
    requires |msgs| == |rows|
  {
    forall i :: 0 <= i < |msgs| && IsLast(msgs, i) ==> SameBody(msgs[i], rows[i])
  }

  lemma ReplicaTransfers(store: Store, msgs: seq<Message>, rows: seq<Message>)
    requires ReplicaOf(store, msgs) && SameIds(msgs, rows) && LastBodiesAgree(msgs, rows)
    ensures ReplicaOf(store, rows)
  {
    forall id | id in store
      ensures exists i :: 0 <= i < |rows| && rows[i].id == id
    {
      var i :| 0 <= i < |msgs| && msgs[i].id == id;
      assert rows[i].id == id;
    }
    forall i | 0 <= i < |rows| && IsLast(rows, i)
      ensures rows[i].id in store && SameBody(store[rows[i].id], rows[i])
    {
      LastByIds(msgs, rows, i);
      assert msgs[i].id in store;
    }
  }

  // A replica of the messages is one of the rows exactly if the last message of every id has its row's body.
  lemma ReplicaExact(store: Store, msgs: seq<Message>, rows: seq<Message>)
    requires ReplicaOf(store, msgs) && SameIds(msgs, rows)
    ensures ReplicaOf(store, rows) <==> LastBodiesAgree(msgs, rows)
  {
    if LastBodiesAgree(msgs, rows) {
      ReplicaTransfers(store, msgs, rows);
    }
    if ReplicaOf(store, rows) {
      forall i | 0 <= i < |msgs| && IsLast(msgs, i)
        ensures SameBody(msgs[i], rows[i])
      {
        LastByIds(msgs, rows, i);
        assert msgs[i].id in store && rows[i].id in store;
      }
    }
  }

  // The column reads as the text: it carries it, or the text is empty and the column is missing or not text.
  predicate Shows(v: Value, text: string) {
    v == Text(text) || (text == "" && !v.Text?)
  }

  predicate BodyShown(c: WALChange, m: Message) {
    && Shows(c.columns.id, m.id) && Shows(c.columns.senderId, m.senderId)
    && Shows(c.columns.recipientId, m.recipientId) && Shows(c.columns.content, m.content)
  }

  // Every change carries the id of its row.
  ghost predicate IdsShown(log: seq<WALChange>, rows: seq<Message>) {
    |log| == |rows| && forall i :: 0 <= i < |log| ==> Shows(log[i].columns.id, rows[i].id)
  }

  lemma BodyShownExact(c: WALChange, m: Message)
    requires Convert(c).Ok?
    ensures SameBody(Convert(c).value, m) <==> BodyShown(c, m)
    ensures Convert(c).value.id == m.id <==> Shows(c.columns.id, m.id)
  {
  }

  lemma ConvertedBodies(log: seq<WALChange>, rows: seq<Message>)
    requires Convertible(log) && IdsShown(log, rows)
    ensures SameIds(Converted(log), rows)
    ensures LastBodiesAgree(Converted(log), rows) <==>
            forall i :: 0 <= i < |rows| && IsLast(rows, i) ==> BodyShown(log[i], rows[i])
  {
    var msgs := Converted(log);
    ConvertedEach(log);
    forall i | 0 <= i < |log|
      ensures msgs[i].id == rows[i].id && (SameBody(msgs[i], rows[i]) <==> BodyShown(log[i], rows[i]))
    {
      BodyShownExact(log[i], rows[i]);
    }
    forall i | 0 <= i < |log|
      ensures IsLast(msgs, i) <==> IsLast(rows, i)
    {
      LastByIds(msgs, rows, i);
    }
  }

  // Let rows[i] be the messages row after log[i], whose id every change carries. Once the whole log is received,
  // the device holds the rows if and only if the last change of every message shows its id, sender, recipient
  // and content: earlier changes and the other columns do not matter.
  lemma ConvergesExactly(device: string, log: seq<WALChange>, rows: seq<Message>, row: Option<SyncMetadata>,
                         es: seq<Event>, clock: nat -> Time)
    requires Drained(device, log, row, es)
    requires IdsShown(log, rows)
    ensures ReplicaOf(DeviceStore(Run(device, log, Start(row), es).batches, clock), rows) <==>
            forall i :: 0 <= i < |rows| && IsLast(rows, i) ==> BodyShown(log[i], rows[i])
  {
    ConvertedBodies(log, rows);
    DeviceConverges(device, log, row, es, clock, 0);
    ReplicaExact(DeviceStore(Run(device, log, Start(row), es).batches, clock), Converted(log), rows);
  }

  // ---------------------------------------------------------------- changes that carry whole rows

  function InstantValue(t: Option<Time>): Value {
    if t.Some? then Instant(t.value) else OtherValue
  }

  function WholeRow(m: Message): Columns {
    Columns(Text(m.id), Text(m.senderId), Text(m.recipientId), Text(m.content), Text(StatusText(m.status)),
            Instant(m.createdAt), Instant(m.updatedAt), InstantValue(m.syncedAt), InstantValue(m.readAt))
  }

  // A row as the messages table's status check admits it.
  predicate StoredRow(m: Message) {
    m.status == PendingSync || m.status == Synced || m.status == Read
  }

  // The change carries all columns of the row as it is after the change.
  predicate Carries(c: WALChange, m: Message) {
    Supported(c) && StoredRow(m) && c.columns == WholeRow(m)
  }

  // The three statuses, the missing one, and no other text are told apart, and none is lost.
  lemma StatusVocabulary(text: string)
    ensures StatusOf(text) == Blank <==> text == ""
    ensures StatusOf(text) == PendingSync <==> text == "pending_sync"
    ensures StatusOf(text) == Synced <==> text == "synced"
    ensures StatusOf(text) == Read <==> text == "read"
    ensures StatusText(StatusOf(text)) == text
  {
  }

  // Only an INSERT or UPDATE converts. A column of the right type is taken over; a missing or mistyped one becomes
  // empty, pending, the commit time of the change, or no time.
  lemma ConversionColumns(c: WALChange)
    ensures Convert(c).Ok? <==> c.operation == INSERT || c.operation == UPDATE
    ensures Convert(c).Ok? ==>
      var m, v := Convert(c).value, c.columns;
      && Shows(v.id, m.id) && Shows(v.senderId, m.senderId) && Shows(v.recipientId, m.recipientId) && Shows(v.content, m.content)
      && (forall text :: v.status == Text(text) ==> StatusText(m.status) == text)
      && (!v.status.Text? ==> m.status == PendingSync)
      && (forall t :: v.createdAt == Instant(t) ==> m.createdAt == t) && (!v.createdAt.Instant? ==> m.createdAt == c.commitTime)
      && (forall t :: v.updatedAt == Instant(t) ==> m.updatedAt == t) && (!v.updatedAt.Instant? ==> m.updatedAt == c.commitTime)
      && (forall t :: v.syncedAt == Instant(t) <==> m.syncedAt == Some(t))
      && (forall t :: v.readAt == Instant(t) <==> m.readAt == Some(t))
  {
    if c.columns.status.Text? {
      StatusVocabulary(c.columns.status.text);
    }
  }

  // What the device files for the last message of an id: the author's columns and both times as delivered, synced
  // now and not read.
  lemma {:induction false} FiledRow(store: Store, msgs: seq<Message>, now: Time, i: nat)
    requires i < |msgs| && IsLast(msgs, i)
    ensures msgs[i].id in FiledAll(store, msgs, now)
    ensures FiledAll(store, msgs, now)[msgs[i].id] == msgs[i].(status := Synced, syncedAt := Some(now), readAt := None)
  {
    if i < |msgs| - 1 {
      FiledRow(store, msgs[..|msgs| - 1], now, i);
    }
  }

  // Converting such a change gives the row back.
  lemma ConversionRoundTrip(c: WALChange, m: Message)
    requires Carries(c, m)
    ensures Convert(c) == Ok(m)
  {
    assert StatusOf("pending_sync") == PendingSync && StatusOf("synced") == Synced && StatusOf("read") == Read;
  }

  ghost predicate LastChangesCarry(log: seq<WALChange>, rows: seq<Message>)
    requires |log| == |rows|
  {
    forall i :: 0 <= i < |rows| && IsLast(rows, i) ==> Carries(log[i], rows[i])
  }

  // So it is enough that every change carries the id and the last change of each message the whole row.
  lemma WholeRowsConverge(device: string, log: seq<WALChange>, rows: seq<Message>, row: Option<SyncMetadata>,
                          es: seq<Event>, clock: nat -> Time)
    requires Drained(device, log, row, es)
    requires IdsShown(log, rows)
    ensures LastChangesCarry(log, rows) ==> ReplicaOf(DeviceStore(Run(device, log, Start(row), es).batches, clock), rows)
  {
    ConvergesExactly(device, log, rows, row, es, clock);
    if LastChangesCarry(log, rows) {
      forall i | 0 <= i < |rows| && IsLast(rows, i)
        ensures BodyShown(log[i], rows[i])
      {
        ConversionRoundTrip(log[i], rows[i]);
      }
    }
  }

  // An UPDATE that does not carry the content erases it on the device: a missing column converts to "".
  lemma PartialUpdateErases(store: Store, c: WALChange, now: Time)
    requires c.operation == UPDATE && c.columns.content == Absent
    ensures Convert(c).Ok?
    ensures var m := Convert(c).value;
      m.id in FiledAll(store, [m], now) && FiledAll(store, [m], now)[m.id].content == ""
  {
    var m := Convert(c).value;
    assert FiledAll(store, [m], now) == FiledAll(store, [], now)[m.id := Filed(m, now)];
  }

  // ---------------------------------------------------------------- users

  // insertUsers mirrors the server's list: the last entry of every listed id wins, whatever the local row says,
  // and rows of other ids stay.
  lemma {:induction false} LastUserWins(users: Users, list: seq<User>, id: string) returns (i: int)
    ensures -1 <= i < |list| && forall j :: i < j < |list| ==> list[j].id != id
    ensures var after := UsersReplaced(users, list);
      && (i >= 0 ==> list[i].id == id && id in after && after[id] == list[i])
      && (i < 0 ==> (id in after <==> id in users) && (id in users ==> after[id] == users[id]))
  {
    i := -1;
    if list != [] {
      i := LastUserWins(users, list[..|list| - 1], id);
      if list[|list| - 1].id == id {
        i := |list| - 1;
      }
    }
  }
}
