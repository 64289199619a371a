// Uploads with a lossy acknowledgement, over whole runs: what the count-only response guarantees.
module UploadRuns {
  import opened Prelude
  import opened Models
  import opened Database
  import opened Syncing
  import opened Device

  // One device and the messages table. own: the ids of the messages composed on the device.
  // unmarked: how many rows the server accepted without the device marking a message for them.
  // redelivered: how many of its pending messages the device got back as deliveries.
  datatype World = World(local: Store, users: Users, stored: Messages, own: set<string>, unmarked: nat, redelivered: nat)

  // Upload: the server handles the first `processed` messages, and the device marks `marks` of those
  // acknowledged before its loop stops: none if the response is lost.
  datatype Event =
    | Compose(m: Message)
    | Upload(batch: seq<Message>, env: nat -> InsertInput, processed: nat, marks: nat)
    | Deliver(msgs: seq<Message>, now: Time)
    | Elsewhere(msg: Message, input: InsertInput)
    | StatusChange(id: string, status: Status, at: Time)
    | UsersChange(users: Users)

  // Message ids are fresh UUIDs and only the device inserts its own messages; one of them comes back to it
  // only as the server stores it. A server that stops part-way never answers.
  ghost predicate Legal(w: World, e: Event) {
    match e
    case Compose(m) => m.status == PendingSync && m.id != "" && m.id !in w.local && m.id !in w.stored && m.id !in w.own
    case Upload(batch, _, processed, marks) =>
      Pending(w.local, batch) && processed <= |batch| && (marks > 0 ==> processed == |batch|)
    case Deliver(msgs, _) => forall i :: 0 <= i < |msgs| && msgs[i].id in w.own ==>
      msgs[i].id in w.stored && SameBody(w.stored[msgs[i].id], msgs[i])
    case Elsewhere(msg, input) => Normalised(msg, input).id !in w.own
    case StatusChange(_, _, _) => true
    case UsersChange(_) => true
  }

  function Step(w: World, e: Event): World
    requires e.Upload? ==> e.processed <= |e.batch|
  {
    match e
    case Compose(m) => w.(local := w.local[m.id := m], own := w.own + {m.id})
    case Upload(batch, env, processed, marks) =>
      var u := Insert(w.users, w.stored, batch, env, processed);
      var count := CountTrue(u.accepted);
      w.(users := u.users, stored := u.messages,
         local := MarkFirst(w.local, batch, Min(count, marks)), unmarked := w.unmarked + count - Min(count, marks))
    case Deliver(msgs, now) =>
      var w' := w.(local := FiledAll(w.local, msgs, now));
      w'.(redelivered := w.redelivered + |Waiting(w) - Waiting(w')|)
    case Elsewhere(msg, input) =>
      if Inserts(w.users, w.stored, msg, input)
      then w.(stored := w.stored[Normalised(msg, input).id := Normalised(msg, input)], users := Noted(w.users, Normalised(msg, input)))
      else w
    case StatusChange(id, status, now) => w.(stored := StatusUpdated(w.stored, id, status, now))
    case UsersChange(users) => w.(users := users)
  }

  function Marked(w: World): set<string> {
    set id | id in w.own && id in w.local && w.local[id].status == Synced
  }

  function Waiting(w: World): set<string> {
    set id | id in w.own && id in w.local && w.local[id].status == PendingSync
  }

  ghost predicate Good(w: World) {
    && w.own <= w.local.Keys && "" !in w.own
    && (forall id :: id in w.local && w.local[id].status == PendingSync ==> id in w.own)
    && (forall id :: id in w.own ==> w.local[id].status == PendingSync || w.local[id].status == Synced)
    && (forall id :: id in w.own ==> w.local[id].id == id)
  }

  // Messages marked synced, and those accepted without a mark, are those the server holds and those that came
  // back as deliveries.
  ghost predicate Balanced(w: World) {
    |Marked(w)| + w.unmarked == |w.own * w.stored.Keys| + w.redelivered
  }

  // Messages pending on the device, and those that came back, are those the server lacks and those accepted
  // without a mark.
  ghost predicate Backlogged(w: World) {
    |Waiting(w)| + w.redelivered == |w.own - w.stored.Keys| + w.unmarked
  }

  // ---------------------------------------------------------------- one upload

  // A batch of the device's pending messages.
  ghost predicate OwnBatch(own: set<string>, batch: seq<Message>) {
    Distinct(Ids(batch)) && "" !in own && forall i :: 0 <= i < |batch| ==> batch[i].id in own
  }

  lemma CountSnoc(bs: seq<bool>, b: bool)
    ensures CountTrue(bs + [b]) == CountTrue(bs) + if b then 1 else 0
  {
    assert (bs + [b])[..|bs|] == bs;
  }

  lemma InsertOneCounts(u: Uploaded, msg: Message, input: InsertInput, own: set<string>)
    requires msg.id in own && msg.id != ""
    ensures var u' := InsertOne(u, msg, input);
      |own * u'.messages.Keys| - CountTrue(u'.accepted) == |own * u.messages.Keys| - CountTrue(u.accepted)
  {
    if Inserts(u.users, u.messages, msg, input) {
      CountSnoc(u.accepted, true);
      assert InsertOne(u, msg, input).messages.Keys == u.messages.Keys + {msg.id};
      MeetGrows(own, u.messages.Keys, msg.id);
    } else {
      CountSnoc(u.accepted, false);
    }
  }

  // Each accepted insert adds exactly one of the device's own messages to the table.
  lemma {:induction false} InsertCounts(users: Users, stored: Messages, batch: seq<Message>, env: nat -> InsertInput, n: nat, own: set<string>)
    requires n <= |batch| && OwnBatch(own, batch)
    ensures var u := Insert(users, stored, batch, env, n);
      |own * u.messages.Keys| == |own * stored.Keys| + CountTrue(u.accepted)
  {
    if n > 0 {
      InsertCounts(users, stored, batch, env, n - 1, own);
      InsertOneCounts(Insert(users, stored, batch, env, n - 1), batch[n - 1], env(n - 1), own);
    }
  }

  // The table holds the old rows unchanged and otherwise only rows with the device's own bodies.
  ghost predicate RowsFrom(stored: Messages, local: Store, messages: Messages) {
    && (forall id :: id in stored ==> id in messages && messages[id] == stored[id])
    && (forall id :: id in messages && id !in stored ==> id in local && SameBody(messages[id], local[id]))
  }

  lemma InsertOneKeeps(stored: Messages, local: Store, u: Uploaded, msg: Message, input: InsertInput)
    requires RowsFrom(stored, local, u.messages) && msg.id != "" && msg.id in local && local[msg.id] == msg
    ensures RowsFrom(stored, local, InsertOne(u, msg, input).messages)
  {
  }

  lemma {:induction false} InsertKeeps(users: Users, stored: Messages, local: Store, batch: seq<Message>, env: nat -> InsertInput, n: nat)
    requires Pending(local, batch) && "" !in Ids(batch) && n <= |batch|
    ensures RowsFrom(stored, local, Insert(users, stored, batch, env, n).messages)
  {
    if n > 0 {
      InsertKeeps(users, stored, local, batch, env, n - 1);
      assert Ids(batch)[n - 1] == batch[n - 1].id;
      InsertOneKeeps(stored, local, Insert(users, stored, batch, env, n - 1), batch[n - 1], env(n - 1));
    }
  }

  // `last` is the position of x's last accepted message, -1 if there is none.
  predicate LastAccepted(batch: seq<Message>, accepted: seq<bool>, x: string, last: int)
    requires |accepted| <= |batch|
  {
    && -1 <= last < |accepted|
    && (last >= 0 ==> accepted[last] && batch[last].senderId == x)
    && forall j :: last < j < |accepted| && accepted[j] ==> batch[j].senderId != x
  }

  lemma LastAcceptedNext(batch: seq<Message>, accepted: seq<bool>, accepts: bool, x: string, last: int) returns (next: int)
    requires |accepted| < |batch| && LastAccepted(batch, accepted, x, last)
    ensures LastAccepted(batch, accepted + [accepts], x, next)
    ensures next == if accepts && batch[|accepted|].senderId == x then |accepted| else last
  {
    next := if accepts && batch[|accepted|].senderId == x then |accepted| else last;
  }

  lemma InsertNoted(users: Users, stored: Messages, batch: seq<Message>, env: nat -> InsertInput, n: nat, x: string)
    returns (p: Uploaded, u: Uploaded, accepts: bool)
    requires n < |batch|
    ensures p == Insert(users, stored, batch, env, n) && u == Insert(users, stored, batch, env, n + 1)
    ensures u.accepted == p.accepted + [accepts]
    ensures x in p.users ==>
      && x in u.users
      && u.users[x] == if accepts && batch[n].senderId == x then p.users[x].(lastMessageSent := Some(batch[n].content)) else p.users[x]
  {
    p, u := Insert(users, stored, batch, env, n), Insert(users, stored, batch, env, n + 1);
    accepts := Inserts(p.users, p.messages, batch[n], env(n));
  }

  // After the inserts each user's last_message_sent is their last accepted message; nothing else of the
  // user's row has changed.
  lemma {:induction false} SenderNoted(users: Users, stored: Messages, batch: seq<Message>, env: nat -> InsertInput, n: nat, x: string)
    returns (last: int)
    requires n <= |batch| && x in users
    ensures var u := Insert(users, stored, batch, env, n);
      && LastAccepted(batch, u.accepted, x, last) && x in u.users
      && u.users[x] == if last < 0 then users[x] else users[x].(lastMessageSent := Some(batch[last].content))
  {
    last := -1;
    if n > 0 {
      last := SenderNoted(users, stored, batch, env, n - 1, x);
      var p, u, accepts := InsertNoted(users, stored, batch, env, n - 1, x);
      last := LastAcceptedNext(batch, p.accepted, accepts, x, last);
    }
  }

  lemma MarkOneIs(local: Store, batch: seq<Message>, k: nat, id: string)
    requires 0 < k <= |batch| && id in local && MarkFirst(local, batch, k - 1).Keys == local.Keys
    requires MarkFirst(local, batch, k - 1)[id] == (if id in Ids(batch)[..k - 1] then local[id].(status := Synced) else local[id])
    ensures MarkFirst(local, batch, k)[id] == (if id in Ids(batch)[..k] then local[id].(status := Synced) else local[id])
  {
    assert Ids(batch)[..k] == Ids(batch)[..k - 1] + [batch[k - 1].id];
  }

  // Marking changes statuses only: synced for the first k of the batch, nothing else.
  lemma {:induction false} MarkFirstIs(local: Store, batch: seq<Message>, k: nat)
    requires k <= |batch|
    ensures MarkFirst(local, batch, k).Keys == local.Keys
    ensures forall id :: id in local ==>
      MarkFirst(local, batch, k)[id] == (if id in Ids(batch)[..k] then local[id].(status := Synced) else local[id])
  {
    if k > 0 {
      MarkFirstIs(local, batch, k - 1);
      forall id | id in local
        ensures MarkFirst(local, batch, k)[id] == (if id in Ids(batch)[..k] then local[id].(status := Synced) else local[id])
      {
        MarkOneIs(local, batch, k, id);
      }
    }
  }

  // So marking the first k messages of a pending batch moves exactly those k messages to synced.
  lemma MarkCounts(w: World, batch: seq<Message>, k: nat)
    requires Good(w) && Pending(w.local, batch) && k <= |batch|
    ensures var w' := w.(local := MarkFirst(w.local, batch, k));
      && Good(w') && |Marked(w')| == |Marked(w)| + k
      && (forall id :: id in Marked(w') <==> id in Marked(w) || id in Ids(batch)[..k])
  {
    var w' := w.(local := MarkFirst(w.local, batch, k));
    MarkFirstIs(w.local, batch, k);
    var ids := Ids(batch)[..k];
    forall id | id in ids
      ensures id in w.own && w.local[id].status == PendingSync
    {
      var i :| 0 <= i < k && ids[i] == id;
      assert batch[i].id == id;
    }
    UnionCount(Marked(w), ids, Marked(w'));
  }

  lemma MarkedPositions(local: Store, batch: seq<Message>, k: nat)
    requires Pending(local, batch) && k <= |batch|
    ensures forall i :: 0 <= i < |batch| ==>
      batch[i].id in MarkFirst(local, batch, k)
      && MarkFirst(local, batch, k)[batch[i].id].status == if i < k then Synced else PendingSync
  {
    MarkFirstIs(local, batch, k);
    forall i | 0 <= i < |batch|
      ensures batch[i].id in Ids(batch)[..k] <==> i < k
    {
      if i < k {
        assert Ids(batch)[..k][i] == batch[i].id;
      } else {
        assert forall j :: 0 <= j < k ==> Ids(batch)[j] != Ids(batch)[i];
      }
    }
  }

  // ---------------------------------------------------------------- the counting law

  lemma PendingIsOwn(w: World, batch: seq<Message>)
    requires Good(w) && Pending(w.local, batch)
    ensures OwnBatch(w.own, batch)
  {
  }

  lemma UploadBalances(w: World, e: Event)
    requires Good(w) && Balanced(w) && e.Upload? && Legal(w, e)
    ensures Good(Step(w, e)) && Balanced(Step(w, e))
  {
    PendingIsOwn(w, e.batch);
    InsertCounts(w.users, w.stored, e.batch, e.env, e.processed, w.own);
    var k := Min(CountTrue(Insert(w.users, w.stored, e.batch, e.env, e.processed).accepted), e.marks);
    MarkCounts(w, e.batch, k);
    assert Marked(Step(w, e)) == Marked(w.(local := MarkFirst(w.local, e.batch, k)));
  }

  // Filing replaces the delivered rows, all synced and with a delivered body, and no others.
  lemma {:induction false} FiledIs(store: Store, msgs: seq<Message>, now: Time, id: string) returns (i: int)
    ensures -1 <= i < |msgs|
    ensures var after := FiledAll(store, msgs, now);
      && (i < 0 ==> (id in after <==> id in store) && (id in store ==> after[id] == store[id]))
      && (i >= 0 ==> msgs[i].id == id && id in after && after[id] == Filed(msgs[i], now))
  {
    i := -1;
    if msgs != [] {
      i := FiledIs(store, msgs[..|msgs| - 1], now, id);
      if msgs[|msgs| - 1].id == id {
        i := |msgs| - 1;
      }
    }
  }

  // A delivery leaves every own row alone, or turns it into a synced one with the body the server stores.
  lemma DeliverStep(w: World, e: Event)
    requires Good(w) && Legal(w, e) && e.Deliver?
    ensures Good(Step(w, e)) && Waiting(Step(w, e)) <= Waiting(w)
    ensures forall id :: id in w.own ==>
      var w' := Step(w, e);
      w'.local[id] == w.local[id] || (w'.local[id].status == Synced && id in w.stored && SameBody(w.stored[id], w'.local[id]))
  {
    var w' := Step(w, e);
    forall id
      ensures id in w.own ==> (
        && id in w'.local && w'.local[id].id == id
        && (w'.local[id] == w.local[id] || (w'.local[id].status == Synced && id in w.stored && SameBody(w.stored[id], w'.local[id]))))
      ensures id in w'.local && w'.local[id].status == PendingSync ==> id in w.own
    {
      var i := FiledIs(w.local, e.msgs, e.now, id);
    }
  }

  lemma SetMinus<T>(whole: set<T>, part: set<T>)
    requires part <= whole
    ensures |whole - part| == |whole| - |part|
  {
  }

  lemma DeliverBalances(w: World, e: Event)
    requires Good(w) && Balanced(w) && Legal(w, e) && e.Deliver?
    ensures Good(Step(w, e)) && Balanced(Step(w, e))
  {
    var w' := Step(w, e);
    DeliverStep(w, e);
    assert Waiting(w') == Waiting(w.(local := FiledAll(w.local, e.msgs, e.now)));
    SetMinus(Waiting(w), Waiting(w'));
    PartitionCount(w.own, Marked(w), Waiting(w));
    PartitionCount(w'.own, Marked(w'), Waiting(w'));
  }

  // Events other than uploads and deliveries leave marked and stored own messages as they are.
  lemma OtherStep(w: World, e: Event)
    requires Good(w) && Legal(w, e) && !e.Upload? && !e.Deliver?
    ensures var w' := Step(w, e);
      && Good(w') && Marked(w') == Marked(w) && w'.unmarked == w.unmarked && w'.redelivered == w.redelivered
      && w'.own * w'.stored.Keys == w.own * w.stored.Keys
      && (forall id :: id in w.own ==> w'.local[id] == w.local[id])
      && (forall id :: id in w.own && id in w.stored ==> id in w'.stored && SameBody(w'.stored[id], w.stored[id]))
  {
    assert e.Compose? ==> w.own * w.stored.Keys == (w.own + {e.m.id}) * w.stored.Keys;
  }

  lemma StepBalances(w: World, e: Event)
    requires Good(w) && Balanced(w) && Legal(w, e)
    ensures Good(Step(w, e)) && Balanced(Step(w, e))
  {
    if e.Upload? {
      UploadBalances(w, e);
    } else if e.Deliver? {
      DeliverBalances(w, e);
    } else {
      OtherStep(w, e);
    }
  }

  // w' is reachable from w by the events, each legal where it happens.
  ghost predicate Reaches(w: World, es: seq<Event>, w': World)
    decreases |es|
  {
    if es == [] then w' == w else Legal(w, es[0]) && Reaches(Step(w, es[0]), es[1..], w')
  }

  function Fresh(users: Users, stored: Messages): World {
    World(map[], users, stored, {}, 0, 0)
  }

  lemma {:induction false} ReachesBalanced(w: World, es: seq<Event>, w': World)
    requires Good(w) && Balanced(w) && Reaches(w, es, w')
    ensures Good(w') && Balanced(w')
    decreases |es|
  {
    if es != [] {
      StepBalances(w, es[0]);
      ReachesBalanced(Step(w, es[0]), es[1..], w');
    }
  }

  lemma FreshGood(users: Users, stored: Messages)
    ensures Good(Fresh(users, stored)) && Balanced(Fresh(users, stored))
  {
    assert Marked(Fresh(users, stored)) == {};
    assert {} * stored.Keys == {};
  }

  // The counting law: whatever inserts fail, whatever responses are lost and wherever the marking loop stops,
  // the device has marked synced exactly as many of its messages as the server holds, less those accepted
  // without a mark, plus those that came back as deliveries. Its pending messages are as many as the server
  // still lacks plus the former less the latter: an unmarked backlog never drains through uploads.
  lemma {:induction false} CountingLaw(users: Users, stored: Messages, es: seq<Event>, w: World)
    requires Reaches(Fresh(users, stored), es, w)
    ensures Balanced(w) && Backlogged(w)
  {
    FreshGood(users, stored);
    ReachesBalanced(Fresh(users, stored), es, w);
    PartitionCount(w.own, Marked(w), Waiting(w));
    PartitionCount(w.own, w.own * w.stored.Keys, w.own - w.stored.Keys);
  }

  // ---------------------------------------------------------------- what an upload stores

  // A single insert keeps the set of users and all rows, and adds at most the message's own.
  lemma InsertOneAdds(u: Uploaded, msg: Message, input: InsertInput)
    requires msg.id != ""
    ensures var u' := InsertOne(u, msg, input);
      && u'.users.Keys == u.users.Keys
      && (forall id :: id in u.messages ==> id in u'.messages)
      && (forall id :: id in u'.messages ==> id in u.messages || id == msg.id)
  {
  }

  // What the inserts of a batch add are messages of the batch.
  lemma {:induction false} InsertAdds(users: Users, stored: Messages, batch: seq<Message>, env: nat -> InsertInput, n: nat)
    requires n <= |batch| && "" !in Ids(batch)
    ensures var u := Insert(users, stored, batch, env, n);
      && u.users.Keys == users.Keys
      && (forall id :: id in stored ==> id in u.messages)
      && (forall id :: id in u.messages ==> id in stored || id in Ids(batch)[..n])
  {
    if n > 0 {
      InsertAdds(users, stored, batch, env, n - 1);
      assert Ids(batch)[n - 1] == batch[n - 1].id;
      InsertOneAdds(Insert(users, stored, batch, env, n - 1), batch[n - 1], env(n - 1));
      assert Ids(batch)[..n] == Ids(batch)[..n - 1] + [batch[n - 1].id];
    }
  }

  lemma InsertsAlike(users: Users, stored: Messages, users': Users, stored': Messages, msg: Message, input: InsertInput)
    requires users'.Keys == users.Keys && msg.id != "" && (msg.id in stored' <==> msg.id in stored)
    ensures Inserts(users', stored', msg, input) <==> Inserts(users, stored, msg, input)
  {
  }

  // When its turn comes, a message is acceptable exactly if it was in the state before the upload.
  lemma TurnIsBefore(users: Users, stored: Messages, batch: seq<Message>, env: nat -> InsertInput, n: nat)
    requires n < |batch| && Distinct(Ids(batch)) && "" !in Ids(batch)
    ensures batch[n].id != ""
    ensures var p := Insert(users, stored, batch, env, n);
      Inserts(p.users, p.messages, batch[n], env(n)) <==> Inserts(users, stored, batch[n], env(n))
  {
    var p, ids := Insert(users, stored, batch, env, n), Ids(batch);
    InsertAdds(users, stored, batch, env, n);
    assert ids[n] == batch[n].id && ids[n] !in ids[..n];
    InsertsAlike(users, stored, p.users, p.messages, batch[n], env(n));
  }

  // So each insert of a batch succeeds exactly if it would have succeeded alone, before the upload.
  lemma {:induction false} AcceptedExact(users: Users, stored: Messages, batch: seq<Message>, env: nat -> InsertInput, n: nat)
    requires n <= |batch| && Distinct(Ids(batch)) && "" !in Ids(batch)
    ensures forall i :: 0 <= i < n ==>
      (Insert(users, stored, batch, env, n).accepted[i] <==> Inserts(users, stored, batch[i], env(i)))
  {
    if n > 0 {
      AcceptedExact(users, stored, batch, env, n - 1);
      TurnIsBefore(users, stored, batch, env, n - 1);
    }
  }

  // Insert number n adds its message if that was acceptable before the upload, else nothing.
  lemma InsertNext(users: Users, stored: Messages, batch: seq<Message>, env: nat -> InsertInput, n: nat) returns (p: Uploaded, u: Uploaded)
    requires n < |batch| && Distinct(Ids(batch)) && "" !in Ids(batch)
    ensures p == Insert(users, stored, batch, env, n) && u == Insert(users, stored, batch, env, n + 1)
    ensures u.messages.Keys == if Inserts(users, stored, batch[n], env(n)) then p.messages.Keys + {batch[n].id} else p.messages.Keys
  {
    p, u := Insert(users, stored, batch, env, n), Insert(users, stored, batch, env, n + 1);
    TurnIsBefore(users, stored, batch, env, n);
  }

  // After the first n inserts a message of the batch is in the table exactly if it was there before or is one
  // of the first n and acceptable.
  lemma {:induction false} InsertedExact(users: Users, stored: Messages, batch: seq<Message>, env: nat -> InsertInput, n: nat, i: nat)
    requires n <= |batch| && Distinct(Ids(batch)) && "" !in Ids(batch) && i < |batch|
    ensures batch[i].id in Insert(users, stored, batch, env, n).messages <==>
      batch[i].id in stored || (i < n && Inserts(users, stored, batch[i], env(i)))
  {
    if n > 0 {
      InsertedExact(users, stored, batch, env, n - 1, i);
      var p, u := InsertNext(users, stored, batch, env, n - 1);
      DistinctAt(batch, i, n - 1);
      assert batch[i].id in u.messages <==> batch[i].id in u.messages.Keys;
    }
  }

  lemma DistinctAt(batch: seq<Message>, i: nat, j: nat)
    requires Distinct(Ids(batch)) && i < |batch| && j < |batch|
    ensures batch[i].id == batch[j].id <==> i == j
  {
    assert Ids(batch)[i] == batch[i].id && Ids(batch)[j] == batch[j].id;
  }

  // Which of the first n messages are acceptable in the state before the upload; their number is the count in
  // the response.
  function Verdicts(users: Users, stored: Messages, batch: seq<Message>, env: nat -> InsertInput, n: nat): (bs: seq<bool>)
    requires n <= |batch|
    ensures |bs| == n && forall i :: 0 <= i < n ==> bs[i] == Inserts(users, stored, batch[i], env(i))
  {
    seq(n, i requires 0 <= i < n => Inserts(users, stored, batch[i], env(i)))
  }

  function Acceptable(users: Users, stored: Messages, batch: seq<Message>, env: nat -> InsertInput): nat {
    CountTrue(Verdicts(users, stored, batch, env, |batch|))
  }

  lemma AcceptedIs(users: Users, stored: Messages, batch: seq<Message>, env: nat -> InsertInput, n: nat)
    requires n <= |batch| && Distinct(Ids(batch)) && "" !in Ids(batch)
    ensures Insert(users, stored, batch, env, n).accepted == Verdicts(users, stored, batch, env, n)
  {
    AcceptedExact(users, stored, batch, env, n);
  }

  // ---------------------------------------------------------------- marked means stored

  ghost predicate MarkedStored(w: World) {
    forall id :: id in Marked(w) ==> id in w.stored
  }

  // The server lacks message i of the batch and will not accept it.
  predicate Refused(w: World, batch: seq<Message>, env: nat -> InsertInput, i: nat)
    requires i < |batch|
  {
    !Inserts(w.users, w.stored, batch[i], env(i)) && batch[i].id !in w.stored
  }

  // As many messages as the device marks, from the front of the batch, include none that is refused.
  predicate Honest(w: World, e: Event) {
    e.Upload? ==> forall i :: 0 <= i < |e.batch| && Refused(w, e.batch, e.env, i) ==>
      Min(Acceptable(w.users, w.stored, e.batch, e.env), e.marks) <= i
  }

  lemma NoBlankIds(w: World, batch: seq<Message>)
    requires Good(w) && Pending(w.local, batch)
    ensures "" !in Ids(batch) && forall i :: 0 <= i < |batch| ==> batch[i].id != ""
  {
    PendingIsOwn(w, batch);
  }

  // An upload marks the first k messages and stores the acceptable ones; it marks any only after handling all.
  lemma UploadEffect(w: World, e: Event) returns (k: nat)
    requires Good(w) && e.Upload? && Legal(w, e)
    ensures k == Min(Acceptable(w.users, w.stored, e.batch, e.env), e.marks) <= |e.batch|
    ensures forall id :: id in Marked(Step(w, e)) <==> id in Marked(w) || id in Ids(e.batch)[..k]
    ensures forall i :: 0 <= i < k ==>
      (e.batch[i].id in Step(w, e).stored <==> e.batch[i].id in w.stored || Inserts(w.users, w.stored, e.batch[i], e.env(i)))
  {
    NoBlankIds(w, e.batch);
    AcceptedIs(w.users, w.stored, e.batch, e.env, e.processed);
    k := Min(CountTrue(Insert(w.users, w.stored, e.batch, e.env, e.processed).accepted), e.marks);
    MarkCounts(w, e.batch, k);
    assert Marked(Step(w, e)) == Marked(w.(local := MarkFirst(w.local, e.batch, k)));
    forall i | 0 <= i < k
      ensures e.batch[i].id in Step(w, e).stored <==> e.batch[i].id in w.stored || Inserts(w.users, w.stored, e.batch[i], e.env(i))
    {
      InsertedExact(w.users, w.stored, e.batch, e.env, e.processed, i);
    }
  }

  lemma StoredGrows(w: World, e: Event, id: string)
    requires Good(w) && Legal(w, e) && id in w.stored
    ensures id in Step(w, e).stored
  {
    if e.Upload? {
      NoBlankIds(w, e.batch);
      InsertAdds(w.users, w.stored, e.batch, e.env, e.processed);
    }
  }

  lemma UploadStoredExact(w: World, e: Event)
    requires Good(w) && MarkedStored(w) && Legal(w, e) && e.Upload?
    ensures MarkedStored(Step(w, e)) <==> Honest(w, e)
  {
    var k := UploadEffect(w, e);
    var w' := Step(w, e);
    forall i | 0 <= i < k
      ensures Ids(e.batch)[..k][i] == e.batch[i].id && e.batch[i].id in Marked(w')
    {
      assert Ids(e.batch)[..k][i] in Ids(e.batch)[..k];
    }
    if Honest(w, e) {
      forall id | id in Marked(w')
        ensures id in w'.stored
      {
        if id in Marked(w) {
          StoredGrows(w, e, id);
        } else {
          var i :| 0 <= i < k && Ids(e.batch)[..k][i] == id;
          assert !Refused(w, e.batch, e.env, i);
        }
      }
    }
  }

  // One event keeps every marked message stored if and only if it is not an upload whose count reaches a
  // message that the server lacks and refuses.
  lemma MarkedStoredStep(w: World, e: Event)
    requires Good(w) && MarkedStored(w) && Legal(w, e)
    ensures MarkedStored(Step(w, e)) <==> Honest(w, e)
  {
    if e.Upload? {
      UploadStoredExact(w, e);
    } else if e.Deliver? {
      DeliverStep(w, e);
      assert forall id :: id in Marked(Step(w, e)) ==> id in Marked(w) || id in w.stored;
    } else {
      OtherStep(w, e);
      forall id | id in Marked(w)
        ensures id in Step(w, e).stored
      {
        StoredGrows(w, e, id);
      }
    }
  }

  // Own messages the server holds have the bodies the device holds; this needs no condition.
  ghost predicate SameBodies(w: World) {
    forall id :: id in w.own && id in w.stored && id in w.local ==> SameBody(w.stored[id], w.local[id])
  }

  lemma RowsKeepBodies(w: World, messages: Messages, batch: seq<Message>, k: nat)
    requires Good(w) && SameBodies(w) && RowsFrom(w.stored, w.local, messages) && k <= |batch|
    ensures SameBodies(w.(stored := messages, local := MarkFirst(w.local, batch, k)))
  {
    MarkFirstIs(w.local, batch, k);
  }

  lemma UploadBodies(w: World, e: Event)
    requires Good(w) && SameBodies(w) && e.Upload? && Legal(w, e)
    ensures SameBodies(Step(w, e))
  {
    NoBlankIds(w, e.batch);
    InsertKeeps(w.users, w.stored, w.local, e.batch, e.env, e.processed);
    var u := Insert(w.users, w.stored, e.batch, e.env, e.processed);
    RowsKeepBodies(w, u.messages, e.batch, Min(CountTrue(u.accepted), e.marks));
  }

  lemma BodiesStep(w: World, e: Event)
    requires Good(w) && SameBodies(w) && Legal(w, e)
    ensures SameBodies(Step(w, e))
  {
    if e.Upload? {
      UploadBodies(w, e);
    } else if e.Deliver? {
      DeliverStep(w, e);
    } else {
      OtherStep(w, e);
      var w' := Step(w, e);
      assert forall id :: id in w'.own && id in w'.stored ==> id in w.own * w.stored.Keys;
    }
  }

  // Every upload of the run is honest; marked messages are stored after every prefix of the run.
  ghost predicate AllHonest(w: World, es: seq<Event>)
    decreases |es|
  {
    es == [] || (Legal(w, es[0]) && Honest(w, es[0]) && AllHonest(Step(w, es[0]), es[1..]))
  }

  ghost predicate StoredThroughout(w: World, es: seq<Event>)
    decreases |es|
  {
    MarkedStored(w) && (es == [] || (Legal(w, es[0]) && StoredThroughout(Step(w, es[0]), es[1..])))
  }

  lemma {:induction false} ThroughoutExact(w: World, es: seq<Event>, w': World)
    requires Good(w) && Balanced(w) && MarkedStored(w) && SameBodies(w) && Reaches(w, es, w')
    ensures StoredThroughout(w, es) <==> AllHonest(w, es)
    ensures StoredThroughout(w, es) ==> MarkedStored(w')
    ensures SameBodies(w')
    decreases |es|
  {
    if es != [] {
      StepBalances(w, es[0]);
      BodiesStep(w, es[0]);
      MarkedStoredStep(w, es[0]);
      var next := Step(w, es[0]);
      if MarkedStored(next) {
        ThroughoutExact(next, es[1..], w');
      } else {
        BodiesKept(next, es[1..], w');
      }
    }
  }

  lemma {:induction false} BodiesKept(w: World, es: seq<Event>, w': World)
    requires Good(w) && Balanced(w) && SameBodies(w) && Reaches(w, es, w')
    ensures SameBodies(w')
    decreases |es|
  {
    if es != [] {
      StepBalances(w, es[0]);
      BodiesStep(w, es[0]);
      BodiesKept(Step(w, es[0]), es[1..], w');
    }
  }

  // Marked means stored: over every run, with lost responses, resends, interrupted loops and any failures, each
  // message marked synced is on the server after every prefix of the run if and only if no upload's count
  // reaches a message that the server lacks and refuses; and whatever happens, what the server holds of the
  // device's messages has the body the device holds.
  lemma MarkedMeansStored(users: Users, stored: Messages, es: seq<Event>, w: World)
    requires Reaches(Fresh(users, stored), es, w)
    ensures StoredThroughout(Fresh(users, stored), es) <==> AllHonest(Fresh(users, stored), es)
    ensures StoredThroughout(Fresh(users, stored), es) ==> MarkedStored(w)
    ensures SameBodies(w)
  {
    FreshGood(users, stored);
    ThroughoutExact(Fresh(users, stored), es, w);
  }

  // No insert of the upload fails for another reason than a duplicate primary key.
  ghost predicate OnlyDuplicatesFail(w: World, e: Event) {
    e.Upload? ==> forall i :: 0 <= i < |e.batch| ==>
      !e.env(i).fault && e.batch[i].senderId in w.users && e.batch[i].recipientId in w.users
  }

  // Then nothing is refused, so the upload is honest.
  lemma DuplicatesAreHonest(w: World, e: Event)
    requires Good(w) && Legal(w, e) && OnlyDuplicatesFail(w, e)
    ensures Honest(w, e)
  {
    if e.Upload? {
      NoBlankIds(w, e.batch);
      assert forall i :: 0 <= i < |e.batch| ==> !Refused(w, e.batch, e.env, i);
    }
  }

  ghost predicate ReachesCleanly(w: World, es: seq<Event>, w': World)
    decreases |es|
  {
    if es == [] then w' == w
    else Legal(w, es[0]) && OnlyDuplicatesFail(w, es[0]) && ReachesCleanly(Step(w, es[0]), es[1..], w')
  }

  lemma {:induction false} CleanIsHonest(w: World, es: seq<Event>, w': World)
    requires Good(w) && Balanced(w) && ReachesCleanly(w, es, w')
    ensures Reaches(w, es, w') && AllHonest(w, es)
    decreases |es|
  {
    if es != [] {
      StepBalances(w, es[0]);
      DuplicatesAreHonest(w, es[0]);
      CleanIsHonest(Step(w, es[0]), es[1..], w');
    }
  }

  // In particular under retries: if inserts fail only on duplicate ids, every message the device marked synced
  // is on the server (once, as ids are keys) with the body the device holds, despite lost responses and full
  // resends.
  lemma UploadSafety(users: Users, stored: Messages, es: seq<Event>, w: World)
    requires ReachesCleanly(Fresh(users, stored), es, w)
    ensures forall id :: id in w.own && id in w.local && w.local[id].status == Synced ==>
      id in w.stored && SameBody(w.stored[id], w.local[id])
  {
    FreshGood(users, stored);
    CleanIsHonest(Fresh(users, stored), es, w);
    MarkedMeansStored(users, stored, es, w);
    assert forall id :: id in w.own && id in w.local && w.local[id].status == Synced ==> id in Marked(w);
  }

  // ---------------------------------------------------------------- exactness of the acknowledgement

  // Every failure comes after every success.
  predicate SuccessesFirst(accepted: seq<bool>) {
    forall i, j :: 0 <= i < j < |accepted| && accepted[j] ==> accepted[i]
  }

  lemma {:induction false} CountAllTrue(bs: seq<bool>)
    requires forall i :: 0 <= i < |bs| ==> bs[i]
    ensures CountTrue(bs) == |bs|
  {
    if bs != [] {
      CountAllTrue(bs[..|bs| - 1]);
    }
  }

  // The first CountTrue positions are the true ones, or one of them is false and a later one is true.
  lemma {:induction false} CountIsPrefix(bs: seq<bool>)
    ensures SuccessesFirst(bs) ==> forall i :: 0 <= i < |bs| ==> (bs[i] <==> i < CountTrue(bs))
    ensures !SuccessesFirst(bs) ==> exists i :: 0 <= i < CountTrue(bs) && !bs[i]
  {
    if bs != [] {
      var p := bs[..|bs| - 1];
      CountIsPrefix(p);
      if SuccessesFirst(bs) {
        assert SuccessesFirst(p);
        if bs[|bs| - 1] {
          CountAllTrue(bs);
        }
      } else if SuccessesFirst(p) {
        assert bs[|bs| - 1];
        var i :| 0 <= i < |p| && !bs[i];
        assert !p[i];
        assert !bs[CountTrue(p)];
      } else {
        var i :| 0 <= i < CountTrue(p) && !p[i];
        assert !bs[i];
      }
    }
  }

  lemma PrefixDecides(bs: seq<bool>)
    ensures SuccessesFirst(bs) <==> forall i :: 0 <= i < |bs| ==> (i < CountTrue(bs) <==> bs[i])
    ensures !SuccessesFirst(bs) ==> exists i :: 0 <= i < CountTrue(bs) && !bs[i]
  {
    CountIsPrefix(bs);
  }

  // No message the table will reject (its id is there already, its sender or recipient is unknown, or its
  // statement fails) precedes one it will accept.
  predicate RejectionsLast(users: Users, stored: Messages, batch: seq<Message>, env: nat -> InsertInput) {
    SuccessesFirst(Verdicts(users, stored, batch, env, |batch|))
  }

  // A finished marking loop marks as many messages as are acceptable, from the front of the batch.
  lemma MarkedAreFirst(w: World, e: Event)
    requires Good(w) && e.Upload? && Legal(w, e) && e.marks >= |e.batch| == e.processed
    ensures forall i :: 0 <= i < |e.batch| ==>
      (e.batch[i].id in Marked(Step(w, e)) <==> i < Acceptable(w.users, w.stored, e.batch, e.env))
  {
    NoBlankIds(w, e.batch);
    AcceptedIs(w.users, w.stored, e.batch, e.env, |e.batch|);
    MarkedPositions(w.local, e.batch, Acceptable(w.users, w.stored, e.batch, e.env));
    PendingIsOwn(w, e.batch);
  }

  // Some message is rejected and yet marked.
  ghost predicate MarksRejected(w: World, e: Event)
    requires e.Upload? && e.processed <= |e.batch|
  {
    exists i :: 0 <= i < |e.batch| && !Inserts(w.users, w.stored, e.batch[i], e.env(i)) && e.batch[i].id in Marked(Step(w, e))
  }

  // take(synced_count) marks exactly the messages that get stored if and only if, in the state before the
  // upload, no rejected message precedes an acceptable one; otherwise it marks a rejected message, which is
  // then never sent again.
  lemma AcknowledgementExact(w: World, e: Event)
    requires Good(w) && e.Upload? && Legal(w, e) && e.marks >= |e.batch| == e.processed
    ensures var w' := Step(w, e);
      && ((forall i :: 0 <= i < |e.batch| ==> (e.batch[i].id in Marked(w') <==> Inserts(w.users, w.stored, e.batch[i], e.env(i))))
          <==> RejectionsLast(w.users, w.stored, e.batch, e.env))
      && (!RejectionsLast(w.users, w.stored, e.batch, e.env) ==> MarksRejected(w, e))
  {
    var bs := Verdicts(w.users, w.stored, e.batch, e.env, |e.batch|);
    MarkedAreFirst(w, e);
    PrefixDecides(bs);
    if !SuccessesFirst(bs) {
      var i :| 0 <= i < CountTrue(bs) && !bs[i];
      assert e.batch[i].id in Marked(Step(w, e));
    }
  }

  // The failed ids of the response would have sufficed: they are exactly the rejected messages.
  lemma {:induction false} FailedIdsExact(batch: seq<Message>, env: nat -> InsertInput, accepted: seq<bool>)
    requires |accepted| <= |batch| && Distinct(Ids(batch)) && "" !in Ids(batch)
    ensures forall i :: 0 <= i < |accepted| ==> (batch[i].id in FailedIds(batch, env, accepted) <==> !accepted[i])
    ensures forall id :: id in FailedIds(batch, env, accepted) ==> exists i :: 0 <= i < |accepted| && Ids(batch)[i] == id
    ensures |FailedIds(batch, env, accepted)| == |accepted| - CountTrue(accepted)
  {
    if accepted != [] {
      var n := |accepted| - 1;
      FailedIdsExact(batch, env, accepted[..n]);
      assert Ids(batch)[n] == batch[n].id;
      var failed, before := FailedIds(batch, env, accepted), FailedIds(batch, env, accepted[..n]);
      assert failed == before + if accepted[n] then [] else [batch[n].id];
      forall i | 0 <= i < n
        ensures batch[i].id in failed <==> !accepted[i]
      {
        assert Ids(batch)[i] != Ids(batch)[n];
      }
    }
  }

  // "Marked means stored" is false in general: with two pending messages whose first insert fails, the
  // first is marked although the server does not have it, and the second stays pending although it does.
  lemma MarkedNotStored(w: World, m: Message, k: Message, env: nat -> InsertInput) returns (e: Event)
    requires Good(w) && Pending(w.local, [m, k])
    requires m.id !in w.stored && env(0).fault
    requires k.id !in w.stored && !env(1).fault && k.senderId in w.users && k.recipientId in w.users
    ensures Legal(w, e) && e == Upload([m, k], env, 2, 2)
    ensures m.id in Marked(Step(w, e)) && m.id !in Step(w, e).stored
    ensures k.id in Waiting(Step(w, e)) && k.id in Step(w, e).stored
  {
    var batch := [m, k];
    e := Upload(batch, env, 2, 2);
    PendingIsOwn(w, batch);
    assert m == batch[0] && k == batch[1] && Ids(batch)[0] != Ids(batch)[1];
    var u0 := Insert(w.users, w.stored, batch, env, 0);
    var u1 := Insert(w.users, w.stored, batch, env, 1);
    assert u1 == InsertOne(u0, m, env(0)) && u1.accepted == [false];
    var u2 := Insert(w.users, w.stored, batch, env, 2);
    assert u2 == InsertOne(u1, k, env(1)) && u2.accepted == [false] + [true];
    CountSnoc([], false);
    CountSnoc([false], true);
    MarkedPositions(w.local, batch, 1);
  }
}
