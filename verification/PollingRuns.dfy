// The polling path: pending rows are read oldest first, marked synced one by one, and returned only if
// every mark succeeded. Query, marks and reply are separate steps; other polls, reads, submissions and
// enrollments run in between.
module PollingRuns {
  import opened Prelude
  import opened Models
  import opened Database
  import opened Syncing

  // A poll that has read its page and marked the first rows of it.
  datatype Flight = Flight(device: string, page: seq<Message>, marked: nat)

  // returned: the replies that reached the device. dropped: ids marked by polls that then failed, or whose
  // response was lost.
  datatype Server = Server(
    users: Users, messages: Messages, flights: map<nat, Flight>, returned: seq<seq<Message>>, dropped: set<string>)

  datatype Event =
    | Submit(msg: Message, input: InsertInput)
    | Query(t: nat, device: string, limit: nat, page: seq<Message>)
    | Mark(t: nat, now: Time, fault: bool)
    | Finish(t: nat, lost: bool)
    | MarkAsRead(id: string, at: Time)
    | UsersChange(users: Users)

  // A query reads a page it may return; a poll finishes when its page is marked.
  ghost predicate Legal(s: Server, e: Event) {
    match e
    case Submit(_, _) => true
    case Query(t, device, limit, page) => t !in s.flights && PendingPage(s.users, s.messages, device, limit, page)
    case Mark(t, _, _) => t in s.flights && s.flights[t].marked < |s.flights[t].page|
    case Finish(t, _) => t in s.flights && s.flights[t].marked == |s.flights[t].page|
    case MarkAsRead(_, _) => true
    case UsersChange(_) => true
  }

  function Step(s: Server, e: Event): Server
    requires Legal(s, e)
  {
    match e
    case Submit(msg, input) =>
      if Inserts(s.users, s.messages, msg, input)
      then s.(messages := s.messages[Normalised(msg, input).id := Normalised(msg, input)], users := Noted(s.users, Normalised(msg, input)))
      else s
    case Query(t, device, _, page) => s.(flights := s.flights[t := Flight(device, page, 0)])
    case Mark(t, now, fault) =>
      var f := s.flights[t];
      if fault then s.(flights := s.flights - {t}, dropped := s.dropped + Elements(Ids(f.page)[..f.marked]))
      else s.(messages := StatusUpdated(s.messages, f.page[f.marked].id, Synced, now), flights := s.flights[t := f.(marked := f.marked + 1)])
    case Finish(t, lost) =>
      if lost then s.(flights := s.flights - {t}, dropped := s.dropped + Elements(Ids(s.flights[t].page)))
      else s.(flights := s.flights - {t}, returned := s.returned + [s.flights[t].page])
    case MarkAsRead(id, now) => s.(messages := StatusUpdated(s.messages, id, Read, now))
    case UsersChange(users) => s.(users := users)
  }

  // Ids of all returned messages, in order.
  function ReturnedIds(replies: seq<seq<Message>>): seq<string> {
    if replies == [] then [] else ReturnedIds(replies[..|replies| - 1]) + Ids(replies[|replies| - 1])
  }

  function Rank(s: Status): nat {
    match s
    case PendingSync => 1
    case Synced => 2
    case Read => 3
    case _ => 0
  }

  // Marking stamps exactly the rows of the first n ids as synced now, and changes nothing else.
  lemma {:induction false} MarkedIs(messages: Messages, page: seq<Message>, n: nat, now: Time)
    requires n <= |page|
    ensures MarkedSynced(messages, page, n, now).Keys == messages.Keys
    ensures forall id :: id in messages && id in Ids(page)[..n] ==>
      MarkedSynced(messages, page, n, now)[id] == messages[id].(status := Synced, updatedAt := now, syncedAt := Some(now))
    ensures forall id :: id in messages && id !in Ids(page)[..n] ==>
      MarkedSynced(messages, page, n, now)[id] == messages[id]
  {
    if n > 0 {
      MarkedIs(messages, page, n - 1, now);
      assert Ids(page)[..n] == Ids(page)[..n - 1] + [page[n - 1].id];
    }
  }

  // ---------------------------------------------------------------- run invariant

  ghost predicate Taken(s: Server, id: string) {
    id in s.messages && s.messages[id].status != PendingSync
  }

  // The page holds distinct known rows, neither returned nor dropped before; the marked ones are not pending.
  ghost predicate FlightGood(s: Server, f: Flight) {
    && Distinct(Ids(f.page)) && OldestFirst(f.page) && f.marked <= |f.page|
    && (forall id :: id in Ids(f.page) ==> id in s.messages && id !in ReturnedIds(s.returned) && id !in s.dropped)
    && (forall id :: id in Ids(f.page)[..f.marked] ==> Taken(s, id))
  }

  ghost predicate Apart(f: Flight, page: seq<Message>) {
    forall id :: id in Ids(page) ==> id !in Ids(f.page)
  }

  // Returned and dropped rows do not overlap and are never pending again; no two polls in flight share a row.
  ghost predicate Good(s: Server) {
    var ids := ReturnedIds(s.returned);
    && Distinct(ids)
    && (forall id :: id in ids ==> id !in s.dropped)
    && (forall id :: id in ids || id in s.dropped ==> Taken(s, id))
    && (forall i :: 0 <= i < |s.returned| ==> OldestFirst(s.returned[i]))
    && (forall t :: t in s.flights ==> FlightGood(s, s.flights[t]))
    && (forall t, u :: t in s.flights && u in s.flights && t != u ==> Apart(s.flights[t], s.flights[u].page))
  }

  // A new query reads no row that a poll in flight has read.
  ghost predicate Separate(s: Server, e: Event) {
    e.Query? ==> forall u :: u in s.flights ==> Apart(s.flights[u], e.page)
  }

  lemma DistinctConcat(a: seq<string>, b: seq<string>)
    requires Distinct(a) && Distinct(b) && forall x :: x in b ==> x !in a
    ensures Distinct(a + b)
  {
    forall i, j | 0 <= i < j < |a + b|
      ensures (a + b)[i] != (a + b)[j]
    {
      if i < |a| <= j {
        assert b[j - |a|] in b;
      }
    }
  }

  lemma PageIds(users: Users, messages: Messages, device: string, limit: nat, page: seq<Message>)
    requires PendingPage(users, messages, device, limit, page)
    ensures forall id :: id in Ids(page) ==> id in messages && messages[id].status == PendingSync
  {
    forall id | id in Ids(page)
      ensures id in messages && messages[id].status == PendingSync
    {
      var i :| 0 <= i < |page| && Ids(page)[i] == id;
      assert PendingFor(users, messages, device, page[i].id);
    }
  }

  lemma QueryGood(s: Server, e: Event)
    requires Good(s) && e.Query? && Legal(s, e) && Separate(s, e)
    ensures Good(Step(s, e))
  {
    PageIds(s.users, s.messages, e.device, e.limit, e.page);
    var s' := Step(s, e);
    assert FlightGood(s', s'.flights[e.t]);
    forall t | t in s.flights
      ensures FlightGood(s', s.flights[t]) && Apart(s.flights[t], e.page) && Apart(Flight(e.device, e.page, 0), s.flights[t].page)
    {
      assert FlightGood(s, s.flights[t]);
    }
  }

  // A step that keeps every taken row taken and changes no poll.
  lemma TablesGood(s: Server, s': Server)
    requires Good(s) && s'.flights == s.flights && s'.returned == s.returned && s'.dropped == s.dropped
    requires forall id :: id in s.messages ==> id in s'.messages && (Taken(s, id) ==> Taken(s', id))
    ensures Good(s')
  {
    forall t | t in s.flights
      ensures FlightGood(s', s.flights[t])
    {
      assert FlightGood(s, s.flights[t]);
    }
  }

  // Counting one more row of a page as marked, once it is taken.
  lemma AdvanceGood(s: Server, t: nat)
    requires Good(s) && t in s.flights && s.flights[t].marked < |s.flights[t].page|
    requires Taken(s, s.flights[t].page[s.flights[t].marked].id)
    ensures Good(s.(flights := s.flights[t := s.flights[t].(marked := s.flights[t].marked + 1)]))
  {
    var f := s.flights[t];
    assert FlightGood(s, f);
    assert Ids(f.page)[..f.marked + 1] == Ids(f.page)[..f.marked] + [f.page[f.marked].id];
    assert FlightGood(s, f.(marked := f.marked + 1));
  }

  // Marking a row of a page keeps every taken row taken, and takes that one.
  lemma MarkTakes(s: Server, id: string, now: Time) returns (s': Server)
    requires Good(s) && id in s.messages
    ensures s' == s.(messages := StatusUpdated(s.messages, id, Synced, now)) && Good(s') && Taken(s', id)
  {
    s' := s.(messages := StatusUpdated(s.messages, id, Synced, now));
    TablesGood(s, s');
  }

  lemma MarkGood(s: Server, e: Event)
    requires Good(s) && e.Mark? && !e.fault && Legal(s, e)
    ensures Good(Step(s, e))
  {
    var f := s.flights[e.t];
    var id := f.page[f.marked].id;
    assert id in s.messages by {
      assert FlightGood(s, f) && Ids(f.page)[f.marked] == id;
    }
    var s1 := MarkTakes(s, id, e.now);
    AdvanceGood(s1, e.t);
    assert Step(s, e) == s1.(flights := s1.flights[e.t := f.(marked := f.marked + 1)]);
  }

  // A poll that ends drops the ids it marked.
  lemma DropGood(s: Server, t: nat, ids: seq<string>)
    requires Good(s) && t in s.flights
    requires forall id :: id in ids ==> id in Ids(s.flights[t].page) && Taken(s, id)
    ensures Good(s.(flights := s.flights - {t}, dropped := s.dropped + Elements(ids)))
  {
    var s' := s.(flights := s.flights - {t}, dropped := s.dropped + Elements(ids));
    assert FlightGood(s, s.flights[t]);
    forall u | u in s'.flights
      ensures FlightGood(s', s'.flights[u])
    {
      assert FlightGood(s, s.flights[u]) && Apart(s.flights[u], s.flights[t].page);
    }
  }

  lemma ReturnedSnoc(replies: seq<seq<Message>>, page: seq<Message>)
    ensures ReturnedIds(replies + [page]) == ReturnedIds(replies) + Ids(page)
  {
    assert (replies + [page])[..|replies|] == replies;
  }

  lemma ReturnGood(s: Server, t: nat)
    requires Good(s) && Legal(s, Finish(t, false))
    ensures Good(Step(s, Finish(t, false)))
  {
    var s', page := Step(s, Finish(t, false)), s.flights[t].page;
    assert FlightGood(s, s.flights[t]) && Ids(page)[..|page|] == Ids(page);
    ReturnedSnoc(s.returned, page);
    DistinctConcat(ReturnedIds(s.returned), Ids(page));
    forall u | u in s'.flights
      ensures FlightGood(s', s'.flights[u])
    {
      assert FlightGood(s, s.flights[u]) && Apart(s.flights[u], page);
    }
  }

  lemma StepGood(s: Server, e: Event)
    requires Good(s) && Legal(s, e) && Separate(s, e)
    ensures Good(Step(s, e))
  {
    match e
    case Submit(_, _) => TablesGood(s, Step(s, e));
    case Query(_, _, _, _) => QueryGood(s, e);
    case Mark(t, _, fault) =>
      assert FlightGood(s, s.flights[t]);
      if fault {
        DropGood(s, t, Ids(s.flights[t].page)[..s.flights[t].marked]);
      } else {
        MarkGood(s, e);
      }
    case Finish(t, lost) =>
      assert FlightGood(s, s.flights[t]);
      if lost {
        assert Ids(s.flights[t].page)[..s.flights[t].marked] == Ids(s.flights[t].page);
        DropGood(s, t, Ids(s.flights[t].page));
      } else {
        ReturnGood(s, t);
      }
    case MarkAsRead(_, _) => TablesGood(s, Step(s, e));
    case UsersChange(_) => TablesGood(s, Step(s, e));
  }

  // ---------------------------------------------------------------- every synced row was marked by a poll

  predicate MarkedBy(f: Flight, id: string) {
    exists i :: 0 <= i < |f.page| && i < f.marked && f.page[i].id == id
  }

  // A synced row was so in the initial table, or a poll has marked it.
  ghost predicate Accounted(initial: Messages, s: Server, id: string) {
    id in s.messages && s.messages[id].status == Synced ==>
      || (id in initial && initial[id].status == Synced)
      || id in ReturnedIds(s.returned) || id in s.dropped || exists t :: t in s.flights && MarkedBy(s.flights[t], id)
  }

  predicate SubmitsPending(e: Event) {
    e.Submit? ==> Normalised(e.msg, e.input).status == PendingSync
  }

  lemma StepAccounted(initial: Messages, s: Server, e: Event, id: string)
    requires Legal(s, e) && Accounted(initial, s, id) && SubmitsPending(e)
    ensures Accounted(initial, Step(s, e), id)
  {
    var s' := Step(s, e);
    if e.Finish? && !e.lost {
      ReturnedSnoc(s.returned, s.flights[e.t].page);
    }
    if e.Mark? && !e.fault && id == s.flights[e.t].page[s.flights[e.t].marked].id {
      assert MarkedBy(s'.flights[e.t], id);
    } else if t :| t in s.flights && MarkedBy(s.flights[t], id) {
      StillAccounted(s, e, id, t);
    }
  }

  // An id that poll t has marked stays marked by it, or is returned or dropped with it.
  lemma StillAccounted(s: Server, e: Event, id: string, t: nat)
    requires Legal(s, e) && t in s.flights && MarkedBy(s.flights[t], id)
    ensures var s' := Step(s, e);
      (t in s'.flights && MarkedBy(s'.flights[t], id)) || id in s'.dropped || id in ReturnedIds(s'.returned)
  {
    var f := s.flights[t];
    var i :| 0 <= i < |f.page| && i < f.marked && f.page[i].id == id;
    assert Ids(f.page)[i] == id;
    if e.Finish? && e.t == t {
      ReturnedSnoc(s.returned, f.page);
    } else if e.Mark? && e.t == t && e.fault {
      assert Ids(f.page)[..f.marked][i] == id;
    } else if e.Mark? && e.t == t {
      assert Step(s, e).flights[t].page[i].id == id;
    }
  }

  // ---------------------------------------------------------------- runs

  // s' is reached by legal steps; with `apart`, no query reads a row of a poll in flight.
  ghost predicate Reaches(s: Server, es: seq<Event>, s': Server, apart: bool)
    decreases |es|
  {
    if es == [] then s' == s
    else Legal(s, es[0]) && (apart ==> Separate(s, es[0])) && Reaches(Step(s, es[0]), es[1..], s', apart)
  }

  lemma {:induction false} ReachesGood(s: Server, es: seq<Event>, s': Server)
    requires Good(s) && Reaches(s, es, s', true)
    ensures Good(s')
    decreases |es|
  {
    if es != [] {
      StepGood(s, es[0]);
      ReachesGood(Step(s, es[0]), es[1..], s');
    }
  }

  lemma {:induction false} ReachesAccounted(initial: Messages, s: Server, es: seq<Event>, s': Server, apart: bool, id: string)
    requires Accounted(initial, s, id) && Reaches(s, es, s', apart)
    requires forall i :: 0 <= i < |es| ==> SubmitsPending(es[i])
    ensures Accounted(initial, s', id)
    decreases |es|
  {
    if es != [] {
      StepAccounted(initial, s, es[0], id);
      ReachesAccounted(initial, Step(s, es[0]), es[1..], s', apart, id);
    }
  }

  function Start(users: Users, messages: Messages): Server {
    Server(users, messages, map[], [], {})
  }

  // Over every run of polls, submissions, reads and user changes, step by step and whatever fails, in which no
  // query reads a row of a poll still in flight: no message is returned twice (within a reply or across
  // replies), replies are oldest first, and what was dropped is never pending again nor returned.
  lemma PollingDelivery(users: Users, messages: Messages, es: seq<Event>, s: Server)
    requires Reaches(Start(users, messages), es, s, true)
    ensures Distinct(ReturnedIds(s.returned))
    ensures forall r, i, j :: 0 <= r < |s.returned| && 0 <= i < j < |s.returned[r]| ==>
      s.returned[r][i].createdAt <= s.returned[r][j].createdAt
    ensures forall id :: id in s.dropped ==> id !in ReturnedIds(s.returned) && Taken(s, id)
  {
    ReachesGood(Start(users, messages), es, s);
  }

  // In any run at all, if messages are pending when they arrive, a row that has become synced without being
  // returned was marked by a poll still in flight, or by one that failed or whose response was lost.
  lemma SyncedIsAccounted(users: Users, messages: Messages, es: seq<Event>, s: Server, id: string)
    requires Reaches(Start(users, messages), es, s, false)
    requires id in s.messages && s.messages[id].status == Synced && id !in ReturnedIds(s.returned)
    requires (id in messages ==> messages[id].status != Synced) && forall i :: 0 <= i < |es| ==> SubmitsPending(es[i])
    ensures id in s.dropped || exists t :: t in s.flights && MarkedBy(s.flights[t], id)
  {
    ReachesAccounted(messages, Start(users, messages), es, s, false, id);
  }

  // ---------------------------------------------------------------- one poll per device at a time

  // Every row a poll has read still belongs to a user on the poll's device.
  ghost predicate OnDevice(s: Server, f: Flight) {
    forall i :: 0 <= i < |f.page| ==>
      var id := f.page[i].id;
      id in s.messages && s.messages[id].recipientId in s.users && s.users[s.messages[id].recipientId].deviceId == Some(f.device)
  }

  ghost predicate AllOnDevice(s: Server) {
    forall t :: t in s.flights ==> OnDevice(s, s.flights[t])
  }

  // A device polls again only after its poll has ended, and a change of the users leaves the recipients of rows
  // in flight on their devices.
  ghost predicate OneEach(s: Server, e: Event) {
    && (e.Query? ==> forall u :: u in s.flights ==> s.flights[u].device != e.device)
    && (e.UsersChange? ==> AllOnDevice(s.(users := e.users)))
  }

  ghost predicate AllOneEach(s: Server, es: seq<Event>)
    decreases |es|
  {
    es == [] || (Legal(s, es[0]) && OneEach(s, es[0]) && AllOneEach(Step(s, es[0]), es[1..]))
  }

  lemma OtherDeviceApart(s: Server, u: nat, device: string, limit: nat, page: seq<Message>)
    requires u in s.flights && OnDevice(s, s.flights[u]) && s.flights[u].device != device
    requires PendingPage(s.users, s.messages, device, limit, page)
    ensures Apart(s.flights[u], page)
  {
    var f := s.flights[u];
    forall i, j | 0 <= i < |page| && 0 <= j < |f.page|
      ensures page[i].id != f.page[j].id
    {
      assert PendingFor(s.users, s.messages, device, page[i].id);
    }
  }

  lemma StepOnDevice(s: Server, e: Event)
    requires AllOnDevice(s) && Legal(s, e) && OneEach(s, e)
    ensures AllOnDevice(Step(s, e)) && Separate(s, e)
  {
    var s' := Step(s, e);
    if e.Query? {
      forall u | u in s.flights
        ensures Apart(s.flights[u], e.page)
      {
        OtherDeviceApart(s, u, e.device, e.limit, e.page);
      }
      assert forall i :: 0 <= i < |e.page| ==> PendingFor(s.users, s.messages, e.device, e.page[i].id);
    }
    forall t | t in s'.flights
      ensures OnDevice(s', s'.flights[t])
    {
      assert t in s.flights ==> OnDevice(s, s.flights[t]);
    }
  }

  lemma {:induction false} OneEachIsApart(s: Server, es: seq<Event>, s': Server)
    requires AllOnDevice(s) && Reaches(s, es, s', false) && AllOneEach(s, es)
    ensures Reaches(s, es, s', true)
    decreases |es|
  {
    if es != [] {
      StepOnDevice(s, es[0]);
      OneEachIsApart(Step(s, es[0]), es[1..], s');
    }
  }

  // With any number of devices polling at once, one poll each, no message is returned twice.
  lemma OnePollPerDevice(users: Users, messages: Messages, es: seq<Event>, s: Server)
    requires Reaches(Start(users, messages), es, s, false) && AllOneEach(Start(users, messages), es)
    ensures Distinct(ReturnedIds(s.returned))
  {
    OneEachIsApart(Start(users, messages), es, s);
    PollingDelivery(users, messages, es, s);
  }

  // ---------------------------------------------------------------- overlapping polls

  lemma {:induction false} ReachesThen(s: Server, es: seq<Event>, mid: Server, e: Event) returns (s': Server, es': seq<Event>)
    requires Reaches(s, es, mid, false) && Legal(mid, e)
    ensures s' == Step(mid, e) && es' == es + [e] && Reaches(s, es', s', false)
    decreases |es|
  {
    s', es' := Step(mid, e), es + [e];
    if es == [] {
      assert [e][1..] == [] && es + [e] == [e];
      assert Reaches(s', [], s', false);
    } else {
      assert (es + [e])[1..] == es[1..] + [e];
      var _, _ := ReachesThen(Step(s, es[0]), es[1..], mid, e);
    }
  }

  // A poll in flight can run on to its reply, alone and without a failure.
  lemma {:induction false} RunsOn(s: Server, es: seq<Event>, mid: Server, t: nat, now: Time) returns (s': Server, es': seq<Event>)
    requires Reaches(s, es, mid, false) && t in mid.flights && mid.flights[t].marked <= |mid.flights[t].page|
    ensures Reaches(s, es', s', false)
    ensures s'.flights == mid.flights - {t} && s'.returned == mid.returned + [mid.flights[t].page]
    decreases |mid.flights[t].page| - mid.flights[t].marked
  {
    if mid.flights[t].marked == |mid.flights[t].page| {
      s', es' := ReachesThen(s, es, mid, Finish(t, false));
    } else {
      s', es' := ReachesThen(s, es, mid, Mark(t, now, false));
      assert s'.flights - {t} == mid.flights - {t};
      s', es' := RunsOn(s, es', s', t, now);
    }
  }

  // The condition is exact: once two polls in flight have read the same row, letting both run on returns it twice.
  lemma OverlapRepeats(s: Server, t: nat, u: nat, id: string, now: Time) returns (s': Server, es: seq<Event>)
    requires t in s.flights && u in s.flights && t != u
    requires s.flights[t].marked <= |s.flights[t].page| && s.flights[u].marked <= |s.flights[u].page|
    requires id in Ids(s.flights[t].page) && id in Ids(s.flights[u].page)
    ensures Reaches(s, es, s', false) && !Distinct(ReturnedIds(s'.returned))
  {
    var a, b := s.flights[t].page, s.flights[u].page;
    s', es := RunsOn(s, [], s, t, now);
    s', es := RunsOn(s, es, s', u, now);
    ReturnedSnoc(s.returned, a);
    ReturnedSnoc(s.returned + [a], b);
    var i :| 0 <= i < |a| && Ids(a)[i] == id;
    var j :| 0 <= j < |b| && Ids(b)[j] == id;
    var n := |ReturnedIds(s.returned)|;
    assert ReturnedIds(s'.returned)[n + i] == id && ReturnedIds(s'.returned)[n + |a| + j] == id;
  }

  // And two polls of one device that both query before either marks do read the same rows.
  lemma TwoPollsReturnTwice(users: Users, messages: Messages, device: string, limit: nat, page: seq<Message>, now: Time)
    returns (s: Server, es: seq<Event>)
    requires PendingPage(users, messages, device, limit, page)
    ensures Reaches(Start(users, messages), es, s, false) && s.returned == [page, page]
  {
    var s0 := Start(users, messages);
    s, es := ReachesThen(s0, [], s0, Query(0, device, limit, page));
    s, es := ReachesThen(s0, es, s, Query(1, device, limit, page));
    s, es := RunsOn(s0, es, s, 0, now);
    s, es := RunsOn(s0, es, s, 1, now);
  }

  // ---------------------------------------------------------------- a poll that runs alone

  lemma {:induction false} MarksAlone(s: Server, es: seq<Event>, mid: Server, t: nat, device: string, page: seq<Message>, n: nat, now: Time)
    returns (s': Server, es': seq<Event>)
    requires n <= |page| && t !in mid.flights && Reaches(s, es, mid.(flights := mid.flights[t := Flight(device, page, 0)]), false)
    ensures Reaches(s, es', s', false)
    ensures s' == mid.(messages := MarkedSynced(mid.messages, page, n, now), flights := mid.flights[t := Flight(device, page, n)])
  {
    s', es' := mid.(flights := mid.flights[t := Flight(device, page, 0)]), es;
    if n > 0 {
      s', es' := MarksAlone(s, es, mid, t, device, page, n - 1, now);
      s', es' := ReachesThen(s, es', s', Mark(t, now, false));
      assert s'.flights == mid.flights[t := Flight(device, page, n)];
    }
  }

  lemma PutAndDrop(m: map<nat, Flight>, t: nat, f: Flight)
    requires t !in m
    ensures m[t := f] - {t} == m
  {
  }

  // Run back to back, the steps of a poll are one call of the manager: same rows, same reply.
  lemma AloneIsPoll(s: Server, t: nat, device: string, limit: nat, page: seq<Message>, now: Time, failAt: nat, lost: bool)
    returns (s': Server, es: seq<Event>)
    requires t !in s.flights && PendingPage(s.users, s.messages, device, limit, page)
    ensures Reaches(s, es, s', false)
    ensures var o := Poll(s.messages, page, now, failAt);
      var arrives := o.reply.Ok? && !lost;
      && s' == s.(messages := o.messages, returned := s'.returned, dropped := s'.dropped)
      && s'.returned == (if arrives then s.returned + [o.reply.value] else s.returned)
      && s'.dropped == (if arrives then s.dropped else s.dropped + Elements(Ids(page)[..Min(failAt, |page|)]))
  {
    var n := Min(failAt, |page|);
    s', es := ReachesThen(s, [], s, Query(t, device, limit, page));
    s', es := MarksAlone(s, es, s, t, device, page, n, now);
    PutAndDrop(s.flights, t, Flight(device, page, n));
    if failAt < |page| {
      s', es := ReachesThen(s, es, s', Mark(t, now, true));
    } else {
      assert Ids(page)[..n] == Ids(page);
      s', es := ReachesThen(s, es, s', Finish(t, lost));
    }
  }

  // ---------------------------------------------------------------- statuses

  // A status moves backwards exactly when a poll marks a row that has been read since the query.
  lemma StatusForward(s: Server, e: Event, id: string)
    requires Legal(s, e) && id in s.messages
    ensures id in Step(s, e).messages
    ensures Rank(Step(s, e).messages[id].status) < Rank(s.messages[id].status) <==>
      e.Mark? && !e.fault && s.flights[e.t].page[s.flights[e.t].marked].id == id && s.messages[id].status == Read
  {
  }

  // So a MarkAsRead that slips between a poll's query and its marks is undone: read falls back to synced.
  lemma ReadUndone(users: Users, messages: Messages, device: string, limit: nat, page: seq<Message>, k: nat, read: Time, now: Time)
    requires PendingPage(users, messages, device, limit, page) && k < |page|
    ensures var between := StatusUpdated(messages, page[k].id, Read, read);
      var after := MarkedSynced(between, page, |page|, now);
      && page[k].id in between && between[page[k].id].status == Read
      && page[k].id in after && after[page[k].id].status == Synced
  {
    var between := StatusUpdated(messages, page[k].id, Read, read);
    assert PendingFor(users, messages, device, page[k].id);
    MarkedIs(between, page, |page|, now);
    assert Ids(page)[..|page|][k] == page[k].id;
  }

  // ---------------------------------------------------------------- draining

  function PendingSet(users: Users, messages: Messages, device: string): set<string> {
    set id | id in messages && messages[id].status == PendingSync
             && messages[id].recipientId in users && users[messages[id].recipientId].deviceId == Some(device)
  }

  // A page takes as many pending rows as there are, up to the limit, and a successful poll removes them.
  lemma PollOnce(users: Users, messages: Messages, device: string, limit: nat, page: seq<Message>, now: Time)
    requires PendingPage(users, messages, device, limit, page)
    ensures |page| == Min(limit, |PendingSet(users, messages, device)|)
    ensures |PendingSet(users, MarkedSynced(messages, page, |page|, now), device)|
      == |PendingSet(users, messages, device)| - |page|
  {
    var ids, pending := Ids(page), PendingSet(users, messages, device);
    var after := MarkedSynced(messages, page, |page|, now);
    var left := PendingSet(users, after, device);
    MarkedIs(messages, page, |page|, now);
    assert ids[..|page|] == ids;
    forall id | id in ids
      ensures id in pending
    {
      var i :| 0 <= i < |page| && ids[i] == id;
      assert PendingFor(users, messages, device, page[i].id);
    }
    assert forall id :: id in left <==> id in pending && id !in ids;
    UnionCount(left, ids, pending);
    assert forall id :: id in left ==> PendingFor(users, messages, device, id) && id !in Ids(page);
    assert |page| < limit ==> left == {};
  }

  // pages[j] is a page the query may return after the first j pages have been marked.
  ghost predicate PollChain(users: Users, messages: Messages, device: string, limit: nat, now: Time, pages: seq<seq<Message>>)
    decreases |pages|
  {
    pages == [] ||
    (PendingPage(users, messages, device, limit, pages[0])
     && PollChain(users, MarkedSynced(messages, pages[0], |pages[0]|, now), device, limit, now, pages[1..]))
  }

  lemma {:induction false} ChainSizes(users: Users, messages: Messages, device: string, limit: nat, now: Time, pages: seq<seq<Message>>, j: nat)
    requires PollChain(users, messages, device, limit, now, pages) && j < |pages|
    ensures j * limit >= 0
    ensures |pages[j]| == Min(limit, Max(0, |PendingSet(users, messages, device)| - j * limit))
    decreases |pages|
  {
    PollOnce(users, messages, device, limit, pages[0], now);
    if j > 0 {
      ChainSizes(users, MarkedSynced(messages, pages[0], |pages[0]|, now), device, limit, now, pages[1..], j - 1);
      assert j * limit == (j - 1) * limit + limit;
    }
  }

  // Of n pending rows, exactly ceil(n/limit) successive polls return something; later ones return nothing.
  lemma PollingDrains(users: Users, messages: Messages, device: string, limit: nat, now: Time, pages: seq<seq<Message>>, j: nat)
    requires limit > 0 && PollChain(users, messages, device, limit, now, pages) && j < |pages|
    ensures pages[j] != [] <==> j < Rounds(|PendingSet(users, messages, device)|, limit)
  {
    ChainSizes(users, messages, device, limit, now, pages, j);
    RoundsCover(|PendingSet(users, messages, device)|, limit, j);
  }
}
