// The whole server: WAL changes routed by AddChange to many devices, interleaved with the syncs of all
// of them, under any history of the users table.
module ServerRuns {
  import opened Prelude
  import opened Models
  import opened Database
  import opened ChangeTracking
  import opened Syncing
  import opened Delivery
  import opened DeliveryRuns

  // What the server holds and has handed out for one device.
  datatype Account = Account(lane: Lane, batches: seq<Batch>)

  type Server = string -> Account

  // users is the users table at the moment the change arrives.
  datatype ServerEvent =
    | Arrive(users: Users, change: WALChange, lookups: LookupFaults)
    | Fetch(device: string, limit: int, now: Time, f: SyncFaults, lost: bool)
    | PerformFor(device: string, at: Time, pf: PerformFaults)
    | StatusOf(device: string, read: bool, write: bool)

  ghost predicate Enqueues(e: ServerEvent, device: string) {
    e.Arrive? && !LookupFails(e.change, e.lookups) && Delivers(e.users, e.change, device)
  }

  // The event as one device sees it; None if it does not concern the device.
  ghost function Seen(e: ServerEvent, device: string): Option<Event> {
    match e
    case Arrive(_, _, _) => if Enqueues(e, device) then Some(Feed) else None
    case Fetch(d, limit, now, f, lost) => if d == device then Some(Pull(limit, now, f, lost)) else None
    case PerformFor(d, now, pf) => if d == device then Some(Perform(now, pf)) else None
    case StatusOf(d, read, write) => if d == device then Some(Status(read, write)) else None
  }

  // One server step: AddChange appends to the queues of the devices it routes to; the other calls act
  // on the account of the device they name.
  ghost function ServerStep(s: Server, e: ServerEvent): Server {
    match e
    case Arrive(_, c, _) =>
      (d: string) =>
        if Enqueues(e, d) then s(d).(lane := s(d).lane.(queue := s(d).lane.queue + [c])) else s(d)
    case Fetch(device, limit, now, f, lost) =>
      (d: string) =>
        if d != device then s(d)
        else
          var o := PullWal(d, s(d).lane, limit, now, f);
          Account(o.lane, if o.reply.Ok? then s(d).batches + [Batch(!lost, o.reply.value)] else s(d).batches)
    case PerformFor(device, now, pf) =>
      (d: string) =>
        if d != device then s(d)
        else
          var o := PerformWal(d, s(d).lane, now, pf);
          Account(o.lane, s(d).batches + [Batch(false, o.batch)])
    case StatusOf(device, read, write) =>
      (d: string) =>
        if d != device || (!read && s(d).lane.row.Some?) then s(d)
        else s(d).(lane := s(d).lane.(row := Upserted(s(d).lane.row, FreshRow(d, Idle), write)))
  }

  ghost function ServerRun(s: Server, es: seq<ServerEvent>): Server {
    if es == [] then s else ServerStep(ServerRun(s, es[..|es| - 1]), es[|es| - 1])
  }

  // The changes the run routes to a device, and the events the device sees.
  ghost function RoutedLog(es: seq<ServerEvent>, device: string): seq<WALChange> {
    if es == [] then []
    else
      var e := es[|es| - 1];
      RoutedLog(es[..|es| - 1], device) + if Enqueues(e, device) then [e.change] else []
  }

  ghost function SeenEvents(es: seq<ServerEvent>, device: string): seq<Event> {
    if es == [] then []
    else
      var seen := Seen(es[|es| - 1], device);
      SeenEvents(es[..|es| - 1], device) + if seen.Some? then [seen.value] else []
  }

  // A fresh tracker over given metadata rows.
  function Initial(meta: Metadata): Server {
    (d: string) => Account(Lane([], RowOf(meta, d)), [])
  }

  function HistoryOf(a: Account, fed: nat): History {
    History(a.lane, fed, a.batches)
  }

  lemma StepProjects(s: Server, e: ServerEvent, device: string, log: seq<WALChange>, fed: nat)
    requires Enqueues(e, device) ==> fed < |log| && log[fed] == e.change
    ensures var after := HistoryOf(ServerStep(s, e)(device), fed + if Enqueues(e, device) then 1 else 0);
      match Seen(e, device)
      case None => after == HistoryOf(s(device), fed)
      case Some(seen) => after == Step(device, log, HistoryOf(s(device), fed), seen)
  {
  }

  // Seen from one device, a server run is a run of that device over its own routed log.
  lemma {:induction false} Projection(meta: Metadata, es: seq<ServerEvent>, device: string, log: seq<WALChange>)
    requires RoutedLog(es, device) <= log
    ensures Run(device, log, Start(RowOf(meta, device)), SeenEvents(es, device))
      == HistoryOf(ServerRun(Initial(meta), es)(device), |RoutedLog(es, device)|)
  {
    if es != [] {
      var p, e := es[..|es| - 1], es[|es| - 1];
      Projection(meta, p, device, log);
      assert Enqueues(e, device) ==> log[|RoutedLog(p, device)|] == e.change;
      StepProjects(ServerRun(Initial(meta), p), e, device, log, |RoutedLog(p, device)|);
      var seen := Seen(e, device);
      if seen.Some? {
        RunSnoc(device, log, Start(RowOf(meta, device)), SeenEvents(p, device), seen.value);
      } else {
        assert SeenEvents(es, device) == SeenEvents(p, device);
      }
    }
  }

  lemma {:induction false} RoutedConvertible(es: seq<ServerEvent>, device: string)
    ensures Convertible(RoutedLog(es, device))
  {
    if es != [] {
      RoutedConvertible(es[..|es| - 1], device);
    }
  }

  lemma {:induction false} NoRestartSeen(es: seq<ServerEvent>, device: string)
    ensures forall i :: 0 <= i < |SeenEvents(es, device)| ==> !SeenEvents(es, device)[i].Restart?
  {
    if es != [] {
      NoRestartSeen(es[..|es| - 1], device);
    }
  }

  // Every run of the server, for every device: if the changes routed to it carry increasing LSNs above its
  // first watermark, its batches are a prefix of its routed log, its queue is the rest, and the device
  // misses only what PerformSync discarded or the network lost.
  lemma ServerDeliversLog(meta: Metadata, es: seq<ServerEvent>, device: string)
    requires var log := RoutedLog(es, device);
      Increasing(log) && forall i :: 0 <= i < |log| ==> Above(log[i], Mark(RowOf(meta, device)))
    ensures var log, a := RoutedLog(es, device), ServerRun(Initial(meta), es)(device);
      var n := |Taken(a.batches)|;
      && n <= |log|
      && Taken(a.batches) == Converted(log[..n]) && a.lane.queue == log[n..]
      && n == |Received(a.batches)| + |Missed(a.batches)|
      && (Missed(a.batches) == [] ==> Received(a.batches) == Converted(log[..n]))
  {
    var log := RoutedLog(es, device);
    RoutedConvertible(es, device);
    NoRestartSeen(es, device);
    Projection(meta, es, device, log);
    NoRestartExact(device, log, RowOf(meta, device), SeenEvents(es, device));
    TakenSplits(ServerRun(Initial(meta), es)(device).batches);
    var n := |Taken(ServerRun(Initial(meta), es)(device).batches)|;
    assert log[n..|log|] == log[n..];
  }
}
