// The whole server over one write-ahead log, with restarts that empty the tracker and replay the log to all
// devices from an earlier position. The users table stays as it is and its lookups succeed, so a replayed
// change is routed as it was the first time.
module ServerRestarts {
  import opened Prelude
  import opened Models
  import opened Database
  import opened ChangeTracking
  import opened Syncing
  import opened Delivery
  import opened DeliveryRuns
  import opened ServerRuns

  const NO_LOOKUP_FAULTS := LookupFaults(false, false, false)

  // next: the position in the log of the change AddChange gets next.
  datatype WalServer = WalServer(accounts: Server, next: nat)

  // Call is any step of the server other than an arriving change.
  datatype WalEvent = ReadNext | Call(e: ServerEvent) | Crash(position: nat)

  predicate Legal(e: WalEvent) {
    e.Call? ==> !e.e.Arrive?
  }

  function Emptied(a: Account): Account {
    a.(lane := a.lane.(queue := []))
  }

  ghost function WalStep(users: Users, wal: seq<WALChange>, s: WalServer, e: WalEvent): WalServer {
    match e
    case ReadNext =>
      if s.next < |wal| then WalServer(ServerStep(s.accounts, Arrive(users, wal[s.next], NO_LOOKUP_FAULTS)), s.next + 1) else s
    case Call(call) => s.(accounts := ServerStep(s.accounts, call))
    case Crash(position) => WalServer((d: string) => Emptied(s.accounts(d)), Min(position, |wal|))
  }

  ghost function WalRun(users: Users, wal: seq<WALChange>, s: WalServer, es: seq<WalEvent>): WalServer {
    if es == [] then s else WalStep(users, wal, WalRun(users, wal, s, es[..|es| - 1]), es[|es| - 1])
  }

  function Booted(meta: Metadata): WalServer {
    WalServer(Initial(meta), 0)
  }

  // ---------------------------------------------------------------- one device's part of the log

  ghost function DeviceLog(users: Users, wal: seq<WALChange>, device: string): seq<WALChange> {
    if wal == [] then []
    else
      var c := wal[|wal| - 1];
      DeviceLog(users, wal[..|wal| - 1], device) + if Delivers(users, c, device) then [c] else []
  }

  lemma {:induction false} DeviceLogConcat(users: Users, a: seq<WALChange>, b: seq<WALChange>, device: string)
    ensures DeviceLog(users, a + b, device) == DeviceLog(users, a, device) + DeviceLog(users, b, device)
  {
    if b == [] {
      assert a + b == a;
    } else {
      assert (a + b)[..|a + b| - 1] == a + b[..|b| - 1];
      DeviceLogConcat(users, a, b[..|b| - 1], device);
    }
  }

  lemma {:induction false} DeviceLogMembers(users: Users, wal: seq<WALChange>, device: string, c: WALChange)
    ensures c in DeviceLog(users, wal, device) <==> c in wal && Delivers(users, c, device)
  {
    if wal != [] {
      DeviceLogMembers(users, wal[..|wal| - 1], device, c);
      assert wal == wal[..|wal| - 1] + [wal[|wal| - 1]];
    }
  }

  lemma {:induction false} DeviceLogIncreasing(users: Users, wal: seq<WALChange>, device: string)
    requires Increasing(wal)
    ensures Increasing(DeviceLog(users, wal, device)) && Convertible(DeviceLog(users, wal, device))
  {
    if wal != [] {
      var p, last := wal[..|wal| - 1], wal[|wal| - 1];
      DeviceLogIncreasing(users, p, device);
      var log := DeviceLog(users, p, device);
      forall i | 0 <= i < |log|
        ensures log[i].lsn < last.lsn
      {
        DeviceLogMembers(users, p, device, log[i]);
      }
    }
  }

  // Where the device's log stands when the server is about to read position `at`.
  ghost function Reached(users: Users, wal: seq<WALChange>, device: string, at: nat): nat {
    |DeviceLog(users, wal[..Min(at, |wal|)], device)|
  }

  lemma ReachedBound(users: Users, wal: seq<WALChange>, device: string, at: nat)
    requires at <= |wal|
    ensures Reached(users, wal, device, at) <= |DeviceLog(users, wal, device)|
    ensures DeviceLog(users, wal[..at], device) <= DeviceLog(users, wal, device)
  {
    assert wal[..at] + wal[at..] == wal;
    DeviceLogConcat(users, wal[..at], wal[at..], device);
  }

  lemma ReachedNext(users: Users, wal: seq<WALChange>, device: string, at: nat)
    requires at < |wal|
    ensures Delivers(users, wal[at], device) ==>
      && Reached(users, wal, device, at) < |DeviceLog(users, wal, device)|
      && DeviceLog(users, wal, device)[Reached(users, wal, device, at)] == wal[at]
      && Reached(users, wal, device, at + 1) == Reached(users, wal, device, at) + 1
    ensures !Delivers(users, wal[at], device) ==> Reached(users, wal, device, at + 1) == Reached(users, wal, device, at)
  {
    assert wal[..at + 1][..at] == wal[..at];
    ReachedBound(users, wal, device, at + 1);
  }

  // ---------------------------------------------------------------- the server as one device sees it

  ghost function SeenAt(users: Users, wal: seq<WALChange>, s: WalServer, e: WalEvent, device: string): Option<Event> {
    match e
    case ReadNext => if s.next < |wal| && Delivers(users, wal[s.next], device) then Some(Feed) else None
    case Call(call) => Seen(call, device)
    case Crash(position) => Some(Restart(Reached(users, wal, device, position)))
  }

  ghost function SeenOf(users: Users, wal: seq<WALChange>, s: WalServer, es: seq<WalEvent>, device: string): seq<Event> {
    if es == [] then []
    else
      var p := es[..|es| - 1];
      var seen := SeenAt(users, wal, WalRun(users, wal, s, p), es[|es| - 1], device);
      SeenOf(users, wal, s, p, device) + if seen.Some? then [seen.value] else []
  }

  ghost function Viewed(users: Users, wal: seq<WALChange>, s: WalServer, device: string): History {
    HistoryOf(s.accounts(device), Reached(users, wal, device, s.next))
  }

  lemma ReadProjects(users: Users, wal: seq<WALChange>, s: WalServer, device: string)
    requires s.next < |wal|
    ensures var s', h := WalStep(users, wal, s, ReadNext), Viewed(users, wal, s, device);
      Viewed(users, wal, s', device) ==
        if Delivers(users, wal[s.next], device) then Step(device, DeviceLog(users, wal, device), h, Feed) else h
  {
    ReachedNext(users, wal, device, s.next);
    var arrive := Arrive(users, wal[s.next], NO_LOOKUP_FAULTS);
    assert Enqueues(arrive, device) <==> Delivers(users, wal[s.next], device);
    var log, at := DeviceLog(users, wal, device), Reached(users, wal, device, s.next);
    assert Viewed(users, wal, WalStep(users, wal, s, ReadNext), device) ==
      HistoryOf(ServerStep(s.accounts, arrive)(device), at + if Enqueues(arrive, device) then 1 else 0);
    StepProjects(s.accounts, arrive, device, log, at);
  }

  lemma CrashProjects(users: Users, wal: seq<WALChange>, s: WalServer, position: nat, device: string)
    ensures Viewed(users, wal, WalStep(users, wal, s, Crash(position)), device) ==
      Step(device, DeviceLog(users, wal, device), Viewed(users, wal, s, device), Restart(Reached(users, wal, device, position)))
  {
    var at := Reached(users, wal, device, position);
    assert at == Reached(users, wal, device, Min(position, |wal|));
    assert Min(at, |DeviceLog(users, wal, device)|) == at by {
      ReachedBound(users, wal, device, Min(position, |wal|));
    }
    assert Viewed(users, wal, WalStep(users, wal, s, Crash(position)), device) == HistoryOf(Emptied(s.accounts(device)), at);
  }

  lemma WalStepProjects(users: Users, wal: seq<WALChange>, s: WalServer, e: WalEvent, device: string)
    requires s.next <= |wal| && Legal(e)
    ensures WalStep(users, wal, s, e).next <= |wal|
    ensures var h', seen := Viewed(users, wal, WalStep(users, wal, s, e), device), SeenAt(users, wal, s, e, device);
      && (seen.None? ==> h' == Viewed(users, wal, s, device))
      && (seen.Some? ==> h' == Step(device, DeviceLog(users, wal, device), Viewed(users, wal, s, device), seen.value))
  {
    match e
    case ReadNext =>
      if s.next < |wal| {
        ReadProjects(users, wal, s, device);
      }
    case Call(call) => StepProjects(s.accounts, call, device, DeviceLog(users, wal, device), Reached(users, wal, device, s.next));
    case Crash(position) => CrashProjects(users, wal, s, position, device);
  }

  lemma {:induction false} WalProjection(users: Users, wal: seq<WALChange>, meta: Metadata, es: seq<WalEvent>, device: string)
    requires forall e :: e in es ==> Legal(e)
    ensures var s := WalRun(users, wal, Booted(meta), es);
      && s.next <= |wal|
      && Viewed(users, wal, s, device) ==
        Run(device, DeviceLog(users, wal, device), Start(RowOf(meta, device)), SeenOf(users, wal, Booted(meta), es, device))
  {
    if es == [] {
      assert wal[..0] == [];
    } else {
      var p, e := es[..|es| - 1], es[|es| - 1];
      WalProjection(users, wal, meta, p, device);
      var s := WalRun(users, wal, Booted(meta), p);
      WalStepProjects(users, wal, s, e, device);
      var seen := SeenAt(users, wal, s, e, device);
      if seen.Some? {
        RunSnoc(device, DeviceLog(users, wal, device), Start(RowOf(meta, device)), SeenOf(users, wal, Booted(meta), p, device), seen.value);
      } else {
        assert SeenOf(users, wal, Booted(meta), es, device) == SeenOf(users, wal, Booted(meta), p, device);
      }
    }
  }

  // ---------------------------------------------------------------- restarts

  // Nobody rewrites this device's row over an unread or stale watermark; other devices may do anything.
  predicate LeavesRow(e: WalEvent, device: string) {
    e.Call? ==> !(e.e.PerformFor? && e.e.device == device) && !(e.e.StatusOf? && e.e.device == device && e.e.read)
  }

  predicate LosesReply(e: WalEvent, device: string) {
    e.Call? && e.e.Fetch? && e.e.device == device && e.e.lost
  }

  // Each crash replays this device's changes from a position at or before what was taken for it.
  ghost predicate CrashesBehind(users: Users, wal: seq<WALChange>, s: WalServer, es: seq<WalEvent>, device: string) {
    es == [] ||
    (var p := es[..|es| - 1];
     var e := es[|es| - 1];
     && CrashesBehind(users, wal, s, p, device)
     && (e.Crash? ==>
           Reached(users, wal, device, e.position) <= |Taken(WalRun(users, wal, s, p).accounts(device).batches)|))
  }

  lemma SeenOne(users: Users, wal: seq<WALChange>, s: WalServer, e: WalEvent, device: string)
    requires Legal(e) && LeavesRow(e, device)
    ensures var seen := SeenAt(users, wal, s, e, device);
      seen.Some? ==> OnlyIncoming(seen.value) && (seen.value.Pull? && seen.value.lost ==> LosesReply(e, device))
  {
  }

  ghost predicate NoneLost(es: seq<Event>) {
    forall e :: e in es ==> !(e.Pull? && e.lost)
  }

  lemma {:induction false} SeenIncoming(users: Users, wal: seq<WALChange>, s: WalServer, es: seq<WalEvent>, device: string)
    requires forall e :: e in es ==> Legal(e) && LeavesRow(e, device)
    ensures forall e :: e in SeenOf(users, wal, s, es, device) ==> OnlyIncoming(e)
    ensures (forall e :: e in es ==> !LosesReply(e, device)) ==> NoneLost(SeenOf(users, wal, s, es, device))
  {
    if es != [] {
      var p, e := es[..|es| - 1], es[|es| - 1];
      assert es == p + [e];
      SeenIncoming(users, wal, s, p, device);
      SeenOne(users, wal, WalRun(users, wal, s, p), e, device);
    }
  }

  // A run seen from a device, with one more event.
  lemma BehindSnoc(device: string, log: seq<WALChange>, h: History, es: seq<Event>, e: Event)
    requires RestartsBehindCursor(device, log, h, es)
    requires e.Restart? ==> e.position <= Cursor(Run(device, log, h, es))
    ensures RestartsBehindCursor(device, log, h, es + [e])
  {
    assert (es + [e])[..|es|] == es;
  }

  lemma SeenRestart(users: Users, wal: seq<WALChange>, s: WalServer, e: WalEvent, device: string)
    requires e.Crash? ==> Reached(users, wal, device, e.position) <= |Taken(s.accounts(device).batches)|
    ensures var seen := SeenAt(users, wal, s, e, device);
      seen.Some? && seen.value.Restart? ==> seen.value.position <= Cursor(Viewed(users, wal, s, device))
  {
  }

  lemma {:induction false} SeenBehind(users: Users, wal: seq<WALChange>, meta: Metadata, es: seq<WalEvent>, device: string)
    requires forall e :: e in es ==> Legal(e)
    requires CrashesBehind(users, wal, Booted(meta), es, device)
    ensures RestartsBehindCursor(device, DeviceLog(users, wal, device), Start(RowOf(meta, device)),
                                 SeenOf(users, wal, Booted(meta), es, device))
  {
    if es != [] {
      var p, e := es[..|es| - 1], es[|es| - 1];
      SeenBehind(users, wal, meta, p, device);
      WalProjection(users, wal, meta, p, device);
      var s := WalRun(users, wal, Booted(meta), p);
      SeenRestart(users, wal, s, e, device);
      var before, seen := SeenOf(users, wal, Booted(meta), p, device), SeenAt(users, wal, s, e, device);
      if seen.Some? {
        BehindSnoc(device, DeviceLog(users, wal, device), Start(RowOf(meta, device)), before, seen.value);
      } else {
        assert before + [] == before;
      }
    }
  }

  // Over every run of the whole server with crashes and replays, for every device that is served through
  // SyncIncoming and no crash skips ahead of: what was taken for it is a prefix of its part of the log, and the
  // device has received all of that if none of its responses was lost.
  lemma CrashedServerDelivers(users: Users, wal: seq<WALChange>, meta: Metadata, es: seq<WalEvent>, device: string)
    requires Increasing(wal)
    requires forall c :: c in wal && Delivers(users, c, device) ==> Above(c, Mark(RowOf(meta, device)))
    requires forall e :: e in es ==> Legal(e) && LeavesRow(e, device)
    requires CrashesBehind(users, wal, Booted(meta), es, device)
    ensures var log, a := DeviceLog(users, wal, device), WalRun(users, wal, Booted(meta), es).accounts(device);
      var n := |Taken(a.batches)|;
      && n <= |log| && Taken(a.batches) == Converted(log[..n])
      && n == |Received(a.batches)| + |Missed(a.batches)|
      && ((forall e :: e in es ==> !LosesReply(e, device)) ==> Received(a.batches) == Converted(log[..n]))
  {
    var log, row := DeviceLog(users, wal, device), RowOf(meta, device);
    DeviceLogIncreasing(users, wal, device);
    forall i | 0 <= i < |log|
      ensures Above(log[i], Mark(row))
    {
      DeviceLogMembers(users, wal, device, log[i]);
    }
    WalProjection(users, wal, meta, es, device);
    SeenBehind(users, wal, meta, es, device);
    SeenIncoming(users, wal, Booted(meta), es, device);
    RestartsExact(device, log, row, SeenOf(users, wal, Booted(meta), es, device));
  }
}
