// WAL change delivery to one device over whole runs: the pruned queue and the persisted watermark
// together behave like the full log with a cursor.
module Delivery {
  import opened Prelude
  import opened Lsn
  import opened Models
  import opened Database
  import opened ChangeTracking
  import opened Syncing

  // ---------------------------------------------------------------- logs

  ghost predicate Increasing(log: seq<WALChange>) {
    forall i, j :: 0 <= i < j < |log| ==> log[i].lsn < log[j].lsn
  }

  ghost predicate NonDecreasing(log: seq<WALChange>) {
    forall i, j :: 0 <= i < j < |log| ==> log[i].lsn <= log[j].lsn
  }

  ghost predicate Convertible(log: seq<WALChange>) {
    forall i :: 0 <= i < |log| ==> Convert(log[i]).Ok?
  }

  function Mark(row: Option<SyncMetadata>): Option<LSN> {
    if row.None? then None else Watermark(row.value)
  }

  // Within log[from..to], exactly the changes from position m on are above the mark.
  ghost predicate CutsAt(log: seq<WALChange>, from: nat, m: nat, to: nat, mark: Option<LSN>)
    requires to <= |log|
  {
    && from <= m <= to
    && (forall i :: from <= i < m ==> !Above(log[i], mark))
    && (forall i :: m <= i < to ==> Above(log[i], mark))
  }

  // Position of the first change of log[from..end] above the mark.
  ghost function CutOf(log: seq<WALChange>, from: nat, end: nat, mark: Option<LSN>): (m: nat)
    requires NonDecreasing(log) && from <= end <= |log|
    ensures CutsAt(log, from, m, end, mark)
    decreases end
  {
    if from == end || !Above(log[end - 1], mark) then end else CutOf(log, from, end - 1, mark)
  }

  lemma {:induction false} ConvertedEach(cs: seq<WALChange>)
    requires Convertible(cs)
    ensures |Converted(cs)| == |cs|
    ensures forall i :: 0 <= i < |cs| ==> Converted(cs)[i] == Convert(cs[i]).value
  {
    if cs != [] {
      ConvertedEach(cs[..|cs| - 1]);
    }
  }

  lemma {:induction false} ConvertedConcat(a: seq<WALChange>, b: seq<WALChange>)
    ensures Converted(a + b) == Converted(a) + Converted(b)
  {
    if b == [] {
      assert a + b == a;
    } else {
      assert (a + b)[..|a + b| - 1] == a + b[..|b| - 1];
      ConvertedConcat(a, b[..|b| - 1]);
    }
  }

  lemma {:induction false} MaxLsnIsLast(cs: seq<WALChange>)
    requires cs != [] && NonDecreasing(cs) && Convertible(cs)
    ensures MaxLsn(cs) == cs[|cs| - 1].lsn
  {
    var p := cs[..|cs| - 1];
    if p != [] {
      MaxLsnIsLast(p);
    }
  }

  lemma NewerCut(log: seq<WALChange>, from: nat, m: nat, to: nat, mark: Option<LSN>)
    requires to <= |log| && CutsAt(log, from, m, to, mark)
    ensures Newer(log[from..to], mark) == log[m..to]
  {
    assert log[from..to] == log[from..m] + log[m..to];
    NewerConcat(log[from..m], log[m..to], mark);
    NewerDropsAll(log[from..m], mark);
    NewerKeepsAll(log[m..to], mark);
  }

  // Where a batch that starts at position m and may run to `to` ends.
  function BatchEnd(m: nat, to: nat, limit: int): nat
    requires m <= to
  {
    if limit > 0 && to - m > limit then m + limit else to
  }

  // The batch a pull reads from a stretch of an increasing log.
  lemma NextBatch(log: seq<WALChange>, from: nat, m: nat, to: nat, mark: Option<LSN>, limit: int) returns (e: nat)
    requires to <= |log| && CutsAt(log, from, m, to, mark)
    ensures e == BatchEnd(m, to, limit) <= to && (m < to ==> m < e)
    ensures ChangeTracking.Page(Newer(log[from..to], mark), limit) == log[m..e]
  {
    e := BatchEnd(m, to, limit);
    NewerCut(log, from, m, to, mark);
    assert limit > 0 && to - m > limit ==> log[m..to][..limit] == log[m..e];
  }

  // What pruning at the last LSN of that batch leaves.
  lemma PrunedBatch(log: seq<WALChange>, from: nat, m: nat, e: nat, to: nat)
    requires Increasing(log) && Convertible(log) && from <= m < e <= to <= |log|
    ensures MaxLsn(log[m..e]) == log[e - 1].lsn
    ensures Newer(log[from..to], Some(log[e - 1].lsn)) == log[e..to]
  {
    MaxLsnIsLast(log[m..e]);
    NewerCut(log, from, e, to, Some(log[e - 1].lsn));
  }

  lemma AdvancedMark(device: string, row: Option<SyncMetadata>, reread: bool, max: LSN, now: Time)
    ensures Mark(Some(Advanced(device, row, reread, max, now))) == Some(max)
  {
    StoredText(if reread || row.None? then FreshRow(device, Syncing) else row.value, max);
  }

  predicate PullFails(lane: Lane, more: bool, f: SyncFaults) {
    f.read || lane.row.None? || (more && f.write)
  }

  // One pull from a lane that holds a stretch of an increasing log takes the next batch above the
  // mark, leaves the rest and moves the mark to the last change taken; or it fails and changes nothing.
  lemma PullTakesNextBatch(device: string, log: seq<WALChange>, from: nat, m: nat, to: nat,
                           lane: Lane, limit: int, now: Time, f: SyncFaults) returns (o: Pulled, e: nat)
    requires Increasing(log) && Convertible(log) && to <= |log|
    requires CutsAt(log, from, m, to, Mark(lane.row)) && lane.queue == log[from..to]
    ensures o == PullWal(device, lane, limit, now, f) && e == BatchEnd(m, to, limit)
    ensures PullFails(lane, m < to, f) ==> o.lane == lane && o.reply.Err?
    ensures !PullFails(lane, m < to, f) && m == to ==> o == Pulled(lane, Ok([]))
    ensures !PullFails(lane, m < to, f) && m < to ==>
      && m < e && o.reply == Ok(Converted(log[m..e])) && o.lane.queue == log[e..to]
      && Mark(o.lane.row) == Some(log[e - 1].lsn)
  {
    o, e := PullWal(device, lane, limit, now, f), BatchEnd(m, to, limit);
    if !f.read && lane.row.Some? {
      var _ := NextBatch(log, from, m, to, Mark(lane.row), limit);
      ConvertedEach(log[m..e]);
      if m < to {
        PrunedBatch(log, from, m, e, to);
        AdvancedMark(device, lane.row, f.reread, log[e - 1].lsn, now);
      }
    }
  }

  // ---------------------------------------------------------------- runs of one device

  // A batch of changes taken out of the queue: it reached the device, or its response was lost on the way
  // or discarded by PerformSync.
  datatype Batch = Batch(toClient: bool, msgs: seq<Message>)

  // `fed` is the position in the log up to which AddChange has been called.
  datatype History = History(lane: Lane, fed: nat, batches: seq<Batch>)

  datatype Event =
    | Feed
    | Pull(limit: int, now: Time, f: SyncFaults, lost: bool)
    | Perform(at: Time, pf: PerformFaults)
    | Status(read: bool, write: bool)
    | Restart(position: nat)

  // Feed is AddChange on the next log record; Restart empties the tracker and rewinds the feed;
  // Status is GetSyncStatus, which creates a row when it cannot read one.
  function Step(device: string, log: seq<WALChange>, h: History, e: Event): History {
    match e
    case Feed =>
      if h.fed < |log| then h.(lane := h.lane.(queue := h.lane.queue + [log[h.fed]]), fed := h.fed + 1) else h
    case Pull(limit, now, f, lost) =>
      var o := PullWal(device, h.lane, limit, now, f);
      h.(lane := o.lane, batches := if o.reply.Ok? then h.batches + [Batch(!lost, o.reply.value)] else h.batches)
    case Perform(now, pf) =>
      var o := PerformWal(device, h.lane, now, pf);
      h.(lane := o.lane, batches := h.batches + [Batch(false, o.batch)])
    case Status(read, write) =>
      if read || h.lane.row.None?
      then h.(lane := h.lane.(row := Upserted(h.lane.row, FreshRow(device, Idle), write)))
      else h
    case Restart(position) =>
      h.(lane := h.lane.(queue := []), fed := Min(position, |log|))
  }

  function Run(device: string, log: seq<WALChange>, h: History, es: seq<Event>): History {
    if es == [] then h else Step(device, log, Run(device, log, h, es[..|es| - 1]), es[|es| - 1])
  }

  function Start(row: Option<SyncMetadata>): History {
    History(Lane([], row), 0, [])
  }

  // Everything taken out of the queue, and the part of it that the device received.
  function Taken(batches: seq<Batch>): seq<Message> {
    if batches == [] then [] else Taken(batches[..|batches| - 1]) + batches[|batches| - 1].msgs
  }

  function Received(batches: seq<Batch>): seq<Message> {
    if batches == [] then []
    else
      var b := batches[|batches| - 1];
      Received(batches[..|batches| - 1]) + if b.toClient then b.msgs else []
  }

  function Missed(batches: seq<Batch>): seq<Message> {
    if batches == [] then []
    else
      var b := batches[|batches| - 1];
      Missed(batches[..|batches| - 1]) + if b.toClient then [] else b.msgs
  }

  function Cursor(h: History): nat {
    |Taken(h.batches)|
  }

  // First log position in the queue.
  function QueueStart(h: History): int {
    h.fed - |h.lane.queue|
  }

  // All replayed changes have been pruned: the queue starts at the cursor.
  predicate Settled(h: History) {
    QueueStart(h) == Cursor(h)
  }

  // The watermark covers everything taken so far.
  ghost predicate MarkCovers(log: seq<WALChange>, h: History) {
    forall i :: 0 <= i < Cursor(h) && i < |log| ==> !Above(log[i], Mark(h.lane.row))
  }

  // The log-and-cursor reading of a device's state.
  ghost predicate Simulates(log: seq<WALChange>, h: History) {
    && 0 <= QueueStart(h) <= Cursor(h) <= |log| && h.fed <= |log|
    && h.lane.queue == log[QueueStart(h)..h.fed]
    && Taken(h.batches) == Converted(log[..Cursor(h)])
    && (forall i :: Cursor(h) <= i < |log| ==> Above(log[i], Mark(h.lane.row)))
    && (Settled(h) || MarkCovers(log, h))
  }

  // What keeps the simulation: a restart replays from the cursor, or from before it while the mark covers
  // what was taken; a row is not re-created over an unread watermark while replayed changes wait.
  ghost predicate Admissible(log: seq<WALChange>, h: History, e: Event) {
    match e
    case Feed => true
    case Pull(_, _, _, _) => true
    case Perform(_, pf) => pf.read ==> Settled(h)
    case Status(read, _) => read ==> Settled(h)
    case Restart(position) => position <= Cursor(h) && (position == Cursor(h) || MarkCovers(log, h))
  }

  ghost predicate AdmissibleRun(device: string, log: seq<WALChange>, h: History, es: seq<Event>) {
    es == [] ||
    (var p := es[..|es| - 1];
     AdmissibleRun(device, log, h, p) && Admissible(log, Run(device, log, h, p), es[|es| - 1]))
  }

  lemma TakenSnoc(batches: seq<Batch>, b: Batch)
    ensures Taken(batches + [b]) == Taken(batches) + b.msgs
    ensures Received(batches + [b]) == Received(batches) + if b.toClient then b.msgs else []
    ensures Missed(batches + [b]) == Missed(batches) + if b.toClient then [] else b.msgs
  {
    assert (batches + [b])[..|batches|] == batches;
  }

  // The position at which the mark cuts the queue of a simulating state.
  lemma QueueCut(log: seq<WALChange>, h: History)
    requires Simulates(log, h)
    ensures CutsAt(log, QueueStart(h), Min(Cursor(h), h.fed), h.fed, Mark(h.lane.row))
  {
  }

  lemma TakenExtends(log: seq<WALChange>, batches: seq<Batch>, n: nat, e: nat, toClient: bool)
    requires Convertible(log) && n <= e <= |log| && Taken(batches) == Converted(log[..n])
    ensures Taken(batches + [Batch(toClient, Converted(log[n..e]))]) == Converted(log[..e])
    ensures |Converted(log[..e])| == e
  {
    TakenSnoc(batches, Batch(toClient, Converted(log[n..e])));
    ConvertedConcat(log[..n], log[n..e]);
    assert log[..e] == log[..n] + log[n..e];
    ConvertedEach(log[..e]);
  }

  // Taking log[Cursor..e] out of the queue moves the cursor over exactly that batch.
  lemma TakenSimulates(log: seq<WALChange>, h: History, e: nat, lane: Lane, toClient: bool) returns (h': History)
    requires Increasing(log) && Convertible(log) && Simulates(log, h)
    requires Cursor(h) < e <= h.fed
    requires lane.queue == log[e..h.fed] && Mark(lane.row) == Some(log[e - 1].lsn)
    ensures h' == h.(lane := lane, batches := h.batches + [Batch(toClient, Converted(log[Cursor(h)..e]))])
    ensures Simulates(log, h') && Settled(h') && MarkCovers(log, h')
    ensures Cursor(h') == e
  {
    h' := h.(lane := lane, batches := h.batches + [Batch(toClient, Converted(log[Cursor(h)..e]))]);
    TakenExtends(log, h.batches, Cursor(h), e, toClient);
  }

  // An empty or missing batch changes nothing that the simulation speaks about.
  lemma NothingTaken(log: seq<WALChange>, h: History, toClient: bool)
    requires Simulates(log, h)
    ensures var h' := h.(batches := h.batches + [Batch(toClient, [])]);
      Simulates(log, h') && Taken(h'.batches) == Taken(h.batches)
  {
    TakenSnoc(h.batches, Batch(toClient, []));
    assert Taken(h.batches) + [] == Taken(h.batches);
  }

  function AfterPull(h: History, o: Pulled, toClient: bool): History {
    h.(lane := o.lane, batches := if o.reply.Ok? then h.batches + [Batch(toClient, o.reply.value)] else h.batches)
  }

  // A pull, whoever asked for it, keeps the simulation: it takes nothing, or it settles the state.
  lemma PullSimulates(device: string, log: seq<WALChange>, h: History, limit: int, now: Time, f: SyncFaults, toClient: bool)
    returns (h': History)
    requires Increasing(log) && Convertible(log) && Simulates(log, h)
    ensures h' == AfterPull(h, PullWal(device, h.lane, limit, now, f), toClient)
    ensures Simulates(log, h')
    ensures (h'.lane == h.lane && Cursor(h') == Cursor(h)) || (Cursor(h') > Cursor(h) && Settled(h') && MarkCovers(log, h'))
  {
    var n, to := Cursor(h), h.fed;
    var m := Min(n, to);
    QueueCut(log, h);
    var o, e := PullTakesNextBatch(device, log, QueueStart(h), m, to, h.lane, limit, now, f);
    h' := AfterPull(h, o, toClient);
    if !PullFails(h.lane, m < to, f) {
      if m < to {
        var _ := TakenSimulates(log, h, e, o.lane, toClient);
      } else {
        NothingTaken(log, h, toClient);
      }
    }
  }

  // Rewriting the row keeps the simulation if the new watermark covers no more than the log before the cursor.
  lemma RowRewritten(log: seq<WALChange>, h: History, row: Option<SyncMetadata>)
    requires Simulates(log, h)
    requires forall i :: Cursor(h) <= i < |log| ==> Above(log[i], Mark(row))
    requires Settled(h) || Mark(row) == Mark(h.lane.row)
    ensures Simulates(log, h.(lane := h.lane.(row := row)))
    ensures Settled(h) ==> Settled(h.(lane := h.lane.(row := row)))
  {
  }

  lemma UpsertedMark(row: Option<SyncMetadata>, sm: SyncMetadata, fault: bool)
    ensures Mark(Upserted(row, sm, fault)) == Mark(row) || Mark(Upserted(row, sm, fault)) == Watermark(sm)
  {
    StoredWatermark(sm);
  }

  // PerformSync's opening write keeps the watermark, or drops it when the row could not be read.
  lemma PerformOpens(device: string, log: seq<WALChange>, h: History, read: bool, write: bool)
    returns (sm: SyncMetadata, h': History)
    requires Simulates(log, h) && (read ==> Settled(h))
    ensures sm == PerformOpening(device, h.lane.row, read)
    ensures h' == h.(lane := h.lane.(row := Upserted(h.lane.row, sm, write)))
    ensures Simulates(log, h') && (Settled(h) ==> Settled(h'))
    ensures Mark(h'.lane.row) == Mark(h.lane.row) || (Mark(h'.lane.row) == None && Settled(h))
    ensures Watermark(sm) == if read then None else Mark(h.lane.row)
  {
    sm := PerformOpening(device, h.lane.row, read);
    UpsertedMark(h.lane.row, sm, write);
    RowRewritten(log, h, Upserted(h.lane.row, sm, write));
    h' := h.(lane := h.lane.(row := Upserted(h.lane.row, sm, write)));
  }

  // Its closing write puts back the watermark it read, which covers no more than the log before the cursor.
  lemma PerformCloses(log: seq<WALChange>, h: History, sm: SyncMetadata, ok: bool, now: Time, finish: bool)
    requires Simulates(log, h)
    requires forall i :: Cursor(h) <= i < |log| ==> Above(log[i], Watermark(sm))
    requires Settled(h) || Watermark(sm) == Mark(h.lane.row)
    ensures var h' := h.(lane := h.lane.(row := Upserted(h.lane.row, PerformClosing(sm, ok, now), finish)));
      Simulates(log, h') && (Settled(h) ==> Settled(h'))
  {
    UpsertedMark(h.lane.row, PerformClosing(sm, ok, now), finish);
    RowRewritten(log, h, Upserted(h.lane.row, PerformClosing(sm, ok, now), finish));
  }

  lemma PerformSimulates(device: string, log: seq<WALChange>, h: History, now: Time, pf: PerformFaults)
    requires Increasing(log) && Convertible(log) && Simulates(log, h)
    requires pf.read ==> Settled(h)
    ensures Simulates(log, Step(device, log, h, Perform(now, pf)))
    ensures Settled(h) ==> Settled(Step(device, log, h, Perform(now, pf)))
  {
    var sm, h1 := PerformOpens(device, log, h, pf.read, pf.write);
    var h2 := PullSimulates(device, log, h1, PERFORM_LIMIT, now, pf.sync, false);
    var o := PullWal(device, h1.lane, PERFORM_LIMIT, now, pf.sync);
    if o.reply.Err? {
      NothingTaken(log, h2, false);
      h2 := h2.(batches := h2.batches + [Batch(false, [])]);
    }
    PerformCloses(log, h2, sm, o.reply.Ok?, now, pf.finish);
  }

  lemma FeedSimulates(device: string, log: seq<WALChange>, h: History)
    requires Simulates(log, h)
    ensures Simulates(log, Step(device, log, h, Feed))
    ensures Settled(h) ==> Settled(Step(device, log, h, Feed))
  {
    if h.fed < |log| {
      var q := h.lane.queue + [log[h.fed]];
      assert q == log[QueueStart(h)..h.fed + 1];
      var h' := h.(lane := h.lane.(queue := q), fed := h.fed + 1);
      assert QueueStart(h') == QueueStart(h) && Cursor(h') == Cursor(h);
    }
  }

  lemma RestartSimulates(device: string, log: seq<WALChange>, h: History, position: nat)
    requires Simulates(log, h) && Admissible(log, h, Restart(position))
    ensures Simulates(log, Step(device, log, h, Restart(position)))
  {
    var h' := Step(device, log, h, Restart(position));
    assert QueueStart(h') == position == h'.fed && Cursor(h') == Cursor(h);
    assert log[position..position] == [];
  }

  lemma StatusSimulates(device: string, log: seq<WALChange>, h: History, read: bool, write: bool)
    requires Simulates(log, h) && (read ==> Settled(h))
    ensures Simulates(log, Step(device, log, h, Status(read, write)))
    ensures Settled(h) ==> Settled(Step(device, log, h, Status(read, write)))
  {
    if read || h.lane.row.None? {
      UpsertedMark(h.lane.row, FreshRow(device, Idle), write);
      RowRewritten(log, h, Upserted(h.lane.row, FreshRow(device, Idle), write));
    }
  }

  lemma StepSimulates(device: string, log: seq<WALChange>, h: History, e: Event)
    requires Increasing(log) && Convertible(log) && Simulates(log, h) && Admissible(log, h, e)
    ensures Simulates(log, Step(device, log, h, e))
    ensures Settled(h) && !e.Restart? ==> Settled(Step(device, log, h, e))
  {
    match e
    case Feed => FeedSimulates(device, log, h);
    case Pull(limit, now, f, lost) => var _ := PullSimulates(device, log, h, limit, now, f, !lost);
    case Perform(now, pf) => PerformSimulates(device, log, h, now, pf);
    case Status(read, write) => StatusSimulates(device, log, h, read, write);
    case Restart(position) => RestartSimulates(device, log, h, position);
  }

  // Main result: over every admissible run, with any limits, failed statements, PerformSync calls and
  // restarts, the batches taken are exactly a prefix of the log, in order and without repetition, and
  // the queue holds the log from the cursor on (plus, after a restart, replayed changes before it).
  lemma {:induction false} RunSimulates(device: string, log: seq<WALChange>, h: History, es: seq<Event>)
    requires Increasing(log) && Convertible(log) && Simulates(log, h)
    requires AdmissibleRun(device, log, h, es)
    ensures Simulates(log, Run(device, log, h, es))
  {
    if es != [] {
      var p := es[..|es| - 1];
      RunSimulates(device, log, h, p);
      StepSimulates(device, log, Run(device, log, h, p), es[|es| - 1]);
    }
  }
}
