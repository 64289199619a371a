// Concurrent WAL syncs of one device. The engine reads the metadata row, copies the queue under the read
// lock, writes the row and prunes the queue under the write lock as four separate steps; AddChange, other
// syncs and full-row writers run in between, and a crash may strike at any point. The row write is a second read of the row and an upsert, two
// statements that WriteRow joins: the upsert replaces the watermark whatever the second read returned, so
// only the row's other columns could be stale, and no theorem here is about those.
module Interleaving {
  import opened Prelude
  import opened Lsn
  import opened Models
  import opened Database
  import opened ChangeTracking
  import opened Syncing
  import opened Delivery

  // Where one request stands.
  datatype Phase =
    | HasMark(mark: Option<LSN>)       // GetChangesForDevice has read the row
    | HasBatch(batch: seq<WALChange>)  // it has copied the queue; the batch is not empty
    | HasWritten(max: LSN)             // the new watermark is stored; the queue is not yet pruned
    | HoldsRow(sm: SyncMetadata)       // a full-row writer (PerformSync) has read the row, or made one up

  // replies: the batches whose sync has stored its watermark and can no longer fail.
  // fed: the changes routed to the device so far; the first `at` of them have been enqueued since the last
  // restart. high: the last position assigned by the write-ahead log.
  datatype State = State(
    fed: seq<WALChange>, at: nat, high: LSN, queue: seq<WALChange>, row: Option<SyncMetadata>,
    threads: map<nat, Phase>, replies: seq<seq<WALChange>>)

  // Add enqueues a new change, Replay the next one again after a Crash, which loses the queue and all requests.
  datatype Action =
    | Add(c: WALChange)
    | Replay
    | Crash(k: nat)
    | ReadRow(t: nat)
    | CopyQueue(t: nat, limit: int)
    | WriteRow(t: nat, now: Time, reread: bool, fault: bool)
    | Prune(t: nat)
    | TakeRow(t: nat, read: bool)
    | PutRow(t: nat, fault: bool)

  // All changes in the replies.
  function Answered(replies: seq<seq<WALChange>>): set<WALChange> {
    if replies == [] then {} else Answered(replies[..|replies| - 1]) + Elements(replies[|replies| - 1])
  }

  // A replay from position k on skips only answered changes.
  predicate Recoverable(s: State, k: nat) {
    k <= |s.fed| && forall i :: 0 <= i < k ==> s.fed[i] in Answered(s.replies)
  }

  predicate Enabled(s: State, a: Action) {
    match a
    case Add(c) => s.at == |s.fed| && Convert(c).Ok? && c.lsn > s.high
    case Replay => s.at < |s.fed|
    case Crash(k) => Recoverable(s, k)
    case ReadRow(t) => t !in s.threads && s.row.Some?
    case CopyQueue(t, _) => t in s.threads && s.threads[t].HasMark?
    case WriteRow(t, _, _, _) => t in s.threads && s.threads[t].HasBatch?
    case Prune(t) => t in s.threads && s.threads[t].HasWritten?
    case TakeRow(t, _) => t !in s.threads
    case PutRow(t, _) => t in s.threads && s.threads[t].HoldsRow?
  }

  function Next(device: string, s: State, a: Action): State
    requires Enabled(s, a)
  {
    match a
    case Add(c) => s.(fed := s.fed + [c], at := s.at + 1, high := c.lsn, queue := s.queue + [c])
    case Replay => s.(queue := s.queue + [s.fed[s.at]], at := s.at + 1)
    case Crash(k) => s.(queue := [], at := k, threads := map[])
    case ReadRow(t) => s.(threads := s.threads[t := HasMark(Watermark(s.row.value))])
    case CopyQueue(t, limit) =>
      var batch := ChangeTracking.Page(Newer(s.queue, s.threads[t].mark), limit);
      if Converted(batch) == [] then s.(threads := s.threads - {t})
      else s.(threads := s.threads[t := HasBatch(batch)])
    case WriteRow(t, now, reread, fault) =>
      if fault then s.(threads := s.threads - {t})
      else
        var batch := s.threads[t].batch;
        s.(row := Some(Advanced(device, s.row, reread, MaxLsn(batch), now)),
           threads := s.threads[t := HasWritten(MaxLsn(batch))], replies := s.replies + [batch])
    case Prune(t) => s.(queue := Newer(s.queue, Some(s.threads[t].max)), threads := s.threads - {t})
    case TakeRow(t, read) => s.(threads := s.threads[t := HoldsRow(PerformOpening(device, s.row, read))])
    case PutRow(t, fault) => s.(row := Upserted(s.row, s.threads[t].sm, fault))
  }

  // ---------------------------------------------------------------- the invariant

  // Everything enqueued up to the mark is in some reply (or in the given extra batch).
  ghost predicate Covered(s: State, mark: Option<LSN>, extra: set<WALChange>) {
    mark.Some? ==>
      && mark.value <= s.high
      && forall c :: c in s.fed && c.lsn <= mark.value ==> c in Answered(s.replies) || c in extra
  }

  ghost predicate PhaseGood(s: State, p: Phase) {
    match p
    case HasMark(mark) => Covered(s, mark, {})
    case HasBatch(batch) => Covered(s, Some(MaxLsn(batch)), Elements(batch))
    case HasWritten(max) => Covered(s, Some(max), {})
    case HoldsRow(sm) => Covered(s, Watermark(sm), {})
  }

  // The queue holds replayed or new changes in log order, among them every unanswered one.
  ghost predicate Queued(s: State) {
    && s.at <= |s.fed| && Increasing(s.fed) && Convertible(s.fed)
    && (forall c :: c in s.fed ==> c.lsn <= s.high)
    && Increasing(s.queue) && Convertible(s.queue)
    && (forall c :: c in s.queue ==> c in s.fed[..s.at])
    && (forall c :: c in s.fed[..s.at] ==> c in Answered(s.replies) || c in s.queue)
  }

  ghost predicate Good(s: State) {
    && Queued(s)
    && Covered(s, Mark(s.row), {})
    && (forall t :: t in s.threads ==> PhaseGood(s, s.threads[t]))
  }

  lemma {:induction false} NewerIncreasing(q: seq<WALChange>, mark: Option<LSN>)
    requires Increasing(q) && Convertible(q)
    ensures Increasing(Newer(q, mark)) && Convertible(Newer(q, mark))
  {
    if q != [] {
      var p, last := q[..|q| - 1], q[|q| - 1];
      NewerIncreasing(p, mark);
      forall i | 0 <= i < |Newer(p, mark)|
        ensures Newer(p, mark)[i].lsn < last.lsn
      {
        NewerMembers(p, mark, Newer(p, mark)[i]);
      }
    }
  }

  // The copied batch closes the gap: whatever was enqueued up to its end is answered or in it.
  lemma CopyGood(s: State, mark: Option<LSN>, limit: int) returns (batch: seq<WALChange>)
    requires Good(s) && Covered(s, mark, {})
    ensures batch == ChangeTracking.Page(Newer(s.queue, mark), limit)
    ensures batch != [] ==> PhaseGood(s, HasBatch(batch))
    ensures |Converted(batch)| == |batch|
  {
    var newer := Newer(s.queue, mark);
    batch := ChangeTracking.Page(newer, limit);
    NewerIncreasing(s.queue, mark);
    ConvertedEach(batch);
    if batch != [] {
      MaxLsnIsLast(batch);
      var max := MaxLsn(batch);
      NewerMembers(s.queue, mark, batch[|batch| - 1]);
      forall c | c in s.fed && c.lsn <= max && c !in Answered(s.replies)
        ensures c in batch
      {
        UpToIsReplayed(s, batch[|batch| - 1], c);
        NewerMembers(s.queue, mark, c);
        var i :| 0 <= i < |newer| && newer[i] == c;
        assert i < |batch|;
      }
    }
  }

  // A change no later than an enqueued one has been enqueued.
  lemma UpToIsReplayed(s: State, last: WALChange, c: WALChange)
    requires Queued(s) && last in s.fed[..s.at] && c in s.fed && c.lsn <= last.lsn
    ensures c in s.fed[..s.at]
  {
    var j :| 0 <= j < s.at && s.fed[..s.at][j] == last;
    var i :| 0 <= i < |s.fed| && s.fed[i] == c;
    assert i <= j;
    assert s.fed[..s.at][i] == c;
  }

  lemma AnsweredSnoc(replies: seq<seq<WALChange>>, batch: seq<WALChange>)
    ensures Answered(replies + [batch]) == Answered(replies) + Elements(batch)
  {
    assert (replies + [batch])[..|replies|] == replies;
  }

  lemma EnqueuedBefore(s: State, fed: seq<WALChange>, c: WALChange)
    requires Queued(s) && s.fed <= fed && Increasing(fed) && s.at < |fed| && c in s.queue
    ensures c.lsn < fed[s.at].lsn
  {
    assert c in s.fed[..s.at];
    var j :| 0 <= j < s.at && s.fed[..s.at][j] == c;
    assert fed[j] == c;
  }

  // Enqueueing the change at position `at` of the log keeps the queue in order.
  lemma EnqueueQueued(s: State, s': State)
    requires Queued(s) && s.at < |s'.fed| && s.fed <= s'.fed
    requires Increasing(s'.fed) && Convertible(s'.fed) && forall c :: c in s'.fed ==> c.lsn <= s'.high
    requires s'.at == s.at + 1 && s'.queue == s.queue + [s'.fed[s.at]] && s'.replies == s.replies
    ensures Queued(s')
  {
    assert s'.fed[..s'.at] == s.fed[..s.at] + [s'.fed[s.at]];
    forall i | 0 <= i < |s.queue|
      ensures s.queue[i].lsn < s'.fed[s.at].lsn
    {
      EnqueuedBefore(s, s'.fed, s.queue[i]);
    }
    assert Increasing(s'.queue);
  }

  lemma AddGood(device: string, s: State, c: WALChange)
    requires Good(s) && Enabled(s, Add(c))
    ensures Good(Next(device, s, Add(c)))
  {
    var s' := Next(device, s, Add(c));
    EnqueueQueued(s, s');
    assert forall t :: t in s.threads ==> PhaseGood(s', s.threads[t]);
  }

  lemma ReplayGood(device: string, s: State)
    requires Good(s) && Enabled(s, Replay)
    ensures Good(Next(device, s, Replay))
  {
    var s' := Next(device, s, Replay);
    EnqueueQueued(s, s');
    assert forall t :: t in s.threads ==> PhaseGood(s, s.threads[t]) ==> PhaseGood(s', s.threads[t]);
  }

  lemma CrashGood(device: string, s: State, k: nat)
    requires Good(s) && Enabled(s, Crash(k))
    ensures Good(Next(device, s, Crash(k)))
  {
    var s' := Next(device, s, Crash(k));
    forall c | c in s'.fed[..k]
      ensures c in Answered(s.replies)
    {
      var i :| 0 <= i < k && s.fed[..k][i] == c;
    }
  }

  lemma WriteGood(device: string, s: State, t: nat, now: Time, reread: bool)
    requires Good(s) && Enabled(s, WriteRow(t, now, reread, false))
    ensures Good(Next(device, s, WriteRow(t, now, reread, false)))
  {
    var batch := s.threads[t].batch;
    var s' := Next(device, s, WriteRow(t, now, reread, false));
    AnsweredSnoc(s.replies, batch);
    AdvancedMark(device, s.row, reread, MaxLsn(batch), now);
    assert PhaseGood(s, s.threads[t]);
    forall u | u in s.threads && u != t
      ensures PhaseGood(s', s.threads[u])
    {
      assert PhaseGood(s, s.threads[u]);
    }
  }

  lemma PruneGood(device: string, s: State, t: nat)
    requires Good(s) && Enabled(s, Prune(t))
    ensures Good(Next(device, s, Prune(t)))
  {
    var max := s.threads[t].max;
    var s' := Next(device, s, Prune(t));
    NewerIncreasing(s.queue, Some(max));
    assert PhaseGood(s, s.threads[t]);
    forall c
      ensures c in s'.queue <==> c in s.queue && c.lsn > max
    {
      NewerMembers(s.queue, Some(max), c);
    }
    forall u | u in s'.threads
      ensures PhaseGood(s', s'.threads[u])
    {
      assert PhaseGood(s, s.threads[u]);
    }
  }

  lemma PutGood(device: string, s: State, t: nat, fault: bool)
    requires Good(s) && Enabled(s, PutRow(t, fault))
    ensures Good(Next(device, s, PutRow(t, fault)))
  {
    var s' := Next(device, s, PutRow(t, fault));
    UpsertedMark(s.row, s.threads[t].sm, fault);
    assert PhaseGood(s, s.threads[t]);
    forall u | u in s.threads
      ensures PhaseGood(s', s.threads[u])
    {
      assert PhaseGood(s, s.threads[u]);
    }
  }

  // A step that only changes what one request knows.
  lemma ThreadsGood(s: State, threads: map<nat, Phase>, t: nat)
    requires Good(s)
    requires forall u :: u in threads ==> u == t || (u in s.threads && threads[u] == s.threads[u])
    requires t in threads ==> PhaseGood(s, threads[t])
    ensures Good(s.(threads := threads))
  {
    forall u | u in threads
      ensures PhaseGood(s.(threads := threads), threads[u])
    {
      assert PhaseGood(s, threads[u]);
    }
  }

  lemma NextGood(device: string, s: State, a: Action)
    requires Good(s) && Enabled(s, a)
    ensures Good(Next(device, s, a))
  {
    match a
    case Add(c) => AddGood(device, s, c);
    case Replay => ReplayGood(device, s);
    case Crash(k) => CrashGood(device, s, k);
    case ReadRow(t) => ThreadsGood(s, Next(device, s, a).threads, t);
    case CopyQueue(t, limit) =>
      assert PhaseGood(s, s.threads[t]);
      var batch := CopyGood(s, s.threads[t].mark, limit);
      ThreadsGood(s, Next(device, s, a).threads, t);
    case WriteRow(t, now, reread, fault) =>
      if fault {
        ThreadsGood(s, Next(device, s, a).threads, t);
      } else {
        WriteGood(device, s, t, now, reread);
      }
    case Prune(t) => PruneGood(device, s, t);
    case TakeRow(t, _) => ThreadsGood(s, Next(device, s, a).threads, t);
    case PutRow(t, fault) => PutGood(device, s, t, fault);
  }

  // ---------------------------------------------------------------- runs

  // s' is reachable from s by the actions, each enabled where it happens.
  ghost predicate Reaches(device: string, s: State, acts: seq<Action>, s': State)
    decreases |acts|
  {
    if acts == [] then s' == s
    else Enabled(s, acts[0]) && Reaches(device, Next(device, s, acts[0]), acts[1..], s')
  }

  ghost predicate Initial(s: State) {
    && s.fed == [] && s.at == 0 && s.queue == [] && s.threads == map[] && s.replies == []
    && (Mark(s.row).Some? ==> Mark(s.row).value <= s.high)
  }

  lemma {:induction false} ReachesGood(device: string, s: State, acts: seq<Action>, s': State)
    requires Good(s) && Reaches(device, s, acts, s')
    ensures Good(s')
    decreases |acts|
  {
    if acts != [] {
      NextGood(device, s, acts[0]);
      ReachesGood(device, Next(device, s, acts[0]), acts[1..], s');
    }
  }

  // At least once: in every reachable state every change routed to the device is in the reply of a sync that
  // can no longer fail, still queued above the watermark, or ahead of a replay in progress.
  lemma AtLeastOnce(device: string, s: State, acts: seq<Action>, s': State, i: nat)
    requires Initial(s) && Reaches(device, s, acts, s') && i < |s'.fed|
    ensures var c := s'.fed[i];
      c in Answered(s'.replies) || (c in s'.queue && Above(c, Mark(s'.row))) || s'.at <= i
  {
    ReachesGood(device, s, acts, s');
    if i < s'.at {
      assert s'.fed[..s'.at][i] == s'.fed[i];
    }
  }

  // A replay may start wherever the stored watermark covers what it skips ...
  lemma MarkIsRecoverable(device: string, s: State, acts: seq<Action>, s': State, k: nat)
    requires Initial(s) && Reaches(device, s, acts, s')
    requires k <= |s'.fed| && forall i :: 0 <= i < k ==> !Above(s'.fed[i], Mark(s'.row))
    ensures Recoverable(s', k)
  {
    ReachesGood(device, s, acts, s');
  }

  // ... and one that is not recoverable loses a change for good: it is in no reply, not queued, and not ahead
  // of the replay.
  lemma UnrecoverableLoses(s: State, k: nat) returns (i: nat)
    requires k <= |s.fed| && !Recoverable(s, k)
    ensures var crashed := s.(queue := [], at := k, threads := map[]);
      i < crashed.at && crashed.fed[i] !in Answered(crashed.replies) && crashed.fed[i] !in crashed.queue
  {
    i :| 0 <= i < k && s.fed[i] !in Answered(s.replies);
  }

  // ---------------------------------------------------------------- when a watermark goes back

  predicate Lowered(before: Option<LSN>, after: Option<LSN>) {
    before.Some? && (after.None? || after.value < before.value)
  }

  // The step writes a watermark below the stored one.
  predicate Overtaken(s: State, a: Action)
    requires Enabled(s, a)
  {
    match a
    case WriteRow(t, _, _, fault) => !fault && Mark(s.row).Some? && Mark(s.row).value > MaxLsn(s.threads[t].batch)
    case PutRow(t, fault) => !fault && Stored(s.threads[t].sm).Some? && Lowered(Mark(s.row), Watermark(s.threads[t].sm))
    case _ => false
  }

  // A step lowers the stored watermark exactly if what it is about to write lies below the stored one: a
  // comparison the engine could make before it writes.
  lemma RegressionExact(device: string, s: State, a: Action)
    requires Enabled(s, a)
    ensures Lowered(Mark(s.row), Mark(Next(device, s, a).row)) <==> Overtaken(s, a)
  {
    match a
    case WriteRow(t, now, reread, fault) => AdvancedMark(device, s.row, reread, MaxLsn(s.threads[t].batch), now);
    case PutRow(t, _) => StoredWatermark(s.threads[t].sm);
    case _ =>
  }

  // ---------------------------------------------------------------- what a request repeats

  // The highest watermark a request has written so far.
  function Peak(replies: seq<seq<WALChange>>): Option<LSN> {
    if replies == [] then None
    else
      var p, max := Peak(replies[..|replies| - 1]), MaxLsn(replies[|replies| - 1]);
      if p.Some? && p.value > max then p else Some(max)
  }

  ghost predicate SpansUpTo(fed: seq<WALChange>, cs: set<WALChange>, max: LSN) {
    forall c :: c in cs ==> c in fed && c.lsn <= max
  }

  // A copied batch is in order.
  ghost predicate Ordered(fed: seq<WALChange>, batch: seq<WALChange>) {
    && batch != [] && SpansUpTo(fed, Elements(batch), MaxLsn(batch))
    && forall c :: c in Elements(batch) ==> batch[0].lsn <= c.lsn
  }

  // Replies hold enqueued changes up to the peak, and all of them.
  ghost predicate Replied(s: State) {
    && Covered(s, Peak(s.replies), {})
    && (Peak(s.replies).None? ==> Answered(s.replies) == {})
    && (Peak(s.replies).Some? ==> SpansUpTo(s.fed, Answered(s.replies), Peak(s.replies).value))
    && forall t :: t in s.threads && s.threads[t].HasBatch? ==> Ordered(s.fed, s.threads[t].batch)
  }

  lemma PeakSnoc(replies: seq<seq<WALChange>>, batch: seq<WALChange>)
    ensures var p := Peak(replies);
      Peak(replies + [batch]) == if p.Some? && p.value > MaxLsn(batch) then p else Some(MaxLsn(batch))
  {
    assert (replies + [batch])[..|replies|] == replies;
  }

  lemma PageOrdered(fed: seq<WALChange>, newer: seq<WALChange>, limit: int)
    requires Increasing(newer) && Convertible(newer) && forall c :: c in newer ==> c in fed
    ensures var batch := ChangeTracking.Page(newer, limit);
      batch != [] ==> Ordered(fed, batch)
  {
    var batch := ChangeTracking.Page(newer, limit);
    if batch != [] {
      MaxLsnIsLast(batch);
      forall i | 0 <= i < |batch|
        ensures batch[i] in fed && batch[0].lsn <= batch[i].lsn <= MaxLsn(batch)
      {
        assert batch[i] == newer[i];
      }
    }
  }

  lemma CopyOrdered(s: State, mark: Option<LSN>, limit: int) returns (batch: seq<WALChange>)
    requires Good(s)
    ensures batch == ChangeTracking.Page(Newer(s.queue, mark), limit)
    ensures batch != [] ==> Ordered(s.fed, batch)
  {
    batch := ChangeTracking.Page(Newer(s.queue, mark), limit);
    NewerIncreasing(s.queue, mark);
    forall c | c in Newer(s.queue, mark)
      ensures c in s.fed
    {
      NewerMembers(s.queue, mark, c);
      assert c in s.fed[..s.at];
    }
    PageOrdered(s.fed, Newer(s.queue, mark), limit);
  }

  lemma WriteReplied(device: string, s: State, t: nat, now: Time, reread: bool)
    requires Good(s) && Replied(s) && Enabled(s, WriteRow(t, now, reread, false))
    ensures Replied(Next(device, s, WriteRow(t, now, reread, false)))
  {
    var batch := s.threads[t].batch;
    PeakSnoc(s.replies, batch);
    AnsweredSnoc(s.replies, batch);
    assert PhaseGood(s, s.threads[t]);
  }

  // A step that leaves the replies and the log alone and adds no batch out of order.
  lemma SameReplied(s: State, s': State)
    requires Replied(s) && s'.replies == s.replies && s'.fed == s.fed && s'.high == s.high
    requires forall t :: t in s'.threads && s'.threads[t].HasBatch? ==>
      (t in s.threads && s.threads[t] == s'.threads[t]) || Ordered(s.fed, s'.threads[t].batch)
    ensures Replied(s')
  {
  }

  lemma AddReplied(device: string, s: State, c: WALChange)
    requires Replied(s) && Enabled(s, Add(c))
    ensures Replied(Next(device, s, Add(c)))
  {
  }

  lemma NextReplied(device: string, s: State, a: Action)
    requires Good(s) && Replied(s) && Enabled(s, a)
    ensures Replied(Next(device, s, a))
  {
    match a
    case Add(c) => AddReplied(device, s, c);
    case CopyQueue(t, limit) =>
      var batch := CopyOrdered(s, s.threads[t].mark, limit);
      SameReplied(s, Next(device, s, a));
    case WriteRow(t, now, reread, fault) =>
      if fault {
        SameReplied(s, Next(device, s, a));
      } else {
        WriteReplied(device, s, t, now, reread);
      }
    case _ => SameReplied(s, Next(device, s, a));
  }

  lemma {:induction false} ReachesReplied(device: string, s: State, acts: seq<Action>, s': State)
    requires Good(s) && Replied(s) && Reaches(device, s, acts, s')
    ensures Good(s') && Replied(s')
    decreases |acts|
  {
    if acts != [] {
      NextGood(device, s, acts[0]);
      NextReplied(device, s, acts[0]);
      ReachesReplied(device, Next(device, s, acts[0]), acts[1..], s');
    }
  }

  // However requests overlap, the answered changes are exactly those enqueued up to the highest watermark
  // written so far.
  lemma AnsweredIsPrefix(device: string, s: State, acts: seq<Action>, s': State)
    requires Initial(s) && Reaches(device, s, acts, s')
    ensures forall c :: c in Answered(s'.replies) <==>
      c in s'.fed && Peak(s'.replies).Some? && c.lsn <= Peak(s'.replies).value
  {
    ReachesReplied(device, s, acts, s');
  }

  // A request about to write its watermark repeats an answered change exactly if its first change is at or
  // below the highest watermark written so far.
  lemma RepeatExact(device: string, s: State, acts: seq<Action>, s': State, t: nat)
    requires Initial(s) && Reaches(device, s, acts, s') && t in s'.threads && s'.threads[t].HasBatch?
    ensures var batch := s'.threads[t].batch;
      && batch != []
      && ((exists c :: c in batch && c in Answered(s'.replies)) <==>
            Peak(s'.replies).Some? && batch[0].lsn <= Peak(s'.replies).value)
  {
    ReachesReplied(device, s, acts, s');
    var batch := s'.threads[t].batch;
    assert batch[0] in Elements(batch);
    assert forall c :: c in batch ==> c in Elements(batch);
  }

  // ---------------------------------------------------------------- the stored watermark as a guard

  predicate AtMost(a: Option<LSN>, b: Option<LSN>) {
    a.Some? ==> b.Some? && a.value <= b.value
  }

  // The stored watermark is the highest one written, or lies before every change; no row writer holds a higher one.
  ghost predicate MarkIsPeak(s: State) {
    && (s.replies != [] ==> Mark(s.row) == Peak(s.replies))
    && (s.replies == [] && Mark(s.row).Some? ==> Mark(s.row).value <= s.high && forall c :: c in s.fed ==> c.lsn > Mark(s.row).value)
    && forall t :: t in s.threads && s.threads[t].HoldsRow? ==> AtMost(Watermark(s.threads[t].sm), Mark(s.row))
  }

  // No step of the run lowers the watermark.
  ghost predicate NeverOvertaken(device: string, s: State, acts: seq<Action>)
    decreases |acts|
  {
    acts == [] ||
    (Enabled(s, acts[0]) && !Overtaken(s, acts[0]) && NeverOvertaken(device, Next(device, s, acts[0]), acts[1..]))
  }

  lemma OpeningMark(device: string, row: Option<SyncMetadata>, read: bool)
    ensures AtMost(Watermark(PerformOpening(device, row, read)), Mark(row))
  {
  }

  // Unless it lowers the watermark, a row writer leaves it as it is: it holds no higher one.
  lemma PutKeepsMark(device: string, s: State, t: nat, fault: bool)
    requires Enabled(s, PutRow(t, fault)) && !Overtaken(s, PutRow(t, fault))
    requires AtMost(Watermark(s.threads[t].sm), Mark(s.row))
    ensures Mark(Next(device, s, PutRow(t, fault)).row) == Mark(s.row)
  {
    StoredWatermark(s.threads[t].sm);
  }

  lemma WriteMarkIsPeak(device: string, s: State, t: nat, now: Time, reread: bool)
    requires MarkIsPeak(s) && Enabled(s, WriteRow(t, now, reread, false)) && !Overtaken(s, WriteRow(t, now, reread, false))
    ensures MarkIsPeak(Next(device, s, WriteRow(t, now, reread, false)))
  {
    PeakSnoc(s.replies, s.threads[t].batch);
    AdvancedMark(device, s.row, reread, MaxLsn(s.threads[t].batch), now);
  }

  // A step that leaves the watermark and the replies alone and adds no row writer with a higher watermark.
  lemma UnchangedMarkIsPeak(s: State, s': State)
    requires MarkIsPeak(s) && Mark(s'.row) == Mark(s.row) && s'.replies == s.replies
    requires s'.high >= s.high && forall c :: c in s'.fed ==> c in s.fed || c.lsn > s.high
    requires forall t :: t in s'.threads && s'.threads[t].HoldsRow? ==>
      (t in s.threads && s.threads[t] == s'.threads[t]) || AtMost(Watermark(s'.threads[t].sm), Mark(s.row))
    ensures MarkIsPeak(s')
  {
  }

  lemma NextMarkIsPeak(device: string, s: State, a: Action)
    requires MarkIsPeak(s) && Enabled(s, a) && !Overtaken(s, a)
    ensures MarkIsPeak(Next(device, s, a))
  {
    match a
    case WriteRow(t, now, reread, fault) =>
      if !fault {
        WriteMarkIsPeak(device, s, t, now, reread);
      }
    case PutRow(t, fault) =>
      PutKeepsMark(device, s, t, fault);
      UnchangedMarkIsPeak(s, Next(device, s, a));
    case TakeRow(_, read) =>
      OpeningMark(device, s.row, read);
      UnchangedMarkIsPeak(s, Next(device, s, a));
    case Add(_) => UnchangedMarkIsPeak(s, Next(device, s, a));
    case Replay => UnchangedMarkIsPeak(s, Next(device, s, a));
    case Crash(_) => UnchangedMarkIsPeak(s, Next(device, s, a));
    case ReadRow(_) => UnchangedMarkIsPeak(s, Next(device, s, a));
    case CopyQueue(_, _) => UnchangedMarkIsPeak(s, Next(device, s, a));
    case Prune(_) => UnchangedMarkIsPeak(s, Next(device, s, a));
  }

  // As long as no write lowers the watermark, the stored one alone tells which requests repeat something:
  // those whose first change it already covers.
  lemma {:induction false} UnloweredMarkIsPeak(device: string, s: State, acts: seq<Action>, s': State)
    requires MarkIsPeak(s) && Reaches(device, s, acts, s') && NeverOvertaken(device, s, acts)
    ensures MarkIsPeak(s')
    decreases |acts|
  {
    if acts != [] {
      NextMarkIsPeak(device, s, acts[0]);
      UnloweredMarkIsPeak(device, Next(device, s, acts[0]), acts[1..], s');
    }
  }

  lemma GuardDecides(device: string, s: State, acts: seq<Action>, s': State, t: nat)
    requires Initial(s) && Reaches(device, s, acts, s') && NeverOvertaken(device, s, acts)
    requires t in s'.threads && s'.threads[t].HasBatch?
    ensures var batch := s'.threads[t].batch;
      && batch != []
      && ((exists c :: c in batch && c in Answered(s'.replies)) <==>
            Mark(s'.row).Some? && batch[0].lsn <= Mark(s'.row).value)
  {
    UnloweredMarkIsPeak(device, s, acts, s');
    RepeatExact(device, s, acts, s', t);
    ReachesReplied(device, s, acts, s');
    assert s'.threads[t].batch[0] in Elements(s'.threads[t].batch);
  }

  // ---------------------------------------------------------------- both happen

  lemma {:induction false} ReachesThen(device: string, s: State, acts: seq<Action>, mid: State, a: Action)
    returns (s': State, acts': seq<Action>)
    requires Reaches(device, s, acts, mid) && Enabled(mid, a)
    ensures s' == Next(device, mid, a) && acts' == acts + [a] && Reaches(device, s, acts', s')
    decreases |acts|
  {
    s', acts' := Next(device, mid, a), acts + [a];
    if acts == [] {
      assert ([a])[1..] == [] && acts + [a] == [a];
      assert Reaches(device, s', [], s');
    } else {
      assert (acts + [a])[1..] == acts[1..] + [a];
      var _, _ := ReachesThen(device, Next(device, s, acts[0]), acts[1..], mid, a);
    }
  }

  // Copying a queue that lies above the mark takes all of it.
  lemma CopyAll(device: string, s: State, acts: seq<Action>, mid: State, t: nat) returns (s': State, acts': seq<Action>)
    requires Reaches(device, s, acts, mid) && Enabled(mid, CopyQueue(t, 0))
    requires mid.queue != [] && Convertible(mid.queue)
    requires forall i :: 0 <= i < |mid.queue| ==> Above(mid.queue[i], mid.threads[t].mark)
    ensures s' == mid.(threads := mid.threads[t := HasBatch(mid.queue)]) && Reaches(device, s, acts', s')
  {
    NewerKeepsAll(mid.queue, mid.threads[t].mark);
    ConvertedEach(mid.queue);
    s', acts' := ReachesThen(device, s, acts, mid, CopyQueue(t, 0));
  }

  // Storing the watermark of a copied batch.
  lemma WriteBatch(device: string, s: State, acts: seq<Action>, mid: State, t: nat) returns (s': State, acts': seq<Action>)
    requires Reaches(device, s, acts, mid) && Enabled(mid, WriteRow(t, 0, false, false))
    ensures s' == mid.(row := s'.row, threads := s'.threads, replies := mid.replies + [mid.threads[t].batch])
    ensures s'.threads == mid.threads[t := HasWritten(MaxLsn(mid.threads[t].batch))]
    ensures Mark(s'.row) == Some(MaxLsn(mid.threads[t].batch))
    ensures s' == Next(device, mid, WriteRow(t, 0, false, false)) && Reaches(device, s, acts', s')
  {
    s', acts' := ReachesThen(device, s, acts, mid, WriteRow(t, 0, false, false));
    AdvancedMark(device, mid.row, false, MaxLsn(mid.threads[t].batch), 0);
  }

  // An empty system whose log is at or past the stored watermark.
  function Empty(row: SyncMetadata, high: LSN): State {
    State([], 0, high, [], Some(row), map[], [])
  }

  // A new change is enqueued and request t reads the row.
  lemma AddThenRead(device: string, s: State, acts: seq<Action>, mid: State, c: WALChange, t: nat)
    returns (acts': seq<Action>, s': State)
    requires Reaches(device, s, acts, mid) && Enabled(mid, Add(c)) && Enabled(mid, ReadRow(t))
    ensures Reaches(device, s, acts', s')
    ensures s' == State(mid.fed + [c], mid.at + 1, c.lsn, mid.queue + [c], mid.row, mid.threads[t := HasMark(Mark(mid.row))], mid.replies)
  {
    s', acts' := ReachesThen(device, s, acts, mid, Add(c));
    s', acts' := ReachesThen(device, s, acts', s', ReadRow(t));
  }

  // Two requests hold a copy of the same one-change queue.
  lemma BothCopied(device: string, c: WALChange, row: SyncMetadata, high: LSN) returns (acts: seq<Action>, s': State)
    requires Convert(c).Ok? && c.lsn > high && (Watermark(row).Some? ==> Watermark(row).value <= high)
    ensures Reaches(device, Empty(row, high), acts, s')
    ensures s'.replies == [] && 0 in s'.threads && s'.threads[0] == HasBatch([c]) && 1 in s'.threads && s'.threads[1] == HasBatch([c])
  {
    var s0 := Empty(row, high);
    acts, s' := AddThenRead(device, s0, [], s0, c, 0);
    s', acts := ReachesThen(device, s0, acts, s', ReadRow(1));
    s', acts := CopyAll(device, s0, acts, s', 0);
    s', acts := CopyAll(device, s0, acts, s', 1);
  }

  // Two requests that copy the queue before either writes both return the change: duplicates are reachable.
  lemma DuplicateReachable(device: string, c: WALChange, row: SyncMetadata, high: LSN) returns (acts: seq<Action>, s': State)
    requires Convert(c).Ok? && c.lsn > high && (Watermark(row).Some? ==> Watermark(row).value <= high)
    ensures Initial(Empty(row, high)) && Reaches(device, Empty(row, high), acts, s')
    ensures s'.replies == [[c], [c]]
  {
    acts, s' := BothCopied(device, c, row, high);
    s', acts := WriteBatch(device, Empty(row, high), acts, s', 0);
    s', acts := WriteBatch(device, Empty(row, high), acts, s', 1);
  }

  // One request holds a copy of a one-change queue.
  lemma OneCopied(device: string, c: WALChange, row: SyncMetadata, high: LSN) returns (acts: seq<Action>, s': State)
    requires Convert(c).Ok? && c.lsn > high && (Watermark(row).Some? ==> Watermark(row).value <= high)
    ensures Reaches(device, Empty(row, high), acts, s')
    ensures s' == State([c], 1, c.lsn, [c], Some(row), s'.threads, [])
    ensures 1 !in s'.threads && 0 in s'.threads && s'.threads[0] == HasBatch([c])
  {
    acts, s' := AddThenRead(device, Empty(row, high), [], Empty(row, high), c, 0);
    assert [] + [c] == [c];
    assert s' == State([c], 1, c.lsn, [c], Some(row), map[0 := HasMark(Watermark(row))], []);
    s', acts := CopyAll(device, Empty(row, high), acts, s', 0);
  }

  // Meanwhile d is enqueued and a second request copies both.
  lemma OvertakenCopy(device: string, c: WALChange, d: WALChange, row: SyncMetadata, high: LSN)
    returns (acts: seq<Action>, s': State)
    requires Convert(c).Ok? && Convert(d).Ok? && high < c.lsn < d.lsn
    requires Watermark(row).Some? ==> Watermark(row).value <= high
    ensures Reaches(device, Empty(row, high), acts, s')
    ensures 0 in s'.threads && s'.threads[0] == HasBatch([c]) && 1 in s'.threads && s'.threads[1] == HasBatch([c, d])
  {
    acts, s' := OneCopied(device, c, row, high);
    acts, s' := AddThenRead(device, Empty(row, high), acts, s', d, 1);
    assert s'.queue == [c, d];
    s', acts := CopyAll(device, Empty(row, high), acts, s', 1);
  }

  // A slow request that writes after a faster one lowers the stored watermark: regressions are reachable.
  lemma RegressionReachable(device: string, c: WALChange, d: WALChange, row: SyncMetadata, high: LSN)
    returns (acts: seq<Action>, before: State, after: State)
    requires Convert(c).Ok? && Convert(d).Ok? && high < c.lsn < d.lsn
    requires Watermark(row).Some? ==> Watermark(row).value <= high
    ensures Initial(Empty(row, high)) && Reaches(device, Empty(row, high), acts, before)
    ensures Enabled(before, WriteRow(0, 0, false, false)) && after == Next(device, before, WriteRow(0, 0, false, false))
    ensures Mark(before.row) == Some(d.lsn) && Mark(after.row) == Some(c.lsn)
  {
    acts, before := OvertakenCopy(device, c, d, row, high);
    MaxLsnIsLast([c]);
    MaxLsnIsLast([c, d]);
    before, acts := WriteBatch(device, Empty(row, high), acts, before, 1);
    var all;
    after, all := WriteBatch(device, Empty(row, high), acts, before, 0);
  }

  // A full-row writer reads the row; then a change is enqueued and a request serves it from start to end.
  lemma ServedPastWriter(device: string, c: WALChange, row: SyncMetadata, high: LSN) returns (acts: seq<Action>, s': State)
    requires Convert(c).Ok? && c.lsn > high && (Watermark(row).Some? ==> Watermark(row).value <= high)
    ensures Reaches(device, Empty(row, high), acts, s')
    ensures s' == State([c], 1, c.lsn, s'.queue, s'.row, s'.threads, [[c]])
    ensures 1 in s'.threads && s'.threads[1] == HoldsRow(PerformOpening(device, Some(row), false))
  {
    var s0 := Empty(row, high);
    s', acts := ReachesThen(device, s0, [], s0, TakeRow(1, false));
    acts, s' := AddThenRead(device, s0, acts, s', c, 0);
    s', acts := CopyAll(device, s0, acts, s', 0);
    s', acts := WriteBatch(device, s0, acts, s', 0);
    s', acts := ReachesThen(device, s0, acts, s', Prune(0));
  }

  // The writer puts its stale row back and the engine restarts, replaying from the beginning.
  lemma StaleRowReplayed(device: string, c: WALChange, row: SyncMetadata, high: LSN) returns (acts: seq<Action>, s': State)
    requires Convert(c).Ok? && c.lsn > high && (Watermark(row).Some? ==> Watermark(row).value <= high) && Stored(row).Some?
    ensures Reaches(device, Empty(row, high), acts, s')
    ensures s' == State([c], 1, c.lsn, [c], s'.row, map[], [[c]])
    ensures s'.row.Some? && Mark(s'.row) == Watermark(row)
  {
    acts, s' := ServedPastWriter(device, c, row, high);
    StoredWatermark(PerformOpening(device, Some(row), false));
    s', acts := ReachesThen(device, Empty(row, high), acts, s', PutRow(1, false));
    s', acts := ReachesThen(device, Empty(row, high), acts, s', Crash(0));
    s', acts := ReachesThen(device, Empty(row, high), acts, s', Replay);
    assert [] + [c] == [c];
  }

  // So a PerformSync that overlaps a SyncIncoming, a restart and a replay serve a change to the device twice.
  lemma StaleWriterRepeats(device: string, c: WALChange, row: SyncMetadata, high: LSN) returns (acts: seq<Action>, s': State)
    requires Convert(c).Ok? && c.lsn > high && (Watermark(row).Some? ==> Watermark(row).value <= high) && Stored(row).Some?
    ensures Initial(Empty(row, high)) && Reaches(device, Empty(row, high), acts, s')
    ensures s'.replies == [[c], [c]]
  {
    acts, s' := StaleRowReplayed(device, c, row, high);
    s', acts := ReachesThen(device, Empty(row, high), acts, s', ReadRow(0));
    s', acts := CopyAll(device, Empty(row, high), acts, s', 0);
    s', acts := WriteBatch(device, Empty(row, high), acts, s', 0);
  }
}
