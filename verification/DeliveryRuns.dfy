// What the log-and-cursor simulation means for the device: exactly-once streams, restarts, and where
// PerformSync's stale write-back shows.
module DeliveryRuns {
  import opened Prelude
  import opened Lsn
  import opened Models
  import opened Database
  import opened ChangeTracking
  import opened Syncing
  import opened Delivery
  import opened WalSync

  lemma StartSimulates(log: seq<WALChange>, row: Option<SyncMetadata>)
    requires forall i :: 0 <= i < |log| ==> Above(log[i], Mark(row))
    ensures Simulates(log, Start(row)) && Settled(Start(row)) && MarkCovers(log, Start(row))
  {
  }

  lemma {:induction false} TakenSplits(batches: seq<Batch>)
    ensures |Taken(batches)| == |Received(batches)| + |Missed(batches)|
    ensures Missed(batches) == [] ==> Received(batches) == Taken(batches)
  {
    if batches != [] {
      TakenSplits(batches[..|batches| - 1]);
    }
  }

  // Without restarts, SyncIncoming and PerformSync calls in any mix, with any failures, take each log
  // change at most once and in order: pruning alone carries the cursor. What the device misses is
  // exactly what PerformSync discarded and what was lost on the way.
  lemma {:induction false} NoRestartExact(device: string, log: seq<WALChange>, row: Option<SyncMetadata>, es: seq<Event>)
    requires Increasing(log) && Convertible(log)
    requires forall i :: 0 <= i < |log| ==> Above(log[i], Mark(row))
    requires forall i :: 0 <= i < |es| ==> !es[i].Restart?
    ensures var h := Run(device, log, Start(row), es);
      && Simulates(log, h) && Settled(h)
      && Taken(h.batches) == Converted(log[..Cursor(h)])
      && h.lane.queue == log[Cursor(h)..h.fed]
      && Cursor(h) == |Received(h.batches)| + |Missed(h.batches)|
  {
    if es == [] {
      StartSimulates(log, row);
    } else {
      var p := es[..|es| - 1];
      NoRestartExact(device, log, row, p);
      StepSimulates(device, log, Run(device, log, Start(row), p), es[|es| - 1]);
    }
    TakenSplits(Run(device, log, Start(row), es).batches);
  }

  // Each restart replays from some position at or before the cursor.
  ghost predicate RestartsBehindCursor(device: string, log: seq<WALChange>, h: History, es: seq<Event>) {
    es == [] ||
    (var p := es[..|es| - 1];
     var e := es[|es| - 1];
     RestartsBehindCursor(device, log, h, p) && (e.Restart? ==> e.position <= Cursor(Run(device, log, h, p))))
  }

  // SyncIncoming and readable GetSyncStatus calls.
  predicate OnlyIncoming(e: Event) {
    !e.Perform? && !(e.Status? && e.read)
  }

  lemma IncomingStep(device: string, log: seq<WALChange>, h: History, e: Event)
    requires Increasing(log) && Convertible(log) && Simulates(log, h) && MarkCovers(log, h)
    requires OnlyIncoming(e) && (e.Restart? ==> e.position <= Cursor(h))
    ensures var h' := Step(device, log, h, e);
      && Simulates(log, h') && MarkCovers(log, h')
      && (Missed(h.batches) == [] && !(e.Pull? && e.lost) ==> Missed(h'.batches) == [])
  {
    StepSimulates(device, log, h, e);
    if e.Pull? {
      var h' := PullSimulates(device, log, h, e.limit, e.now, e.f, !e.lost);
      var o := PullWal(device, h.lane, e.limit, e.now, e.f);
      if o.reply.Ok? {
        TakenSnoc(h.batches, Batch(!e.lost, o.reply.value));
      }
    } else if e.Status? {
      UpsertedMark(h.lane.row, FreshRow(device, Idle), e.write);
    }
  }

  // Through SyncIncoming alone, with failed metadata statements, lost trackers and replays from any point at
  // or before the watermark, everything taken is exactly a prefix of the log: the device's stream is that
  // prefix if every response arrives, and a lost response is never made good, not even by a replay.
  lemma {:induction false} RestartsExact(device: string, log: seq<WALChange>, row: Option<SyncMetadata>, es: seq<Event>)
    requires Increasing(log) && Convertible(log)
    requires forall i :: 0 <= i < |log| ==> Above(log[i], Mark(row))
    requires forall i :: 0 <= i < |es| ==> OnlyIncoming(es[i])
    requires RestartsBehindCursor(device, log, Start(row), es)
    ensures var h := Run(device, log, Start(row), es);
      && Simulates(log, h) && MarkCovers(log, h)
      && Taken(h.batches) == Converted(log[..Cursor(h)])
      && Cursor(h) == |Received(h.batches)| + |Missed(h.batches)|
      && ((forall i :: 0 <= i < |es| ==> !(es[i].Pull? && es[i].lost)) ==>
            Missed(h.batches) == [] && Received(h.batches) == Converted(log[..Cursor(h)]))
  {
    if es == [] {
      StartSimulates(log, row);
    } else {
      var p := es[..|es| - 1];
      RestartsExact(device, log, row, p);
      IncomingStep(device, log, Run(device, log, Start(row), p), es[|es| - 1]);
    }
    TakenSplits(Run(device, log, Start(row), es).batches);
  }

  // ---------------------------------------------------------------- restarts and stale watermarks

  lemma CutAtCursor(log: seq<WALChange>, h: History, cut: nat)
    requires Simulates(log, h) && CutsAt(log, 0, cut, |log|, Mark(h.lane.row))
    ensures cut <= Cursor(h)
    ensures cut == Cursor(h) <==> MarkCovers(log, h)
  {
    assert cut > 0 ==> !Above(log[cut - 1], Mark(h.lane.row));
    assert cut < Cursor(h) ==> Above(log[cut], Mark(h.lane.row));
  }

  // After a restart at any position and a replay of the whole log, a pull with any limit takes the log from the
  // replay position or the watermark's cut, whichever is later.
  lemma ReplayTakes(device: string, log: seq<WALChange>, h: History, position: nat, cut: nat, limit: int, now: Time, f: SyncFaults)
    returns (m: nat, e: nat)
    requires Increasing(log) && Convertible(log) && Simulates(log, h)
    requires position <= |log| && CutsAt(log, 0, cut, |log|, Mark(h.lane.row))
    requires !PullFails(h.lane, true, f)
    ensures m == Max(position, cut) <= |log| && e == BatchEnd(m, |log|, limit)
    ensures PullWal(device, Lane(log[position..], h.lane.row), limit, now, f).reply == Ok(Converted(log[m..e]))
    // ... so something already taken is taken again exactly when the restart was not admissible.
    ensures position <= Cursor(h) ==> (m < Min(e, Cursor(h)) <==> !Admissible(log, h, Restart(position)))
  {
    m := Max(position, cut);
    CutAtCursor(log, h, cut);
    assert log[position..] == log[position..|log|];
    var o;
    o, e := PullTakesNextBatch(device, log, position, m, |log|, Lane(log[position..], h.lane.row), limit, now, f);
    assert m == |log| ==> log[m..e] == [];
  }

  lemma RunSnoc(device: string, log: seq<WALChange>, h: History, es: seq<Event>, e: Event)
    ensures Run(device, log, h, es + [e]) == Step(device, log, Run(device, log, h, es), e)
  {
    assert (es + [e])[..|es|] == es;
  }

  // One queued change pulled out of an otherwise empty lane.
  lemma PullOne(device: string, c: WALChange, row: SyncMetadata, now: Time) returns (o: Pulled)
    requires Convert(c).Ok? && Above(c, Watermark(row))
    ensures o == PullWal(device, Lane([c], Some(row)), PERFORM_LIMIT, now, NO_FAULTS)
    ensures o.reply == Ok([Convert(c).value]) && o.lane.queue == [] && Mark(o.lane.row) == Some(c.lsn)
  {
    var e;
    o, e := PullTakesNextBatch(device, [c], 0, 0, 1, Lane([c], Some(row)), PERFORM_LIMIT, now, NO_FAULTS);
    assert [c][0..1] == [c] && [c][1..1] == [];
    assert Converted([c]) == [Convert(c).value] by { ConvertedEach([c]); }
  }

  // A restart at the beginning and a replay of a one-change log take the change (again) if the
  // watermark does not cover it.
  lemma ReplayOne(device: string, c: WALChange, h: History, now: Time) returns (h': History)
    requires Convert(c).Ok? && h.lane.row.Some? && Above(c, Mark(h.lane.row))
    ensures h' == Step(device, [c], Step(device, [c], Step(device, [c], h, Restart(0)), Feed), Pull(PERFORM_LIMIT, now, NO_FAULTS, false))
    ensures h'.batches == h.batches + [Batch(true, [Convert(c).value])]
  {
    var h1 := Step(device, [c], Step(device, [c], h, Restart(0)), Feed);
    assert h1 == History(Lane([c], h.lane.row), 1, h.batches) by {
      assert [] + [c] == [c];
    }
    var _ := PullOne(device, c, h.lane.row.value, now);
    h' := Step(device, [c], h1, Pull(PERFORM_LIMIT, now, NO_FAULTS, false));
  }

  // PerformSync takes the change, throws it away and puts the watermark back where it was.
  lemma PerformOne(device: string, c: WALChange, row: SyncMetadata, now: Time) returns (h: History)
    requires Convert(c).Ok? && Above(c, Watermark(row)) && Stored(row).Some?
    ensures h == Step(device, [c], Step(device, [c], Start(Some(row)), Feed), Perform(now, NO_PERFORM_FAULTS))
    ensures h.batches == [Batch(false, [Convert(c).value])]
    ensures h.lane.row.Some? && Mark(h.lane.row) == Watermark(row)
  {
    var h1 := Step(device, [c], Start(Some(row)), Feed);
    assert h1.lane.queue == [c];
    var sm := PerformOpening(device, Some(row), false);
    StoredWatermark(sm);
    var o := PullOne(device, c, Upserted(Some(row), sm, false).value, now);
    StoredWatermark(PerformClosing(sm, true, now));
    h := Step(device, [c], h1, Perform(now, NO_PERFORM_FAULTS));
  }

  // A PerformSync, a restart and a replay take the same change twice: the stale watermark no longer
  // covers what PerformSync took (and threw away).
  lemma StaleMarkTakesTwice(device: string, c: WALChange, row: SyncMetadata, now: Time) returns (es: seq<Event>)
    requires Convert(c).Ok? && Above(c, Watermark(row)) && Stored(row).Some?
    ensures es == [Feed, Perform(now, NO_PERFORM_FAULTS), Restart(0), Feed, Pull(PERFORM_LIMIT, now, NO_FAULTS, false)]
    ensures var m := Convert(c).value;
      Taken(Run(device, [c], Start(Some(row)), es).batches) == [m, m]
  {
    var m := Convert(c).value;
    es := [Feed, Perform(now, NO_PERFORM_FAULTS), Restart(0), Feed, Pull(PERFORM_LIMIT, now, NO_FAULTS, false)];
    RunFive(device, [c], Start(Some(row)), es);
    var h := PerformOne(device, c, row, now);
    var h' := ReplayOne(device, c, h, now);
    TakenTwo(Batch(false, [m]), Batch(true, [m]));
  }

  lemma TakenTwo(a: Batch, b: Batch)
    ensures Taken([a] + [b]) == a.msgs + b.msgs
    ensures a.toClient && b.toClient ==> Received([a] + [b]) == a.msgs + b.msgs
  {
    TakenSnoc([], a);
    TakenSnoc([a], b);
    assert [] + [a] == [a];
  }

  // The device is served the change; then a GetSyncStatus that cannot read the row re-creates it.
  lemma ServeThenWipe(device: string, c: WALChange, row: SyncMetadata, now: Time) returns (h: History)
    requires Convert(c).Ok? && Above(c, Watermark(row))
    ensures h == Step(device, [c], Step(device, [c], Step(device, [c], Start(Some(row)), Feed), Pull(PERFORM_LIMIT, now, NO_FAULTS, false)),
                      Status(true, false))
    ensures h.batches == [Batch(true, [Convert(c).value])]
    ensures h.lane.row.Some? && Mark(h.lane.row) == None
  {
    var h1 := Step(device, [c], Start(Some(row)), Feed);
    assert h1.lane.queue == [c];
    var o := PullOne(device, c, row, now);
    h := Step(device, [c], Step(device, [c], h1, Pull(PERFORM_LIMIT, now, NO_FAULTS, false)), Status(true, false));
  }

  // The device itself sees a change twice when a GetSyncStatus that cannot read the row re-creates it
  // without a watermark before the replay.
  lemma LostMarkReceivedTwice(device: string, c: WALChange, row: SyncMetadata, now: Time) returns (es: seq<Event>)
    requires Convert(c).Ok? && Above(c, Watermark(row))
    ensures es == [Feed, Pull(PERFORM_LIMIT, now, NO_FAULTS, false), Status(true, false), Restart(0), Feed, Pull(PERFORM_LIMIT, now, NO_FAULTS, false)]
    ensures var m := Convert(c).value;
      Received(Run(device, [c], Start(Some(row)), es).batches) == [m, m]
  {
    var m, pull := Convert(c).value, Pull(PERFORM_LIMIT, now, NO_FAULTS, false);
    var five := [Feed, pull, Status(true, false), Restart(0), Feed];
    es := five + [pull];
    RunFive(device, [c], Start(Some(row)), five);
    RunSnoc(device, [c], Start(Some(row)), five, pull);
    var h := ServeThenWipe(device, c, row, now);
    var h' := ReplayOne(device, c, h, now);
    TakenTwo(Batch(true, [m]), Batch(true, [m]));
  }

  lemma RunFive(device: string, log: seq<WALChange>, h: History, es: seq<Event>)
    requires |es| == 5
    ensures Run(device, log, h, es) ==
      Step(device, log, Step(device, log, Step(device, log, Step(device, log, Step(device, log, h, es[0]), es[1]), es[2]), es[3]), es[4])
  {
    assert es == ((([es[0]] + [es[1]]) + [es[2]]) + [es[3]]) + [es[4]];
    RunSnoc(device, log, h, [], es[0]);
    assert [] + [es[0]] == [es[0]];
    RunSnoc(device, log, h, [es[0]], es[1]);
    RunSnoc(device, log, h, [es[0]] + [es[1]], es[2]);
    RunSnoc(device, log, h, [es[0]] + [es[1]] + [es[2]], es[3]);
    RunSnoc(device, log, h, [es[0]] + [es[1]] + [es[2]] + [es[3]], es[4]);
  }

  // ---------------------------------------------------------------- the device never sees a change twice

  // The messages at the given log positions.
  function Pick(log: seq<WALChange>, at: seq<nat>): seq<Message>
    requires forall i :: 0 <= i < |at| ==> at[i] < |log| && Convert(log[at[i]]).Ok?
  {
    seq(|at|, i requires 0 <= i < |at| => Convert(log[at[i]]).value)
  }

  // Increasing log positions, all covered by the mark, whose messages are these.
  ghost predicate Positions(log: seq<WALChange>, at: seq<nat>, mark: Option<LSN>, msgs: seq<Message>) {
    && (forall i :: 0 <= i < |at| ==> at[i] < |log| && Convert(log[at[i]]).Ok? && !Above(log[at[i]], mark))
    && (forall i, j :: 0 <= i < j < |at| ==> at[i] < at[j])
    && msgs == Pick(log, at)
  }

  ghost predicate QueueIsStretch(log: seq<WALChange>, h: History) {
    0 <= QueueStart(h) && h.fed <= |log| && h.lane.queue == log[QueueStart(h)..h.fed]
  }

  // The device received the log positions `at`, all covered by the watermark; the queue is a stretch of the log.
  ghost predicate ReceivedAt(log: seq<WALChange>, h: History, at: seq<nat>) {
    Convertible(log) && Positions(log, at, Mark(h.lane.row), Received(h.batches)) && QueueIsStretch(log, h)
  }

  function Span(m: nat, e: nat): (at: seq<nat>)
    requires m <= e
    ensures |at| == e - m && forall i :: 0 <= i < e - m ==> at[i] == m + i
  {
    seq(e - m, i requires 0 <= i < e - m => m + i)
  }

  lemma SpanIs(log: seq<WALChange>, m: nat, e: nat)
    requires Convertible(log) && m <= e <= |log|
    ensures Pick(log, Span(m, e)) == Converted(log[m..e])
  {
    ConvertedEach(log[m..e]);
  }

  lemma PickSpan(log: seq<WALChange>, at: seq<nat>, m: nat, e: nat)
    requires Convertible(log) && m <= e <= |log| && forall i :: 0 <= i < |at| ==> at[i] < |log|
    ensures forall i :: 0 <= i < |at + Span(m, e)| ==> (at + Span(m, e))[i] < |log|
    ensures Pick(log, at + Span(m, e)) == Pick(log, at) + Converted(log[m..e])
  {
    SpanIs(log, m, e);
    assert Pick(log, at + Span(m, e)) == Pick(log, at) + Pick(log, Span(m, e));
  }

  lemma PositionsExtend(log: seq<WALChange>, at: seq<nat>, mark: Option<LSN>, msgs: seq<Message>, m: nat, e: nat)
    requires Increasing(log) && Convertible(log) && Positions(log, at, mark, msgs)
    requires m < e <= |log| && Above(log[m], mark)
    ensures Positions(log, at, Some(log[e - 1].lsn), msgs)
    ensures Positions(log, at + Span(m, e), Some(log[e - 1].lsn), msgs + Converted(log[m..e]))
  {
    PickSpan(log, at, m, e);
    assert forall i :: 0 <= i < |at| ==> at[i] < m;
  }

  // Once log[m..e] has been taken, beyond everything received, the positions received grow by m..e
  // if the batch went to the device.
  lemma TakenReceives(log: seq<WALChange>, h: History, at: seq<nat>, m: nat, e: nat, lane: Lane, toClient: bool)
    returns (at': seq<nat>)
    requires Increasing(log) && ReceivedAt(log, h, at)
    requires QueueStart(h) <= m < e <= h.fed && Above(log[m], Mark(h.lane.row))
    requires lane.queue == log[e..h.fed] && Mark(lane.row) == Some(log[e - 1].lsn)
    ensures ReceivedAt(log, h.(lane := lane, batches := h.batches + [Batch(toClient, Converted(log[m..e]))]), at')
    ensures !toClient ==> at' == at
  {
    TakenSnoc(h.batches, Batch(toClient, Converted(log[m..e])));
    PositionsExtend(log, at, Mark(h.lane.row), Received(h.batches), m, e);
    at' := if toClient then at + Span(m, e) else at;
  }

  // A pull appends the positions of its batch, all beyond those the mark covers.
  lemma PullReceives(device: string, log: seq<WALChange>, h: History, at: seq<nat>, limit: int, now: Time, f: SyncFaults,
                     toClient: bool) returns (at': seq<nat>)
    requires Increasing(log) && ReceivedAt(log, h, at)
    ensures ReceivedAt(log, AfterPull(h, PullWal(device, h.lane, limit, now, f), toClient), at')
    ensures !toClient ==> at' == at
  {
    var m := CutOf(log, QueueStart(h), h.fed, Mark(h.lane.row));
    var o, e := PullTakesNextBatch(device, log, QueueStart(h), m, h.fed, h.lane, limit, now, f);
    at' := at;
    if !PullFails(h.lane, m < h.fed, f) {
      if m < h.fed {
        at' := TakenReceives(log, h, at, m, e, o.lane, toClient);
      } else {
        TakenSnoc(h.batches, Batch(toClient, []));
      }
    }
  }

  // Rewriting the row to an equal or higher watermark, or any watermark while nothing was received.
  lemma RowKeepsReceived(log: seq<WALChange>, h: History, at: seq<nat>, row: Option<SyncMetadata>)
    requires ReceivedAt(log, h, at)
    requires forall i :: 0 <= i < |at| ==> !Above(log[at[i]], Mark(row))
    ensures ReceivedAt(log, h.(lane := h.lane.(row := row)), at)
  {
  }

  lemma UpsertKeepsReceived(log: seq<WALChange>, h: History, at: seq<nat>, sm: SyncMetadata, fault: bool) returns (h': History)
    requires ReceivedAt(log, h, at)
    requires forall i :: 0 <= i < |at| ==> !Above(log[at[i]], Watermark(sm))
    ensures h' == h.(lane := h.lane.(row := Upserted(h.lane.row, sm, fault))) && ReceivedAt(log, h', at)
  {
    UpsertedMark(h.lane.row, sm, fault);
    h' := h.(lane := h.lane.(row := Upserted(h.lane.row, sm, fault)));
    RowKeepsReceived(log, h, at, h'.lane.row);
  }

  lemma PerformReceives(device: string, log: seq<WALChange>, h: History, at: seq<nat>, now: Time, pf: PerformFaults)
    requires Increasing(log) && ReceivedAt(log, h, at) && !pf.read
    ensures ReceivedAt(log, Step(device, log, h, Perform(now, pf)), at)
  {
    var sm := PerformOpening(device, h.lane.row, false);
    var h1 := UpsertKeepsReceived(log, h, at, sm, pf.write);
    var o := PullWal(device, h1.lane, PERFORM_LIMIT, now, pf.sync);
    var _ := PullReceives(device, log, h1, at, PERFORM_LIMIT, now, pf.sync, false);
    var h2 := AfterPull(h1, o, false);
    if o.reply.Err? {
      TakenSnoc(h2.batches, Batch(false, []));
      h2 := h2.(batches := h2.batches + [Batch(false, [])]);
    }
    var _ := UpsertKeepsReceived(log, h2, at, PerformClosing(sm, o.reply.Ok?, now), pf.finish);
  }

  lemma ReceivesStep(device: string, log: seq<WALChange>, h: History, at: seq<nat>, e: Event) returns (at': seq<nat>)
    requires Increasing(log) && ReceivedAt(log, h, at)
    requires !(e.Perform? && e.pf.read) && !(e.Status? && e.read)
    ensures ReceivedAt(log, Step(device, log, h, e), at')
  {
    at' := at;
    match e
    case Feed =>
      if h.fed < |log| {
        assert h.lane.queue + [log[h.fed]] == log[QueueStart(h)..h.fed + 1];
      }
    case Pull(limit, now, f, lost) => at' := PullReceives(device, log, h, at, limit, now, f, !lost);
    case Perform(now, pf) => PerformReceives(device, log, h, at, now, pf);
    case Status(_, write) =>
      if h.lane.row.None? {
        RowKeepsReceived(log, h, at, Upserted(h.lane.row, FreshRow(device, Idle), write));
      }
    case Restart(position) =>
      assert log[Min(position, |log|)..Min(position, |log|)] == [];
  }

  // In any run, with restarts to any position and PerformSync calls, and whatever fails except reading
  // the row PerformSync or GetSyncStatus then rewrites, the device receives a subsequence of the log:
  // no change twice and none out of order.
  lemma {:induction false} NeverTwice(device: string, log: seq<WALChange>, row: Option<SyncMetadata>, es: seq<Event>) returns (at: seq<nat>)
    requires Increasing(log) && Convertible(log)
    requires forall i :: 0 <= i < |es| ==> !(es[i].Perform? && es[i].pf.read) && !(es[i].Status? && es[i].read)
    ensures var h := Run(device, log, Start(row), es);
      && (forall i, j :: 0 <= i < j < |at| ==> at[i] < at[j])
      && (forall i :: 0 <= i < |at| ==> at[i] < |log|)
      && Received(h.batches) == Pick(log, at)
      && ReceivedAt(log, h, at)
  {
    if es == [] {
      at := [];
    } else {
      var p := es[..|es| - 1];
      at := NeverTwice(device, log, row, p);
      at := ReceivesStep(device, log, Run(device, log, Start(row), p), at, es[|es| - 1]);
    }
  }

  // Let the device have received the log positions `at`, whatever has become of the watermark since. After a
  // restart at any position and a replay of the whole log, a pull with any limit serves it the positions m..e,
  // and so a change again if and only if it has received one of those.
  lemma ReplayReceivesAgain(device: string, log: seq<WALChange>, row: Option<SyncMetadata>, at: seq<nat>,
                            position: nat, cut: nat, limit: int, now: Time, f: SyncFaults) returns (m: nat, e: nat, o: Pulled)
    requires Increasing(log) && Convertible(log) && position <= |log|
    requires CutsAt(log, 0, cut, |log|, Mark(row)) && !PullFails(Lane([], row), true, f)
    ensures m == Max(position, cut) <= |log| && e == BatchEnd(m, |log|, limit)
    ensures o == PullWal(device, Lane(log[position..], row), limit, now, f)
    ensures o.reply == Ok(Pick(log, Span(m, e)))
    ensures (exists p :: p in at && p in Span(m, e)) <==> (exists i :: 0 <= i < |at| && m <= at[i] < e)
  {
    m := Max(position, cut);
    assert log[position..] == log[position..|log|];
    o, e := PullTakesNextBatch(device, log, position, m, |log|, Lane(log[position..], row), limit, now, f);
    SpanIs(log, m, e);
    forall i | 0 <= i < |at| && m <= at[i] < e
      ensures at[i] in at && at[i] in Span(m, e)
    {
      assert Span(m, e)[at[i] - m] == at[i];
    }
  }

  // Draining the replay with a limit k serves the device the positions from m on, k at a time: reply number j is
  // the j-th slice.
  lemma ReplayDrains(device: string, log: seq<WALChange>, row: Option<SyncMetadata>,
                     position: nat, cut: nat, k: nat, now: Time, j: nat) returns (m: nat, p: nat, e: nat)
    requires Increasing(log) && Convertible(log) && position <= |log| && row.Some? && k > 0
    requires CutsAt(log, 0, cut, |log|, Mark(row))
    ensures m == Max(position, cut) <= |log|
    ensures p == m + Offset(j, k, |log| - m) && e == m + Offset(j + 1, k, |log| - m) && p <= e
    ensures NthSync(device, Lane(log[position..], row), k, now, j).reply == Ok(Pick(log, Span(p, e)))
  {
    m := Max(position, cut);
    assert log[position..] == log[position..|log|];
    var o, from;
    o, from, p, e := NthSyncIs(device, Lane(log[position..], row), log, position, m, k, now, j);
    SpanIs(log, p, e);
  }

  // The slice in which a position past m is served.
  lemma {:induction false} SliceOf(m: nat, k: nat, length: nat, n: nat, x: nat) returns (j: nat)
    requires m <= x < m + Offset(n, k, length)
    ensures j < n && m + Offset(j, k, length) <= x < m + Offset(j + 1, k, length)
  {
    j := n - 1;
    if x < m + Offset(n - 1, k, length) {
      j := SliceOf(m, k, length, n - 1, x);
    }
  }

  // Reply number j of the drain serves a position received before.
  ghost predicate ServedAgain(at: seq<nat>, m: nat, k: nat, length: nat, j: nat) {
    exists i :: 0 <= i < |at| && m + Offset(j, k, length) <= at[i] < m + Offset(j + 1, k, length)
  }

  // So a device that had received the positions `at` receives one of them again in one of the first n replies,
  // which drain the queue, if and only if the last of them lies at or past m.
  lemma DrainRepeats(at: seq<nat>, m: nat, length: nat, k: nat, n: nat)
    requires (forall i, j :: 0 <= i < j < |at| ==> at[i] < at[j]) && forall i :: 0 <= i < |at| ==> at[i] < m + length
    requires k > 0 && n >= Rounds(length, k)
    ensures (exists j :: 0 <= j < n && ServedAgain(at, m, k, length, j)) <==> at != [] && at[|at| - 1] >= m
  {
    OffsetIs(n, k, length);
    RoundsCover(length, k, n);
    if at != [] && at[|at| - 1] >= m {
      var j := SliceOf(m, k, length, n, at[|at| - 1]);
      assert ServedAgain(at, m, k, length, j);
    }
  }
}
