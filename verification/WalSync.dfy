// Properties of single WAL syncs and of draining a queue: the watermark, the number of syncs, and
// what equal LSNs cost.
module WalSync {
  import opened Prelude
  import opened Lsn
  import opened Models
  import opened Database
  import opened ChangeTracking
  import opened Syncing
  import opened Delivery

  // ---------------------------------------------------------------- the watermark

  lemma {:induction false} MaxLsnAbove(cs: seq<WALChange>, l: LSN)
    requires Converted(cs) != [] && forall i :: 0 <= i < |cs| ==> cs[i].lsn > l
    ensures MaxLsn(cs) > l
  {
    var p := cs[..|cs| - 1];
    if Convert(cs[|cs| - 1]).Err? {
      MaxLsnAbove(p, l);
    }
  }

  // SyncIncoming never lowers last_synced_lsn, for any queue whatsoever, and raises it whenever it
  // returns a message.
  lemma SyncNeverLowersMark(device: string, lane: Lane, limit: int, now: Time, f: SyncFaults)
    requires Mark(lane.row).Some?
    ensures var o := PullWal(device, lane, limit, now, f);
      && Mark(o.lane.row).Some? && Mark(o.lane.row).value >= Mark(lane.row).value
      && (o.reply.Ok? && o.reply.value != [] ==> Mark(o.lane.row).value > Mark(lane.row).value)
  {
    var l := Mark(lane.row).value;
    var o := PullWal(device, lane, limit, now, f);
    if o.reply.Ok? && o.reply.value != [] {
      var batch := ChangeTracking.Page(Newer(lane.queue, Some(l)), limit);
      forall i | 0 <= i < |batch|
        ensures batch[i].lsn > l
      {
        NewerMembers(lane.queue, Some(l), batch[i]);
      }
      MaxLsnAbove(batch, l);
      AdvancedMark(device, lane.row, f.reread, MaxLsn(batch), now);
    }
  }

  // PerformSync leaves the watermark it read first, whatever its own SyncIncoming advanced it to.
  lemma PerformRestoresMark(device: string, lane: Lane, now: Time, f: PerformFaults)
    requires lane.row.Some? && !f.read && !f.finish && Stored(lane.row.value).Some?
    ensures Mark(PerformWal(device, lane, now, f).lane.row) == Mark(lane.row)
  {
    var sm := PerformOpening(device, lane.row, false);
    var o := PullWal(device, lane.(row := Upserted(lane.row, sm, f.write)), PERFORM_LIMIT, now, f.sync);
    StoredWatermark(PerformClosing(sm, o.reply.Ok?, now));
  }

  // ---------------------------------------------------------------- the rest of the row

  // A sync that returns something leaves its row idle, stamped with its time, and its count of pending messages
  // alone; only a failed second read of the row starts a new one.
  lemma PulledRow(device: string, lane: Lane, limit: int, now: Time, f: SyncFaults)
    ensures var o := PullWal(device, lane, limit, now, f);
      && (o.reply == Ok([]) || o.reply.Err? ==> o.lane == lane)
      && (o.reply.Ok? && o.reply.value != [] ==>
            && lane.row.Some? && o.lane.row.Some?
            && var before, after := lane.row.value, o.lane.row.value;
            && after.syncStatus == Idle && after.lastSyncTimestamp == Some(now)
            && (!f.reread ==> after.deviceId == before.deviceId && after.pendingOutgoingCount == before.pendingOutgoingCount)
            && (f.reread ==> after.deviceId == device && after.pendingOutgoingCount == 0))
  {
  }

  // The row as PerformSync sees it: the one it read, or one that has never synced.
  ghost predicate SeenRow(device: string, row: Option<SyncMetadata>, read: bool, seen: SyncMetadata) {
    && (read || row.None? ==>
          seen.deviceId == device && seen.lastSyncTimestamp.None? && seen.lastSyncedLsn.None? && seen.pendingOutgoingCount == 0)
    && (!read && row.Some? ==> row.value == seen)
  }

  // The row after a PerformSync whose closing write went through: idle, stamped and nothing pending if its sync
  // succeeded; in the error state, and otherwise as it was, if not.
  ghost predicate Closed(seen: SyncMetadata, after: SyncMetadata, ok: bool, now: Time) {
    && (after.syncStatus == Idle <==> ok) && (after.syncStatus == Failed <==> !ok)
    && after.deviceId == seen.deviceId && Watermark(after) == Watermark(seen)
    && after.lastSyncTimestamp == (if ok then Some(now) else seen.lastSyncTimestamp)
    && after.pendingOutgoingCount == (if ok then 0 else seen.pendingOutgoingCount)
  }

  lemma ClosingRow(device: string, row: Option<SyncMetadata>, read: bool, seen: SyncMetadata,
                   mid: Option<SyncMetadata>, ok: bool, now: Time)
    requires SeenRow(device, row, read, seen) && Stored(seen).Some?
    ensures var after := Upserted(mid, PerformClosing(PerformOpening(device, row, read), ok, now), false);
      after.Some? && Closed(seen, after.value, ok, now)
  {
    StoredWatermark(PerformClosing(PerformOpening(device, row, read), ok, now));
  }

  // While the sync runs the stored row says so, and it still does if the sync wrote nothing and the closing
  // write fails.
  lemma OpeningRow(device: string, row: Option<SyncMetadata>, read: bool, seen: SyncMetadata)
    requires SeenRow(device, row, read, seen) && Stored(seen).Some?
    ensures var after := Upserted(row, PerformOpening(device, row, read), false);
      && after.Some? && after.value.syncStatus == Syncing
      && after.value.deviceId == seen.deviceId && Watermark(after.value) == Watermark(seen)
      && after.value.lastSyncTimestamp == seen.lastSyncTimestamp && after.value.pendingOutgoingCount == seen.pendingOutgoingCount
  {
    StoredWatermark(PerformOpening(device, row, read));
  }

  // PerformSync in WAL mode and in polling mode.
  lemma PerformRow(device: string, lane: Lane, now: Time, f: PerformFaults, seen: SyncMetadata, ok: bool)
    requires SeenRow(device, lane.row, f.read, seen) && Stored(seen).Some?
    ensures var o := PerformWal(device, lane, now, f);
      && (!f.finish ==> o.lane.row.Some? && Closed(seen, o.lane.row.value, o.ok, now))
      && (f.finish && !f.write && o.batch == [] ==> o.lane.row.Some? && o.lane.row.value.syncStatus == Syncing)
      && (f.finish && f.write && o.batch == [] ==> o.lane == lane)
    ensures !f.finish ==>
      var after := PerformPollingRow(device, lane.row, ok, now, f);
      after.Some? && Closed(seen, after.value, ok, now)
    // ... and it fails exactly if its sync does.
    ensures f.sync.read ==> !PerformWal(device, lane, now, f).ok
    ensures !f.sync.read && !f.sync.write && (lane.row.Some? || !f.write) ==> PerformWal(device, lane, now, f).ok
  {
    var sm := PerformOpening(device, lane.row, f.read);
    OpeningRow(device, lane.row, f.read, seen);
    var begun := lane.(row := Upserted(lane.row, sm, f.write));
    var o := PullWal(device, begun, PERFORM_LIMIT, now, f.sync);
    PulledRow(device, begun, PERFORM_LIMIT, now, f.sync);
    ClosingRow(device, lane.row, f.read, seen, o.lane.row, o.reply.Ok?, now);
    ClosingRow(device, lane.row, f.read, seen, begun.row, ok, now);
  }

  // A PerformSync without failures takes the next hundred changes at most, and the queue keeps the rest.
  lemma PerformTakes(device: string, log: seq<WALChange>, from: nat, m: nat, end: nat, lane: Lane, now: Time)
    requires Increasing(log) && Convertible(log) && end <= |log| && lane.row.Some? && Stored(lane.row.value).Some?
    requires CutsAt(log, from, m, end, Mark(lane.row)) && lane.queue == log[from..end]
    ensures var o := PerformWal(device, lane, now, NO_PERFORM_FAULTS);
      && o.ok && o.batch == Converted(log[m..Min(m + 100, end)])
      && o.lane.queue == if m == end then lane.queue else log[Min(m + 100, end)..end]
  {
    var sm := PerformOpening(device, lane.row, false);
    StoredWatermark(sm);
    var _, _ := PullTakesNextBatch(device, log, from, m, end, lane.(row := Upserted(lane.row, sm, false)), PERFORM_LIMIT, now, NO_FAULTS);
  }

  // ---------------------------------------------------------------- conversion of a batch

  // A change that does not convert is skipped: the messages and the watermark are those of the rest.
  lemma {:induction false} Unconvertible(a: seq<WALChange>, c: WALChange, b: seq<WALChange>)
    requires c.operation != INSERT && c.operation != UPDATE
    ensures Converted(a + [c] + b) == Converted(a + b) && MaxLsn(a + [c] + b) == MaxLsn(a + b)
  {
    if b == [] {
      assert (a + [c] + b)[..|a|] == a && a + b == a;
    } else {
      var p, last := b[..|b| - 1], b[|b| - 1];
      Unconvertible(a, c, p);
      assert (a + [c] + b)[..|a| + |b|] == a + [c] + p && (a + b)[..|a + b| - 1] == a + p;
    }
  }

  // ---------------------------------------------------------------- draining

  // Successful sync number n (from 0) with limit k, each starting where the one before left the lane.
  function NthSync(device: string, lane: Lane, k: nat, now: Time, n: nat): Pulled {
    PullWal(device, if n == 0 then lane else NthSync(device, lane, k, now, n - 1).lane, k, now, NO_FAULTS)
  }

  // The lane has a readable row and holds the log from position `from` on, with the mark before position p.
  ghost predicate HoldsFrom(lane: Lane, log: seq<WALChange>, from: nat, p: nat) {
    lane.row.Some? && CutsAt(log, from, p, |log|, Mark(lane.row)) && lane.queue == log[from..|log|]
  }

  lemma DrainOnce(device: string, lane: Lane, log: seq<WALChange>, from: nat, p: nat, k: nat, now: Time) returns (o: Pulled, from': nat)
    requires Increasing(log) && Convertible(log) && HoldsFrom(lane, log, from, p) && k > 0
    ensures o == PullWal(device, lane, k, now, NO_FAULTS)
    ensures p <= Min(p + k, |log|) && HoldsFrom(o.lane, log, from', Min(p + k, |log|))
    ensures o.reply == Ok(Converted(log[p..Min(p + k, |log|)])) && |o.reply.value| == Min(p + k, |log|) - p
  {
    var e;
    o, e := PullTakesNextBatch(device, log, from, p, |log|, lane, k, now, NO_FAULTS);
    from' := if p < |log| then e else from;
    ConvertedEach(log[p..e]);
  }

  // How far n syncs with limit k get in a queue of the given length.
  function Offset(n: nat, k: nat, length: nat): (p: nat)
    ensures p <= length
  {
    if n == 0 then 0 else Min(Offset(n - 1, k, length) + k, length)
  }

  lemma {:induction false} OffsetIs(n: nat, k: nat, length: nat)
    ensures n * k >= 0 && Offset(n, k, length) == Min(n * k, length)
  {
    if n > 0 {
      OffsetIs(n - 1, k, length);
      assert n * k == (n - 1) * k + k;
    }
  }

  lemma {:induction false} NthSyncIs(device: string, lane: Lane, log: seq<WALChange>, from: nat, m: nat, k: nat, now: Time, n: nat)
    returns (o: Pulled, from': nat, p: nat, e: nat)
    requires Increasing(log) && Convertible(log) && HoldsFrom(lane, log, from, m) && k > 0
    ensures o == NthSync(device, lane, k, now, n) && p == m + Offset(n, k, |log| - m) && e == Min(p + k, |log|)
    ensures p <= e && HoldsFrom(o.lane, log, from', e) && o.reply == Ok(Converted(log[p..e])) && |o.reply.value| == e - p
  {
    p := m + Offset(n, k, |log| - m);
    e := Min(p + k, |log|);
    var before, start := lane, from;
    if n > 0 {
      var prior, at, end;
      prior, start, at, end := NthSyncIs(device, lane, log, from, m, k, now, n - 1);
      before := prior.lane;
    }
    o, from' := DrainOnce(device, before, log, start, p, k, now);
  }

  // Where batch number j of size k ends in n items.
  lemma SliceEnd(j: nat, k: nat, n: nat)
    ensures 0 <= j * k && Offset(j, k, n) == Min(j * k, n) && Min(Offset(j, k, n) + k, n) == Min(j * k + k, n)
  {
    OffsetIs(j, k, n);
  }

  // Sync number j (from 0) returns the j-th slice of the queue: exactly ceil(n/k) syncs return
  // something, and all later ones return nothing.
  lemma {:induction false} Draining(device: string, lane: Lane, k: nat, now: Time, j: nat)
    returns (reply: seq<Message>, p: nat, e: nat)
    requires lane.row.Some? && Increasing(lane.queue) && Convertible(lane.queue) && k > 0
    requires forall i :: 0 <= i < |lane.queue| ==> Above(lane.queue[i], Mark(lane.row))
    ensures NthSync(device, lane, k, now, j).reply == Ok(reply)
    ensures p == Min(j * k, |lane.queue|) && e == Min(j * k + k, |lane.queue|) && p <= e
    ensures reply == Converted(lane.queue[p..e])
    ensures reply != [] <==> j < Rounds(|lane.queue|, k)
  {
    var n := |lane.queue|;
    assert lane.queue[0..n] == lane.queue;
    var o, from;
    o, from, p, e := NthSyncIs(device, lane, lane.queue, 0, 0, k, now, j);
    reply := o.reply.value;
    SliceEnd(j, k, n);
    RoundsCover(n, k, j);
  }

  // ---------------------------------------------------------------- equal LSNs

  // Pruning a non-decreasing queue at the last LSN of a batch q[m..b] also removes the run q[b..t] tied
  // with it.
  lemma TiedRun(q: seq<WALChange>, m: nat, b: nat) returns (t: nat)
    requires NonDecreasing(q) && Convertible(q) && m < b <= |q|
    ensures b <= t <= |q|
    ensures MaxLsn(q[m..b]) == q[b - 1].lsn && Newer(q, Some(q[b - 1].lsn)) == q[t..]
    ensures forall i :: b <= i < t ==> q[i].lsn == q[b - 1].lsn
    ensures forall i :: t <= i < |q| ==> q[i].lsn > q[b - 1].lsn
  {
    var max := q[b - 1].lsn;
    t := CutOf(q, b, |q|, Some(max));
    MaxLsnIsLast(q[m..b]);
    NewerCut(q, 0, t, |q|, Some(max));
    assert q[0..|q|] == q && q[t..|q|] == q[t..];
  }

  // With non-decreasing LSNs one successful sync splits the queue into what the old mark covers, the
  // batch, the changes tied with the end of the batch, and the rest. It keeps only the rest: the tied
  // changes are dropped, and the new watermark covers them, so no later sync or replay brings them back.
  lemma TieLoss(device: string, lane: Lane, limit: int, now: Time, f: SyncFaults) returns (m: nat, b: nat, t: nat)
    requires NonDecreasing(lane.queue) && Convertible(lane.queue) && !PullFails(lane, true, f)
    requires limit > 0
    ensures m <= b <= t <= |lane.queue| && b == Min(m + limit, |lane.queue|)
    ensures CutsAt(lane.queue, 0, m, |lane.queue|, Mark(lane.row))
    ensures PullWal(device, lane, limit, now, f).reply == Ok(Converted(lane.queue[m..b]))
    ensures var q, after := lane.queue, PullWal(device, lane, limit, now, f).lane;
      m < |q| ==>
        && m < b && after.queue == q[t..] && Mark(after.row) == Some(q[b - 1].lsn)
        && (forall i :: b <= i < t ==> q[i].lsn == q[b - 1].lsn && !Above(q[i], Mark(after.row)))
        // lossless exactly when the cut does not split a run of equal LSNs
        && (b == t <==> b == |q| || q[b].lsn != q[b - 1].lsn)
  {
    var q := lane.queue;
    m := CutOf(q, 0, |q|, Mark(lane.row));
    assert q[0..|q|] == q;
    b := NextBatch(q, 0, m, |q|, Mark(lane.row), limit);
    t := b;
    ConvertedEach(q[m..b]);
    if m < |q| {
      t := TiedRun(q, m, b);
      AdvancedMark(device, lane.row, f.reread, q[b - 1].lsn, now);
    }
  }
}
