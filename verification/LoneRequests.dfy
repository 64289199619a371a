// WAL syncs that do not overlap: one request of the device in flight at a time, with AddChange and full-row
// writers running between its steps. This is where the atomic syncs of Delivery come from.
module LoneRequests {
  import opened Prelude
  import opened Lsn
  import opened Models
  import opened Database
  import opened ChangeTracking
  import opened Syncing
  import opened Delivery
  import opened Interleaving

  // ---------------------------------------------------------------- runs with one request in flight

  // No request is in flight; row writers may be.
  ghost predicate Idle(s: State) {
    forall t :: t in s.threads ==> s.threads[t].HoldsRow?
  }

  // s' is reached without a restart by steps that start a request only when none is in flight.
  ghost predicate ReachesAlone(device: string, s: State, acts: seq<Action>, s': State)
    decreases |acts|
  {
    if acts == [] then s' == s
    else
      && Enabled(s, acts[0]) && !acts[0].Crash? && (acts[0].ReadRow? ==> Idle(s))
      && ReachesAlone(device, Next(device, s, acts[0]), acts[1..], s')
  }

  function Flat(replies: seq<seq<WALChange>>): seq<WALChange> {
    if replies == [] then [] else Flat(replies[..|replies| - 1]) + replies[|replies| - 1]
  }

  // The mark covers nothing from position n on, now or later.
  ghost predicate Behind(s: State, n: nat, mark: Option<LSN>) {
    && (forall i :: n <= i < |s.fed| ==> Above(s.fed[i], mark))
    && (mark.Some? ==> mark.value <= s.high)
  }

  // The batch is the stretch of the log from position n on.
  predicate IsNext(fed: seq<WALChange>, n: nat, batch: seq<WALChange>) {
    batch != [] && n + |batch| <= |fed| && batch == fed[n..n + |batch|]
  }

  // Where thread t may stand when n changes are answered and the queue starts at position k; `lone` is the
  // request in flight.
  ghost predicate Placed(s: State, n: nat, k: nat, lone: Option<nat>, t: nat)
    requires t in s.threads
  {
    match s.threads[t]
    case HasMark(mark) => lone == Some(t) && k == n && Behind(s, n, mark)
    case HasBatch(batch) => lone == Some(t) && k == n && IsNext(s.fed, n, batch)
    case HasWritten(max) => lone == Some(t) && 0 < n <= |s.fed| && max == s.fed[n - 1].lsn
    case HoldsRow(sm) => lone != Some(t) && Behind(s, n, Watermark(sm))
  }

  // The replies are the first n changes, and the queue is what follows position k.
  ghost predicate Logged(s: State, n: nat, k: nat) {
    && k <= n <= |s.fed| == s.at
    && Increasing(s.fed) && Convertible(s.fed) && (forall i :: 0 <= i < |s.fed| ==> s.fed[i].lsn <= s.high)
    && Flat(s.replies) == s.fed[..n] && s.queue == s.fed[k..]
    && Behind(s, n, Mark(s.row))
  }

  // The two positions differ only while a request is about to prune the queue.
  ghost predicate Sequential(s: State, n: nat, k: nat, lone: Option<nat>) {
    && Logged(s, n, k)
    && (lone.None? ==> k == n) && (lone.Some? ==> lone.value in s.threads && !s.threads[lone.value].HoldsRow?)
    && forall t :: t in s.threads ==> Placed(s, n, k, lone, t)
  }

  lemma AddLogged(device: string, s: State, n: nat, k: nat, c: WALChange)
    requires Logged(s, n, k) && Enabled(s, Add(c))
    ensures Logged(Next(device, s, Add(c)), n, k)
  {
    var s' := Next(device, s, Add(c));
    assert s'.queue == s'.fed[k..] && s'.fed[..n] == s.fed[..n];
  }

  lemma IsNextLater(fed: seq<WALChange>, n: nat, batch: seq<WALChange>, c: WALChange)
    requires IsNext(fed, n, batch)
    ensures IsNext(fed + [c], n, batch)
  {
  }

  lemma AddSequential(device: string, s: State, n: nat, k: nat, lone: Option<nat>, c: WALChange)
    requires Sequential(s, n, k, lone) && Enabled(s, Add(c))
    ensures Sequential(Next(device, s, Add(c)), n, k, lone)
  {
    var s' := Next(device, s, Add(c));
    AddLogged(device, s, n, k, c);
    forall t | t in s'.threads
      ensures Placed(s', n, k, lone, t)
    {
      assert Placed(s, n, k, lone, t);
      if s.threads[t].HasBatch? {
        IsNextLater(s.fed, n, s.threads[t].batch, c);
      }
    }
  }

  // While t is the request in flight, everyone else only holds a row, and a later position suits them too.
  lemma OthersPlaced(s: State, n: nat, k: nat, t: nat, s': State, n': nat, k': nat, lone': Option<nat>)
    requires Sequential(s, n, k, Some(t)) && n <= n' && (lone'.Some? ==> lone' == Some(t))
    requires s'.fed == s.fed && s'.high == s.high
    requires forall u :: u in s'.threads && u != t ==> u in s.threads && s'.threads[u] == s.threads[u]
    ensures forall u :: u in s'.threads && u != t ==> Placed(s', n', k', lone', u)
  {
    forall u | u in s'.threads && u != t
      ensures Placed(s', n', k', lone', u)
    {
      assert Placed(s, n, k, Some(t), u);
    }
  }

  // Copying while nothing is unpruned takes a prefix of the queue.
  lemma CopiedPrefix(s: State, n: nat, mark: Option<LSN>, limit: int) returns (e: nat)
    requires Logged(s, n, n) && Behind(s, n, mark)
    ensures n <= e <= |s.fed| && ChangeTracking.Page(Newer(s.queue, mark), limit) == s.fed[n..e]
    ensures |Converted(s.fed[n..e])| == e - n
    ensures n < e ==> IsNext(s.fed, n, s.fed[n..e])
  {
    assert s.fed[n..] == s.fed[n..|s.fed|];
    e := NextBatch(s.fed, n, n, |s.fed|, mark, limit);
    ConvertedEach(s.fed[n..e]);
  }

  lemma CopySequential(device: string, s: State, n: nat, k: nat, lone: Option<nat>, t: nat, limit: int)
    returns (lone': Option<nat>)
    requires Sequential(s, n, k, lone) && Enabled(s, CopyQueue(t, limit))
    ensures Sequential(Next(device, s, CopyQueue(t, limit)), n, k, lone')
  {
    assert Placed(s, n, k, lone, t);
    var e := CopiedPrefix(s, n, s.threads[t].mark, limit);
    lone' := if n == e then None else lone;
    var s' := Next(device, s, CopyQueue(t, limit));
    assert s'.threads == if n == e then s.threads - {t} else s.threads[t := HasBatch(s.fed[n..e])];
    OthersPlaced(s, n, k, t, s', n, k, lone');
  }

  lemma FlatSnoc(replies: seq<seq<WALChange>>, batch: seq<WALChange>)
    ensures Flat(replies + [batch]) == Flat(replies) + batch
  {
    assert (replies + [batch])[..|replies|] == replies;
  }

  // Answering the next stretch moves the answered prefix over exactly it.
  lemma StretchAnswered(fed: seq<WALChange>, n: nat, e: nat, replies: seq<seq<WALChange>>)
    requires Increasing(fed) && Convertible(fed) && n < e <= |fed| && Flat(replies) == fed[..n]
    ensures MaxLsn(fed[n..e]) == fed[e - 1].lsn
    ensures Flat(replies + [fed[n..e]]) == fed[..e]
  {
    MaxLsnIsLast(fed[n..e]);
    FlatSnoc(replies, fed[n..e]);
    assert fed[..e] == fed[..n] + fed[n..e];
  }

  lemma WriteLogged(device: string, s: State, n: nat, k: nat, t: nat, e: nat, now: Time, reread: bool)
    requires Logged(s, n, k) && Enabled(s, WriteRow(t, now, reread, false))
    requires IsNext(s.fed, n, s.threads[t].batch) && e == n + |s.threads[t].batch|
    ensures Logged(Next(device, s, WriteRow(t, now, reread, false)), e, k)
    ensures MaxLsn(s.threads[t].batch) == s.fed[e - 1].lsn
  {
    StretchAnswered(s.fed, n, e, s.replies);
    AdvancedMark(device, s.row, reread, s.fed[e - 1].lsn, now);
  }

  lemma WriteSequential(device: string, s: State, n: nat, k: nat, t: nat, e: nat, now: Time, reread: bool)
    requires Sequential(s, n, k, Some(t)) && Enabled(s, WriteRow(t, now, reread, false))
    requires IsNext(s.fed, n, s.threads[t].batch) && e == n + |s.threads[t].batch|
    ensures Sequential(Next(device, s, WriteRow(t, now, reread, false)), e, k, Some(t))
  {
    WriteLogged(device, s, n, k, t, e, now, reread);
    OthersPlaced(s, n, k, t, Next(device, s, WriteRow(t, now, reread, false)), e, k, Some(t));
  }

  lemma PruneSequential(device: string, s: State, n: nat, k: nat, lone: Option<nat>, t: nat)
    requires Sequential(s, n, k, lone) && Enabled(s, Prune(t))
    ensures Sequential(Next(device, s, Prune(t)), n, n, None)
  {
    assert Placed(s, n, k, lone, t);
    assert s.fed[k..] == s.fed[k..|s.fed|] && s.fed[n..] == s.fed[n..|s.fed|];
    NewerCut(s.fed, k, n, |s.fed|, Some(s.threads[t].max));
    OthersPlaced(s, n, k, t, Next(device, s, Prune(t)), n, n, None);
  }

  lemma PutSequential(device: string, s: State, n: nat, k: nat, lone: Option<nat>, t: nat, fault: bool)
    requires Sequential(s, n, k, lone) && Enabled(s, PutRow(t, fault))
    ensures Sequential(Next(device, s, PutRow(t, fault)), n, k, lone)
  {
    assert Placed(s, n, k, lone, t);
    UpsertedMark(s.row, s.threads[t].sm, fault);
    var s' := Next(device, s, PutRow(t, fault));
    forall u | u in s'.threads
      ensures Placed(s', n, k, lone, u)
    {
      assert Placed(s, n, k, lone, u);
    }
  }

  // A step that only changes what one thread knows.
  lemma ThreadSequential(s: State, n: nat, k: nat, lone: Option<nat>, threads: map<nat, Phase>, lone': Option<nat>, t: nat)
    requires Sequential(s, n, k, lone)
    requires forall u :: u in threads ==> u == t || (u in s.threads && threads[u] == s.threads[u])
    requires t in threads ==> Placed(s.(threads := threads), n, k, lone', t)
    requires lone' == lone || ((lone == None || lone == Some(t)) && (lone' == None || lone' == Some(t)))
    requires (lone'.None? ==> k == n) && (lone'.Some? ==> lone'.value in threads && !threads[lone'.value].HoldsRow?)
    ensures Sequential(s.(threads := threads), n, k, lone')
  {
    forall u | u in threads && u != t
      ensures Placed(s.(threads := threads), n, k, lone', u)
    {
      assert Placed(s, n, k, lone, u);
    }
  }

  lemma NextSequential(device: string, s: State, n: nat, k: nat, lone: Option<nat>, a: Action)
    returns (n': nat, k': nat, lone': Option<nat>)
    requires Sequential(s, n, k, lone) && Enabled(s, a) && !a.Crash? && (a.ReadRow? ==> Idle(s))
    ensures Sequential(Next(device, s, a), n', k', lone')
  {
    n', k', lone' := n, k, lone;
    match a
    case Add(c) => AddSequential(device, s, n, k, lone, c);
    case Replay =>
    case Crash(_) =>
    case ReadRow(t) =>
      lone' := Some(t);
      ThreadSequential(s, n, k, lone, Next(device, s, a).threads, lone', t);
    case CopyQueue(t, limit) => lone' := CopySequential(device, s, n, k, lone, t, limit);
    case WriteRow(t, now, reread, fault) =>
      if fault {
        assert Placed(s, n, k, lone, t);
        lone' := None;
        ThreadSequential(s, n, k, lone, Next(device, s, a).threads, lone', t);
      } else {
        assert Placed(s, n, k, lone, t);
        n' := n + |s.threads[t].batch|;
        WriteSequential(device, s, n, k, t, n', now, reread);
      }
    case Prune(t) =>
      k', lone' := n, None;
      PruneSequential(device, s, n, k, lone, t);
    case TakeRow(t, read) => ThreadSequential(s, n, k, lone, Next(device, s, a).threads, lone, t);
    case PutRow(t, fault) => PutSequential(device, s, n, k, lone, t, fault);
  }

  lemma {:induction false} ReachesSequential(device: string, s: State, n: nat, k: nat, lone: Option<nat>, acts: seq<Action>, s': State)
    returns (n': nat, k': nat, lone': Option<nat>)
    requires Sequential(s, n, k, lone) && ReachesAlone(device, s, acts, s')
    ensures Sequential(s', n', k', lone')
    decreases |acts|
  {
    n', k', lone' := n, k, lone;
    if acts != [] {
      n', k', lone' := NextSequential(device, s, n, k, lone, acts[0]);
      n', k', lone' := ReachesSequential(device, Next(device, s, acts[0]), n', k', lone', acts[1..], s');
    }
  }

  lemma NextRaises(fed: seq<WALChange>, n: nat, batch: seq<WALChange>, mark: Option<LSN>)
    requires Increasing(fed) && Convertible(fed) && IsNext(fed, n, batch) && Above(fed[n], mark)
    ensures mark.Some? ==> mark.value < MaxLsn(batch)
  {
    MaxLsnIsLast(batch);
  }

  // One request at a time is exactly once: with AddChange and full-row writers between its steps, whatever
  // fails, the replies are a prefix of the enqueued changes, in order and without repetition, and between
  // requests the queue is the rest.
  lemma LoneExact(device: string, s: State, acts: seq<Action>, s': State) returns (n: nat)
    requires Initial(s) && ReachesAlone(device, s, acts, s')
    ensures n <= |s'.fed| && Flat(s'.replies) == s'.fed[..n]
    ensures Idle(s') ==> s'.queue == s'.fed[n..]
  {
    var k, lone;
    n, k, lone := ReachesSequential(device, s, 0, 0, None, acts, s');
  }

  // ... and a request's own write always raises the watermark.
  lemma LoneRaises(device: string, s: State, acts: seq<Action>, s': State, t: nat)
    requires Initial(s) && ReachesAlone(device, s, acts, s') && t in s'.threads && s'.threads[t].HasBatch?
    ensures Mark(s'.row).Some? ==> Mark(s'.row).value < MaxLsn(s'.threads[t].batch)
  {
    var n, k, lone := ReachesSequential(device, s, 0, 0, None, acts, s');
    assert Placed(s', n, k, lone, t);
    NextRaises(s'.fed, n, s'.threads[t].batch, Mark(s'.row));
  }

  // ---------------------------------------------------------------- the four steps as one

  // The state after AddChange on each of these.
  function Fed(s: State, cs: seq<WALChange>): State {
    s.(fed := s.fed + cs, at := s.at + |cs|, queue := s.queue + cs, high := if cs == [] then s.high else cs[|cs| - 1].lsn)
  }

  function Adds(cs: seq<WALChange>): seq<Action> {
    if cs == [] then [] else Adds(cs[..|cs| - 1]) + [Add(cs[|cs| - 1])]
  }

  // Changes the log may produce after position `high`.
  ghost predicate Later(high: LSN, cs: seq<WALChange>) {
    && Increasing(cs) && Convertible(cs)
    && forall i :: 0 <= i < |cs| ==> cs[i].lsn > high
  }

  lemma FedSnoc(s: State, p: seq<WALChange>, c: WALChange)
    ensures Fed(s, p + [c]) == Fed(s, p).(fed := Fed(s, p).fed + [c], at := Fed(s, p).at + 1, high := c.lsn, queue := Fed(s, p).queue + [c])
  {
    assert s.fed + (p + [c]) == (s.fed + p) + [c];
    assert s.queue + (p + [c]) == (s.queue + p) + [c];
  }

  lemma FedNothing(s: State)
    ensures Fed(s, []) == s
  {
    assert s.fed + [] == s.fed && s.queue + [] == s.queue;
  }

  // Additions at the end of a run.
  lemma {:induction false} AddsReach(device: string, s: State, acts: seq<Action>, mid: State, cs: seq<WALChange>)
    returns (acts': seq<Action>, s': State)
    requires Reaches(device, s, acts, mid) && mid.at == |mid.fed| && Later(mid.high, cs)
    ensures s' == Fed(mid, cs) && acts' == acts + Adds(cs) && Reaches(device, s, acts', s')
  {
    acts', s' := acts, mid;
    if cs == [] {
      FedNothing(mid);
      assert acts + [] == acts;
    } else {
      var p, c := cs[..|cs| - 1], cs[|cs| - 1];
      acts', s' := AddsReach(device, s, acts, mid, p);
      assert cs == p + [c];
      FedSnoc(mid, p, c);
      s', acts' := ReachesThen(device, s, acts', s', Add(c));
      assert (acts + Adds(p)) + [Add(c)] == acts + Adds(cs);
    }
  }

  lemma {:induction false} MaxLsnBound(cs: seq<WALChange>, high: LSN)
    requires forall i :: 0 <= i < |cs| ==> cs[i].lsn <= high
    ensures MaxLsn(cs) <= high
  {
    if cs != [] {
      MaxLsnBound(cs[..|cs| - 1], high);
    }
  }

  lemma PutAndDrop(m: map<nat, Phase>, t: nat, p: Phase)
    requires t !in m
    ensures m[t := p] - {t} == m
  {
  }

  lemma BatchBound(q: seq<WALChange>, high: LSN, mark: Option<LSN>, limit: int)
    requires forall i :: 0 <= i < |q| ==> q[i].lsn <= high
    ensures MaxLsn(ChangeTracking.Page(Newer(q, mark), limit)) <= high
  {
    var newer := Newer(q, mark);
    forall i | 0 <= i < |newer|
      ensures newer[i].lsn <= high
    {
      NewerMembers(q, mark, newer[i]);
    }
    MaxLsnBound(ChangeTracking.Page(newer, limit), high);
  }

  // Pruning keeps whatever was enqueued past its watermark.
  lemma PrunePastAdds(q: seq<WALChange>, max: LSN, b: seq<WALChange>, c: seq<WALChange>)
    requires (forall i :: 0 <= i < |b| ==> b[i].lsn > max) && (forall i :: 0 <= i < |c| ==> c[i].lsn > max)
    ensures Newer(q + b + c, Some(max)) == Newer(q, Some(max)) + b + c
  {
    NewerConcat(q + b, c, Some(max));
    NewerConcat(q, b, Some(max));
    NewerKeepsAll(b, Some(max));
    NewerKeepsAll(c, Some(max));
  }

  // Row write, additions and pruning of a copied batch of the queue of u, whose threads do not include t.
  lemma WriteThenPrune(device: string, u: State, t: nat, mark: Option<LSN>, limit: int, now: Time, reread: bool,
                       b: seq<WALChange>, c: seq<WALChange>) returns (s': State)
    requires t !in u.threads
    requires forall i :: 0 <= i < |u.queue| ==> u.queue[i].lsn <= u.high
    requires Later(u.high, b) && Later(Fed(u, b).high, c)
    ensures var batch := ChangeTracking.Page(Newer(u.queue, mark), limit);
      var copied := u.(threads := u.threads[t := HasBatch(batch)]);
      var written := Next(device, Fed(copied, b), WriteRow(t, now, reread, false));
      && written.threads == u.threads[t := HasWritten(MaxLsn(batch))]
      && s' == Next(device, Fed(written, c), Prune(t))
      && s' == Fed(Fed(u.(queue := Newer(u.queue, Some(MaxLsn(batch))), row := written.row, replies := u.replies + [batch]), b), c)
  {
    var batch := ChangeTracking.Page(Newer(u.queue, mark), limit);
    var written := Next(device, Fed(u.(threads := u.threads[t := HasBatch(batch)]), b), WriteRow(t, now, reread, false));
    PutAndDrop(u.threads, t, HasWritten(MaxLsn(batch)));
    assert written.threads == u.threads[t := HasWritten(MaxLsn(batch))];
    s' := Next(device, Fed(written, c), Prune(t));
    BatchBound(u.queue, u.high, mark, limit);
    PrunePastAdds(u.queue, MaxLsn(batch), b, c);
  }

  // Reading the row, additions, and copying the queue: a request in flight, or none if there was nothing to take.
  lemma SplitCopy(device: string, s: State, t: nat, limit: int, a: seq<WALChange>, batch: seq<WALChange>) returns (u: State, acts: seq<Action>)
    requires t !in s.threads && s.row.Some? && s.at == |s.fed| && Later(s.high, a)
    requires batch == ChangeTracking.Page(Newer(s.queue + a, Watermark(s.row.value)), limit)
    ensures u == if Converted(batch) == [] then Fed(s, a) else Fed(s, a).(threads := s.threads[t := HasBatch(batch)])
    ensures acts == [ReadRow(t)] + Adds(a) + [CopyQueue(t, limit)] && Reaches(device, s, acts, u)
  {
    var mark := Watermark(s.row.value);
    u, acts := ReachesThen(device, s, [], s, ReadRow(t));
    assert [] + [ReadRow(t)] == [ReadRow(t)];
    acts, u := AddsReach(device, s, acts, u, a);
    assert u == Fed(s, a).(threads := s.threads[t := HasMark(mark)]);
    u, acts := ReachesThen(device, s, acts, u, CopyQueue(t, limit));
    PutAndDrop(s.threads, t, HasMark(mark));
    assert s.threads[t := HasMark(mark)][t := HasBatch(batch)] == s.threads[t := HasBatch(batch)];
  }

  // Additions, the row write, additions and pruning of a request that has copied its batch.
  lemma SplitFinish(device: string, s: State, acts: seq<Action>, u: State, t: nat, mark: Option<LSN>, limit: int, now: Time, reread: bool,
                    b: seq<WALChange>, c: seq<WALChange>) returns (s': State, acts': seq<Action>)
    requires t !in u.threads && u.at == |u.fed| && forall i :: 0 <= i < |u.queue| ==> u.queue[i].lsn <= u.high
    requires Later(u.high, b) && Later(Fed(u, b).high, c)
    requires Reaches(device, s, acts, u.(threads := u.threads[t := HasBatch(ChangeTracking.Page(Newer(u.queue, mark), limit))]))
    ensures var batch := ChangeTracking.Page(Newer(u.queue, mark), limit);
      s' == Fed(Fed(u.(queue := Newer(u.queue, Some(MaxLsn(batch))), row := Some(Advanced(device, u.row, reread, MaxLsn(batch), now)),
                       replies := u.replies + [batch]), b), c)
    ensures acts' == acts + Adds(b) + [WriteRow(t, now, reread, false)] + Adds(c) + [Prune(t)] && Reaches(device, s, acts', s')
  {
    var batch := ChangeTracking.Page(Newer(u.queue, mark), limit);
    var copied := u.(threads := u.threads[t := HasBatch(batch)]);
    acts', s' := AddsReach(device, s, acts, copied, b);
    s', acts' := ReachesThen(device, s, acts', s', WriteRow(t, now, reread, false));
    acts', s' := AddsReach(device, s, acts', s', c);
    s', acts' := ReachesThen(device, s, acts', s', Prune(t));
    var same := WriteThenPrune(device, u, t, mark, limit, now, reread, b, c);
  }

  // The actions of one request with additions a, b and c between its four steps: it stops after an empty copy
  // (copies) or a failed row write.
  function SplitActs(t: nat, limit: int, now: Time, f: SyncFaults, copies: bool,
                     a: seq<WALChange>, b: seq<WALChange>, c: seq<WALChange>): seq<Action> {
    var copying := [ReadRow(t)] + Adds(a) + [CopyQueue(t, limit)];
    if !copies then copying
    else
      var writing := copying + Adds(b) + [WriteRow(t, now, f.reread, f.write)];
      if f.write then writing else writing + Adds(c) + [Prune(t)]
  }

  // That run leads to the state after adding a, one whole WAL sync, and adding b and c (as far as it got). So
  // between requests that do not overlap a sync may be taken as one step.
  lemma SplitIsPull(device: string, s: State, t: nat, limit: int, now: Time, f: SyncFaults,
                    a: seq<WALChange>, b: seq<WALChange>, c: seq<WALChange>) returns (s': State, o: Pulled, batch: seq<WALChange>)
    requires t !in s.threads && s.row.Some? && s.at == |s.fed| && !f.read
    requires forall i :: 0 <= i < |s.queue| ==> s.queue[i].lsn <= s.high
    requires Later(s.high, a) && Later(Fed(s, a).high, b) && Later(Fed(Fed(s, a), b).high, c)
    ensures o == PullWal(device, Lane(s.queue + a, s.row), limit, now, f)
    ensures Reaches(device, s, SplitActs(t, limit, now, f, Converted(batch) != [], a, b, c), s')
    ensures Converted(batch) == [] ==> o == Pulled(Lane(s.queue + a, s.row), Ok([])) && s' == Fed(s, a)
    ensures Converted(batch) != [] && f.write ==>
      o.lane == Lane(s.queue + a, s.row) && o.reply.Err? && s' == Fed(Fed(s, a), b)
    ensures Converted(batch) != [] && !f.write ==>
      && o.reply == Ok(Converted(batch))
      && s' == Fed(Fed(Fed(s, a).(queue := o.lane.queue, row := o.lane.row, replies := s.replies + [batch]), b), c)
  {
    var mark := Watermark(s.row.value);
    o := PullWal(device, Lane(s.queue + a, s.row), limit, now, f);
    batch := ChangeTracking.Page(Newer(s.queue + a, mark), limit);
    var acts;
    s', acts := SplitCopy(device, s, t, limit, a, batch);
    if Converted(batch) != [] {
      if f.write {
        PutAndDrop(s.threads, t, HasBatch(batch));
        acts, s' := AddsReach(device, s, acts, s', b);
        s', acts := ReachesThen(device, s, acts, s', WriteRow(t, now, f.reread, true));
      } else {
        s', acts := SplitFinish(device, s, acts, Fed(s, a), t, mark, limit, now, f.reread, b, c);
      }
    }
  }
}
