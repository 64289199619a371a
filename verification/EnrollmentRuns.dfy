// Users, tokens and devices over whole runs of enrollments, logins and full-row write-backs.
module EnrollmentRuns {
  import opened Prelude
  import opened Models
  import opened Database

  // held: user rows read by requests that will write them back (GetUserByID before UpdateUser).
  datatype Registry = Registry(users: Users, tokens: Tokens, held: map<nat, User>)

  datatype Event =
    | Issue(token: string, row: EnrollmentToken)
    | Complete(q: EnrollInput, holder: Option<string>, named: Option<string>)
    | Login(username: string, freshId: string, owner: Option<string>)
    | TakeRow(r: nat, id: string)
    | PutRow(r: nat, content: string)

  predicate Fresh(s: Registry, id: string) {
    id !in s.users && id != ""
  }

  // The lookups of a completion return what is there, and new ids are fresh and not blank.
  ghost predicate Legal(s: Registry, e: Event) {
    match e
    case Issue(_, row) => row.usedAt.None?
    case Complete(q, holder, named) => Holder(s.users, q.device, holder) && Named(s.users, q.username, named) && Fresh(s, q.freshId)
    case Login(username, freshId, owner) => Named(s.users, username, owner) && Fresh(s, freshId)
    case TakeRow(_, id) => id in s.users
    case PutRow(r, _) => r in s.held
  }

  // Issue, Login and PutRow are CreateEnrollmentToken, the web login's insert-or-update and UpdateUser.
  function Step(s: Registry, e: Event): Registry
    requires e.Complete? ==> Holder(s.users, e.q.device, e.holder) && Named(s.users, e.q.username, e.named)
    requires e.Login? ==> Named(s.users, e.username, e.owner)
    requires e.TakeRow? ==> e.id in s.users
    requires e.PutRow? ==> e.r in s.held
  {
    match e
    case Issue(token, row) =>
      if token in s.tokens || row.createdBy !in s.users || (exists t | t in s.tokens :: s.tokens[t].id == row.id) then s
      else s.(tokens := s.tokens[token := row.(usedAt := None, deviceId := None)])
    case Complete(q, holder, named) =>
      var o := Enroll(s.users, s.tokens, q, holder, named);
      s.(users := o.users, tokens := o.tokens)
    case Login(username, freshId, owner) =>
      if owner.Some? then s.(users := s.users[owner.value := s.users[owner.value].(onlineStatus := true)])
      else s.(users := s.users[freshId := User(freshId, username, Web, None, true, None, None, None, None)])
    case TakeRow(r, id) => s.(held := s.held[r := s.users[id]])
    case PutRow(r, content) =>
      var saved := SavedUser(s.users, s.tokens, s.held[r].(lastMessageSent := Some(content)));
      if saved.Ok? then s.(users := saved.value) else s
  }

  // ---------------------------------------------------------------- the invariant

  ghost predicate UsernamesUnique(users: Users) {
    forall a, b :: a in users && b in users && users[a].username == users[b].username ==> a == b
  }

  ghost predicate DevicesUnique(users: Users) {
    forall a, b :: a in users && b in users && users[a].deviceId.Some? && users[a].deviceId == users[b].deviceId ==> a == b
  }

  // tokenId names an existing token that has been used.
  ghost predicate NamesUsedToken(tokens: Tokens, tokenId: Option<string>) {
    tokenId.Some? ==> exists t :: t in tokens && tokens[t].id == tokenId.value && tokens[t].usedAt.Some?
  }

  // What every run keeps: usernames are unique and enrollment tokens, of users and of rows read, exist and are used.
  ghost predicate Keyed(s: Registry) {
    && "" !in s.users
    && UsernamesUnique(s.users)
    && (forall id :: id in s.users ==> s.users[id].id == id && NamesUsedToken(s.tokens, s.users[id].enrollmentTokenId))
    && (forall r :: r in s.held ==> NamesUsedToken(s.tokens, s.held[r].enrollmentTokenId))
  }

  ghost predicate Sound(s: Registry) {
    Keyed(s) && DevicesUnique(s.users)
  }

  // Nobody else holds the device of the row about to be written back.
  ghost predicate DeviceStillFree(users: Users, row: User) {
    row.deviceId.Some? ==> forall id :: id in users && users[id].deviceId == row.deviceId ==> id == row.id
  }

  // The row a write-back writes, and whether the statement changes a row.
  function WrittenRow(s: Registry, e: Event): User
    requires e.PutRow? && e.r in s.held
  {
    s.held[e.r].(lastMessageSent := Some(e.content))
  }

  predicate Writes(s: Registry, row: User) {
    row.id in s.users && SavedUser(s.users, s.tokens, row).Ok?
  }

  // A write-back that goes through still owns its device.
  ghost predicate Clean(s: Registry, e: Event)
    requires Legal(s, e)
  {
    e.PutRow? && Writes(s, WrittenRow(s, e)) ==> DeviceStillFree(s.users, WrittenRow(s, e))
  }

  // A token once used stays as it is, so names of used tokens stay good.
  ghost predicate TokensGrow(before: Tokens, after: Tokens) {
    forall t :: t in before ==> t in after && after[t].id == before[t].id && (before[t].usedAt.Some? ==> after[t] == before[t])
  }

  lemma NamesKept(before: Tokens, after: Tokens, tokenId: Option<string>)
    requires TokensGrow(before, after) && NamesUsedToken(before, tokenId)
    ensures NamesUsedToken(after, tokenId)
  {
    if tokenId.Some? {
      var t :| t in before && before[t].id == tokenId.value && before[t].usedAt.Some?;
      assert t in after && after[t].id == tokenId.value && after[t].usedAt.Some?;
    }
  }

  // ---------------------------------------------------------------- one completion

  // A completion fails and changes nothing, or uses a live token up for the device and leaves exactly one
  // user on it, with the requested name and that token; every other user and token stays as it was.
  lemma CompletionExact(s: Registry, q: EnrollInput, holder: Option<string>, named: Option<string>)
    requires UsernamesUnique(s.users)
    requires Holder(s.users, q.device, holder) && Named(s.users, q.username, named) && q.freshId !in s.users
    ensures var o := Enroll(s.users, s.tokens, q, holder, named);
      && (o.result.Ok? <==> q.token in s.tokens && s.tokens[q.token].usedAt.None? && q.now < s.tokens[q.token].expiresAt && !q.fault
                            && (holder.Some? && named.Some? ==> holder == named))
      && (o.result.Err? ==> o.users == s.users && o.tokens == s.tokens)
      && (o.result.Ok? ==>
            var id, t := o.result.value, s.tokens[q.token];
            && id == (if holder.Some? then holder.value else if named.Some? then named.value else q.freshId)
            && o.tokens == s.tokens[q.token := t.(usedAt := Some(q.now), deviceId := Some(q.device))]
            && (forall u :: u in o.users <==> u in s.users || u == id)
            && (forall u :: u in s.users && u != id ==> o.users[u] == s.users[u])
            && (id in s.users ==> o.users[id] == s.users[id].(username := q.username, deviceId := Some(q.device),
                                                              enrolledAt := Some(q.now), enrollmentTokenId := Some(t.id)))
            && (id !in s.users ==>
                  o.users[id] == User(id, q.username, Mobile, Some(q.device), false, None, Some(q.now), Some(t.id), None))
            && o.users[id].username == q.username && o.users[id].enrollmentTokenId == Some(t.id)
            && o.users[id].deviceId == Some(q.device)
            && (DevicesUnique(s.users) ==> forall u :: u in o.users && o.users[u].deviceId == Some(q.device) <==> u == id))
  {
  }

  // Changing one user to a name nobody else has keeps names unique; likewise for devices.
  lemma NamesAfter(before: Users, after: Users, id: string)
    requires UsernamesUnique(before) && id in after
    requires forall u :: u in after && u != id ==>
      u in before && after[u].username == before[u].username && after[u].username != after[id].username
    ensures UsernamesUnique(after)
  {
  }

  lemma DevicesAfter(before: Users, after: Users, id: string)
    requires DevicesUnique(before) && id in after
    requires forall u :: u in after && u != id ==>
      u in before && after[u].deviceId == before[u].deviceId && (after[u].deviceId != after[id].deviceId || after[id].deviceId == None)
    ensures DevicesUnique(after)
  {
  }

  // Rows that were there before keep naming used tokens.
  lemma RegistryNames(s: Registry, s': Registry)
    requires Keyed(s) && TokensGrow(s.tokens, s'.tokens)
    ensures forall id :: id in s.users ==> NamesUsedToken(s'.tokens, s.users[id].enrollmentTokenId)
    ensures forall r :: r in s.held ==> NamesUsedToken(s'.tokens, s.held[r].enrollmentTokenId)
  {
    forall id | id in s.users
      ensures NamesUsedToken(s'.tokens, s.users[id].enrollmentTokenId)
    {
      NamesKept(s.tokens, s'.tokens, s.users[id].enrollmentTokenId);
    }
    forall r | r in s.held
      ensures NamesUsedToken(s'.tokens, s.held[r].enrollmentTokenId)
    {
      NamesKept(s.tokens, s'.tokens, s.held[r].enrollmentTokenId);
    }
  }

  lemma CompletionNames(s: Registry, q: EnrollInput, holder: Option<string>, named: Option<string>)
    requires Keyed(s) && Legal(s, Complete(q, holder, named))
    ensures UsernamesUnique(Step(s, Complete(q, holder, named)).users)
  {
    var o := Enroll(s.users, s.tokens, q, holder, named);
    CompletionExact(s, q, holder, named);
    if o.result.Ok? {
      NamesAfter(s.users, o.users, o.result.value);
    }
  }

  lemma CompletionKeyed(s: Registry, q: EnrollInput, holder: Option<string>, named: Option<string>)
    requires Keyed(s) && Legal(s, Complete(q, holder, named))
    ensures Keyed(Step(s, Complete(q, holder, named)))
  {
    var o := Enroll(s.users, s.tokens, q, holder, named);
    CompletionNames(s, q, holder, named);
    assert TokensGrow(s.tokens, o.tokens);
    RegistryNames(s, Step(s, Complete(q, holder, named)));
    assert o.result.Ok? ==> o.tokens[q.token].usedAt.Some?;
  }

  lemma CompletionDevices(s: Registry, q: EnrollInput, holder: Option<string>, named: Option<string>)
    requires Sound(s) && Legal(s, Complete(q, holder, named))
    ensures DevicesUnique(Step(s, Complete(q, holder, named)).users)
  {
    var o := Enroll(s.users, s.tokens, q, holder, named);
    CompletionExact(s, q, holder, named);
    if o.result.Ok? {
      DevicesAfter(s.users, o.users, o.result.value);
    }
  }

  // ---------------------------------------------------------------- write-backs

  // A write-back of a row that was read earlier keeps device ids unique exactly if nobody else has come to
  // hold the row's device since (UNIQUE guards the username; nothing guards device_id).
  lemma WriteBackExact(users: Users, tokens: Tokens, row: User)
    requires DevicesUnique(users) && row.id in users && SavedUser(users, tokens, row).Ok?
    ensures DevicesUnique(SavedUser(users, tokens, row).value) <==> DeviceStillFree(users, row)
  {
    var after := SavedUser(users, tokens, row).value;
    if !DeviceStillFree(users, row) {
      var other :| other in users && users[other].deviceId == row.deviceId && other != row.id;
      assert after[other].deviceId == after[row.id].deviceId;
    }
  }

  lemma PutRowKeyed(s: Registry, e: Event)
    requires Keyed(s) && e.PutRow? && Legal(s, e)
    ensures Keyed(Step(s, e))
  {
    var row := WrittenRow(s, e);
    if Writes(s, row) {
      NamesAfter(s.users, s.users[row.id := row], row.id);
    }
  }

  lemma IssueKeyed(s: Registry, e: Event)
    requires Keyed(s) && e.Issue? && Legal(s, e)
    ensures Keyed(Step(s, e))
  {
    assert TokensGrow(s.tokens, Step(s, e).tokens);
    RegistryNames(s, Step(s, e));
  }

  lemma LoginKeyed(s: Registry, e: Event)
    requires Keyed(s) && e.Login? && Legal(s, e)
    ensures Keyed(Step(s, e))
  {
    var id := if e.owner.Some? then e.owner.value else e.freshId;
    NamesAfter(s.users, Step(s, e).users, id);
  }

  lemma StepKeyed(s: Registry, e: Event)
    requires Keyed(s) && Legal(s, e)
    ensures Keyed(Step(s, e))
  {
    match e
    case Issue(_, _) => IssueKeyed(s, e);
    case Complete(q, holder, named) => CompletionKeyed(s, q, holder, named);
    case Login(_, _, _) => LoginKeyed(s, e);
    case TakeRow(_, _) =>
    case PutRow(_, _) => PutRowKeyed(s, e);
  }

  // One step keeps devices unique exactly if it is not a write-back whose device somebody else has taken.
  lemma StepExact(s: Registry, e: Event)
    requires Sound(s) && Legal(s, e)
    ensures Sound(Step(s, e)) <==> Clean(s, e)
  {
    StepKeyed(s, e);
    match e
    case Complete(q, holder, named) => CompletionDevices(s, q, holder, named);
    case Login(_, _, owner) =>
      DevicesAfter(s.users, Step(s, e).users, if e.owner.Some? then e.owner.value else e.freshId);
    case PutRow(_, _) =>
      if Writes(s, WrittenRow(s, e)) {
        WriteBackExact(s.users, s.tokens, WrittenRow(s, e));
      }
    case _ =>
  }

  // ---------------------------------------------------------------- runs

  // The state after a run of legal events.
  ghost predicate AllLegal(s: Registry, es: seq<Event>)
    decreases |es|
  {
    es == [] || (Legal(s, es[0]) && AllLegal(Step(s, es[0]), es[1..]))
  }

  ghost function Run(s: Registry, es: seq<Event>): Registry
    requires AllLegal(s, es)
    decreases |es|
  {
    if es == [] then s else Run(Step(s, es[0]), es[1..])
  }

  // Every write-back of the run still owns its device.
  ghost predicate AllClean(s: Registry, es: seq<Event>)
    requires AllLegal(s, es)
    decreases |es|
  {
    es == [] || (Clean(s, es[0]) && AllClean(Step(s, es[0]), es[1..]))
  }

  // Over every run at all, stale write-backs included, usernames stay unique and the enrollment token of every
  // user, and of every row read for a write-back, exists and has been used.
  lemma {:induction false} KeyedInvariant(s: Registry, es: seq<Event>)
    requires Keyed(s) && AllLegal(s, es)
    ensures Keyed(Run(s, es))
    decreases |es|
  {
    if es != [] {
      StepKeyed(s, es[0]);
      KeyedInvariant(Step(s, es[0]), es[1..]);
    }
  }

  // Devices are unique after every prefix of a run exactly if each of its write-backs still owned its device.
  lemma {:induction false} DevicesExact(s: Registry, es: seq<Event>)
    requires Sound(s) && AllLegal(s, es)
    ensures AllClean(s, es) <==> DevicesThroughout(s, es)
    decreases |es|
  {
    if es != [] {
      StepKeyed(s, es[0]);
      StepExact(s, es[0]);
      if Clean(s, es[0]) {
        DevicesExact(Step(s, es[0]), es[1..]);
      } else {
        assert !DevicesUnique(Step(s, es[0]).users);
      }
    }
  }

  ghost predicate DevicesThroughout(s: Registry, es: seq<Event>)
    requires AllLegal(s, es)
    decreases |es|
  {
    DevicesUnique(s.users) && (es == [] || DevicesThroughout(Step(s, es[0]), es[1..]))
  }

  lemma {:induction false} DevicesAtEnd(s: Registry, es: seq<Event>)
    requires AllLegal(s, es) && DevicesThroughout(s, es)
    ensures DevicesUnique(Run(s, es).users)
    decreases |es|
  {
    if es != [] {
      DevicesAtEnd(Step(s, es[0]), es[1..]);
    }
  }

  // The enrollment invariant, devices included.
  lemma EnrollmentInvariant(s: Registry, es: seq<Event>)
    requires Sound(s) && AllLegal(s, es) && AllClean(s, es)
    ensures Sound(Run(s, es))
  {
    KeyedInvariant(s, es);
    DevicesExact(s, es);
    DevicesAtEnd(s, es);
  }

  // A write-back right after its read is clean, so handlers that run alone keep the invariant.
  lemma FreshWriteBackClean(s: Registry, r: nat, id: string, content: string)
    requires Sound(s) && id in s.users
    ensures Legal(Step(s, TakeRow(r, id)), PutRow(r, content)) && Clean(Step(s, TakeRow(r, id)), PutRow(r, content))
  {
  }

  // The user's name owner moves to the device of q1, leaving the old device to a newcomer named by q2.
  lemma MovedAndReused(s: Registry, id: string, q1: EnrollInput, q2: EnrollInput)
    returns (s2: Registry, s3: Registry)
    requires Sound(s) && id in s.users && s.users[id].deviceId == Some(q2.device)
    requires q1.username == s.users[id].username && Holder(s.users, q1.device, None) && q1.device != q2.device
    requires Usable(s.tokens, q1.token, q1.now) && Usable(s.tokens, q2.token, q2.now) && q1.token != q2.token
    requires !q1.fault && !q2.fault && Named(s.users, q2.username, None)
    requires Fresh(s, q1.freshId) && Fresh(s, q2.freshId)
    ensures Legal(s, Complete(q1, None, Some(id))) && s2 == Step(s, Complete(q1, None, Some(id)))
    ensures Legal(s2, Complete(q2, None, None)) && s3 == Step(s2, Complete(q2, None, None))
    ensures s3.held == s.held && id in s3.users && q2.freshId in s3.users && id != q2.freshId
    ensures s3.users[id].username == s.users[id].username && s3.users[q2.freshId].deviceId == Some(q2.device)
    ensures TokensGrow(s.tokens, s3.tokens)
  {
    var o1 := Enroll(s.users, s.tokens, q1, None, Some(id));
    assert o1.result == Ok(id);
    s2 := Step(s, Complete(q1, None, Some(id)));
    assert Holder(s2.users, q2.device, None);
    s3 := Step(s2, Complete(q2, None, None));
    assert Enroll(s2.users, s2.tokens, q2, None, None).result == Ok(q2.freshId);
  }

  // A stale one need not be: a row is read, its user is moved to another device, the old device enrolls
  // someone else, and the write-back puts both users on the old device.
  lemma StaleWriteBackShares(s: Registry, id: string, q1: EnrollInput, q2: EnrollInput, content: string)
    returns (es: seq<Event>, s3: Registry, s4: Registry)
    requires Sound(s) && id in s.users && s.users[id].deviceId == Some(q2.device) && !s.users[id].userType.OtherType?
    requires q1.username == s.users[id].username && Holder(s.users, q1.device, None) && q1.device != q2.device
    requires Usable(s.tokens, q1.token, q1.now) && Usable(s.tokens, q2.token, q2.now) && q1.token != q2.token
    requires !q1.fault && !q2.fault && Named(s.users, q2.username, None)
    requires Fresh(s, q1.freshId) && Fresh(s, q2.freshId)
    ensures es == [TakeRow(0, id), Complete(q1, None, Some(id)), Complete(q2, None, None)]
    ensures AllLegal(s, es) && AllClean(s, es) && s3 == Run(s, es) && Sound(s3)
    ensures Legal(s3, PutRow(0, content)) && s4 == Step(s3, PutRow(0, content))
    ensures id != q2.freshId && id in s4.users && q2.freshId in s4.users
    ensures s4.users[id].deviceId == s4.users[q2.freshId].deviceId == Some(q2.device)
  {
    var e0, e1, e2 := TakeRow(0, id), Complete(q1, None, Some(id)), Complete(q2, None, None);
    es := [e0, e1, e2];
    var s1 := Step(s, e0);
    assert Sound(s1);
    var s2;
    s2, s3 := MovedAndReused(s1, id, q1, q2);
    RunThree(s, e0, e1, e2);
    EnrollmentInvariant(s, es);
    s4 := Step(s3, PutRow(0, content));
    NamesKept(s.tokens, s3.tokens, s.users[id].enrollmentTokenId);
    assert TokenKnown(s3.tokens, s.users[id].enrollmentTokenId);
    assert !NameTaken(s3.users, s.users[id].username, id);
  }

  // A run with one clean event before it.
  lemma RunCons(s: Registry, e: Event, es: seq<Event>)
    requires Legal(s, e) && Clean(s, e) && AllLegal(Step(s, e), es) && AllClean(Step(s, e), es)
    ensures AllLegal(s, [e] + es) && AllClean(s, [e] + es) && Run(s, [e] + es) == Run(Step(s, e), es)
  {
    assert ([e] + es)[1..] == es;
  }

  lemma RunThree(s: Registry, e0: Event, e1: Event, e2: Event)
    requires Legal(s, e0) && Clean(s, e0)
    requires Legal(Step(s, e0), e1) && Clean(Step(s, e0), e1)
    requires Legal(Step(Step(s, e0), e1), e2) && Clean(Step(Step(s, e0), e1), e2)
    ensures AllLegal(s, [e0, e1, e2]) && AllClean(s, [e0, e1, e2])
    ensures Run(s, [e0, e1, e2]) == Step(Step(Step(s, e0), e1), e2)
  {
    RunCons(Step(Step(s, e0), e1), e2, []);
    RunCons(Step(s, e0), e1, [e2]);
    RunCons(s, e0, [e1, e2]);
    assert [e2] + [] == [e2] && [e1] + [e2] == [e1, e2] && [e0] + [e1, e2] == [e0, e1, e2];
  }

  // ---------------------------------------------------------------- token lifecycle

  // The event completes an enrollment with this token.
  predicate Spends(s: Registry, e: Event, token: string)
    requires e.Complete? ==> Holder(s.users, e.q.device, e.holder) && Named(s.users, e.q.username, e.named)
  {
    e.Complete? && e.q.token == token && Enroll(s.users, s.tokens, e.q, e.holder, e.named).result.Ok?
  }

  predicate Spent(s: Registry, token: string) {
    token in s.tokens && s.tokens[token].usedAt.Some?
  }

  ghost function Completions(s: Registry, es: seq<Event>, token: string): nat
    requires AllLegal(s, es)
    decreases |es|
  {
    if es == [] then 0
    else (if Spends(s, es[0], token) then 1 else 0) + Completions(Step(s, es[0]), es[1..], token)
  }

  lemma SpendOnce(s: Registry, e: Event, token: string)
    requires Legal(s, e)
    ensures Spent(s, token) ==> !Spends(s, e, token) && Spent(Step(s, e), token)
    ensures Spends(s, e, token) ==> Spent(Step(s, e), token) && e.q.now < s.tokens[token].expiresAt
  {
  }

  // In every run, clean or not, each token completes at most once, and only before it expires.
  lemma {:induction false} TokenCompletesOnce(s: Registry, es: seq<Event>, token: string)
    requires AllLegal(s, es)
    ensures Completions(s, es, token) <= if Spent(s, token) then 0 else 1
    decreases |es|
  {
    if es != [] {
      SpendOnce(s, es[0], token);
      TokenCompletesOnce(Step(s, es[0]), es[1..], token);
    }
  }
}
