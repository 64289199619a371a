// The enrollment service (sync-engine/internal/enrollment/service.go).
module EnrollmentService {
  import opened Prelude
  import opened Models
  import opened Database

  // One hour, in the clock's seconds.
  const TOKEN_LIFETIME: Time := 3600

  datatype Details = Details(tenantId: string, createdBy: string, expiresAt: Time, usedAt: Option<Time>, valid: bool)

  datatype EnrollmentResult = EnrollmentResult(userId: string, deviceId: string, tenantId: string)

  class Service {
    const db: DB

    constructor (db: DB)
      ensures this.db == db
    {
      this.db := db;
    }

    method CreateEnrollment(createdBy: string, tenantId: string, id: string, token: string, now: Time, fault: bool)
      returns (r: Result<Time>)
      modifies db`tokens
      ensures r.Ok? <==>
        && !fault && token !in old(db.tokens) && createdBy in db.users
        && forall t | t in old(db.tokens) :: old(db.tokens)[t].id != id
      ensures r.Ok? ==> r.value == now + 3600
      ensures r.Ok? ==>
        db.tokens == old(db.tokens)[token := EnrollmentToken(id, createdBy, tenantId, now + 3600, None, None)]
      ensures r.Err? ==> db.tokens == old(db.tokens)
    {
      var expiresAt := now + TOKEN_LIFETIME;
      var ok := db.CreateEnrollmentToken(token, EnrollmentToken(id, createdBy, tenantId, expiresAt, None, None), fault);
      r := if ok then Ok(expiresAt) else Err(Cause.Database);
    }

    // `valid` is the guard under which the completion statement would use the token up at the same instant.
    method GetEnrollment(token: string, now: Time, fault: bool) returns (r: Result<Details>)
      ensures r.Ok? <==> !fault && token in db.tokens
      ensures r.Ok? ==> (r.value.valid <==> Usable(db.tokens, token, now))
      ensures r.Ok? ==>
        var t := db.tokens[token];
        && (r.value.valid <==> t.usedAt.None? && now < t.expiresAt)
        && r.value.usedAt == t.usedAt && r.value.expiresAt == t.expiresAt
        && r.value.tenantId == t.tenantId && r.value.createdBy == t.createdBy
    {
      var et := db.GetEnrollmentToken(token, fault);
      if et.Err? {
        return Err(et.cause);
      }
      var valid := now < et.value.expiresAt && et.value.usedAt.None?;
      return Ok(Details(et.value.tenantId, et.value.createdBy, et.value.expiresAt, et.value.usedAt, valid));
    }

    // A different user holds the device than the one who owns the name.
    ghost predicate Contested(users: Users, device: string, username: string) {
      exists h, o :: h in users && o in users && h != o && users[h].deviceId == Some(device) && users[o].username == username
    }

    // It succeeds on a live token, a username and no failure, unless device and name belong to different users or
    // the fresh id is taken; and then the user returned is on the device under the name, by that token.
    method CompleteEnrollment(q: EnrollInput, fault: bool) returns (r: Result<EnrollmentResult>)
      requires db.Valid()
      modifies db`users, db`tokens
      ensures db.Valid()
      ensures r.Err? ==> db.users == old(db.users) && db.tokens == old(db.tokens)
      ensures r.Err? ==>
        || fault || q.fault || q.username == "" || q.token !in old(db.tokens)
        || old(db.tokens)[q.token].usedAt.Some? || q.now >= old(db.tokens)[q.token].expiresAt
        || q.freshId in old(db.users) || Contested(old(db.users), q.device, q.username)
      ensures r.Ok? ==>
        && !fault && !q.fault && q.token in old(db.tokens)
        && var t := old(db.tokens)[q.token];
        && t.usedAt.None? && q.now < t.expiresAt && r.value.tenantId == t.tenantId
        && r.value.userId in db.users
        && var user := db.users[r.value.userId];
        && user.username == q.username && user.deviceId == Some(q.device)
        && user.enrolledAt == Some(q.now) && user.enrollmentTokenId == Some(t.id)
        && db.tokens == old(db.tokens)[q.token := t.(usedAt := Some(q.now), deviceId := Some(q.device))]
      ensures r.Ok? ==> q.username != "" && r.value.deviceId == q.device && exists holder, named ::
        && Holder(old(db.users), q.device, holder) && Named(old(db.users), q.username, named)
        && Enrolled(db.users, db.tokens, Ok(r.value.userId)) == Enroll(old(db.users), old(db.tokens), q, holder, named)
    {
      var et := db.GetEnrollmentToken(q.token, fault);
      if et.Err? {
        return Err(et.cause);
      }
      if q.username == "" {
        return Err(UsernameRequired);
      }
      var userId := db.CompleteEnrollment(q);
      if userId.Err? {
        return Err(userId.cause);
      }
      return Ok(EnrollmentResult(userId.value, q.device, et.value.tenantId));
    }
  }
}
