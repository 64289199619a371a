// Records shared by the sync engine and the mobile client (sync-engine/internal/models/*.go).
// Closed vocabularies that the source keeps as strings are enumerations with an escape case.
module Models {
  import opened Prelude
  import opened Lsn

  type Time = int

  // Go's zero time, which IsZero recognises.
  const ZERO_TIME: Time := 0

  datatype Status = Blank | PendingSync | Synced | Read | OtherStatus(text: string)

  datatype SyncStatus = Idle | Syncing | Failed

  datatype UserType = Web | Mobile | OtherType(text: string)

  datatype User = User(
    id: string, username: string, userType: UserType, deviceId: Option<string>, onlineStatus: bool,
    lastSeen: Option<Time>, enrolledAt: Option<Time>, enrollmentTokenId: Option<string>,
    lastMessageSent: Option<string>)

  datatype Message = Message(
    id: string, senderId: string, recipientId: string, content: string, status: Status,
    createdAt: Time, updatedAt: Time, syncedAt: Option<Time>, readAt: Option<Time>)

  datatype SyncMetadata = SyncMetadata(
    deviceId: string, lastSyncTimestamp: Option<Time>, lastSyncedLsn: Option<string>,
    pendingOutgoingCount: int, syncStatus: SyncStatus)

  datatype EnrollmentToken = EnrollmentToken(
    id: string, createdBy: string, tenantId: string, expiresAt: Time,
    usedAt: Option<Time>, deviceId: Option<string>)

  // An entry of a WAL change's column map: missing, or a value of some dynamic type.
  datatype Value = Absent | Text(text: string) | Instant(at: Time) | OtherValue

  // The columns the tracker reads.
  datatype Columns = Columns(
    id: Value, senderId: Value, recipientId: Value, content: Value, status: Value,
    createdAt: Value, updatedAt: Value, syncedAt: Value, readAt: Value)

  datatype Operation = INSERT | UPDATE | DELETE | OtherOperation(name: string)

  datatype WALChange = WALChange(
    lsn: LSN, table: string, operation: Operation, columns: Columns, oldColumns: Columns, commitTime: Time)

  // Same message as far as its author is concerned.
  predicate SameBody(a: Message, b: Message) {
    a.id == b.id && a.senderId == b.senderId && a.recipientId == b.recipientId && a.content == b.content
  }

  function StatusOf(text: string): Status {
    if text == "" then Blank
    else if text == "pending_sync" then PendingSync
    else if text == "synced" then Synced
    else if text == "read" then Read
    else OtherStatus(text)
  }

  function StatusText(status: Status): string {
    match status
    case Blank => ""
    case PendingSync => "pending_sync"
    case Synced => "synced"
    case Read => "read"
    case OtherStatus(text) => text
  }

  function TextOr(v: Value, default: string): string {
    if v.Text? then v.text else default
  }

  function InstantOr(v: Value, default: Time): Time {
    if v.Instant? then v.at else default
  }

  function InstantOrNone(v: Value): Option<Time> {
    if v.Instant? then Some(v.at) else None
  }
}
