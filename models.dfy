/** Row shapes of the five tables, their column defaults, and the key columns
    the schema declares unique. */
module Models {

  type Bytes = seq<bv8>

  /** The `code` column is `String(6)`; codes are six letters. */
  const OtpLength: nat := 6

  /** Default of the `permission` column of a share row. */
  const DefaultPermission: string := "read"

  datatype User = User(
    id: string,
    email: string,
    isPaid: bool,
    createdAt: int,
    currentStorage: nat)

  datatype AuthCode = AuthCode(
    id: string,
    userId: string,
    code: string,
    deviceId: string,
    createdAt: int,
    expiresAt: int)

  /** The JSON `data` column of a session: `{"user_id": ..., "device_id": ...}`.
      Both keys are always written, so `user_id` is always present. */
  datatype SessionData = SessionData(userId: string, deviceId: string)

  datatype SessionToken = SessionToken(
    id: string,
    data: SessionData,
    sessionId: string,
    createdAt: int,
    expiresAt: int)

  datatype FileRecord = FileRecord(
    id: string,
    checksum: string,
    createdAt: int,
    ownerUserId: string,
    location: string,
    fileName: string)

  datatype SharedFile = SharedFile(
    id: string,
    fileId: string,
    sharedUserId: string,
    sharedAt: int,
    permission: string)

  /** A user row as inserted with only its email given: the remaining columns
      take their defaults. */
  function NewUser(id: string, email: string, now: int): (u: User)
    ensures u.id == id && u.email == email && u.createdAt == now
    ensures !u.isPaid && u.currentStorage == 0
  {
    User(id, email, false, now, 0)
  }

  /** A share row as inserted with file and grantee given: read permission. */
  function NewShare(id: string, fileId: string, userId: string, now: int): (s: SharedFile)
    ensures s.id == id && s.fileId == fileId && s.sharedUserId == userId && s.sharedAt == now
    ensures s.permission == DefaultPermission
  {
    SharedFile(id, fileId, userId, now, DefaultPermission)
  }

  // Primary keys and unique columns: no two rows of a table agree on them.

  /** `users.id` is the primary key and `users.email` is unique. */
  ghost predicate UsersKeyed(users: seq<User>) {
    forall i, j | 0 <= i < j < |users| :: users[i].id != users[j].id && users[i].email != users[j].email
  }

  /** `auth_codes.id` is the primary key. */
  ghost predicate CodesKeyed(codes: seq<AuthCode>) {
    forall i, j | 0 <= i < j < |codes| :: codes[i].id != codes[j].id
  }

  /** `sessions.id` is the primary key and `sessions.session_id` is unique. */
  ghost predicate SessionsKeyed(sessions: seq<SessionToken>) {
    forall i, j | 0 <= i < j < |sessions| ::
      sessions[i].id != sessions[j].id && sessions[i].sessionId != sessions[j].sessionId
  }

  /** `files.id` is the primary key. */
  ghost predicate FilesKeyed(files: seq<FileRecord>) {
    forall i, j | 0 <= i < j < |files| :: files[i].id != files[j].id
  }

  /** `shared_files.id` is the primary key. */
  ghost predicate SharesKeyed(shares: seq<SharedFile>) {
    forall i, j | 0 <= i < j < |shares| :: shares[i].id != shares[j].id
  }
}
