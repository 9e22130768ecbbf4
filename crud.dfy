/** The crud layer of the vault, on values: the lookups as functions over the
    tables, the table updates the crud layer makes, and the database invariant
    with one lemma per update showing the update keeps it. */
module Crud {
  import opened Errors
  import opened Models
  import opened Tables

  /** A one-time code is valid for 10 minutes (the clock counts seconds). */
  const CodeTtl: int := 10 * 60
  /** A session is valid for 60 minutes from issue, never extended. */
  const SessionTtl: int := 60 * 60

  // ---- Users ----

  /** `get_user`: the user row with this email, if any. */
  function GetUser(users: seq<User>, email: string): (r: Option<User>)
    ensures r.Some? ==> r.value in users && r.value.email == email
    ensures r.None? <==> forall u | u in users :: u.email != email
  {
    if users == [] then None
    else if users[0].email == email then Some(users[0])
    else GetUser(users[1..], email)
  }

  /** The position of the row the query `User.id == id ... .first()` returns. */
  function UserIndex(users: seq<User>, id: string): (r: Option<nat>)
    ensures r.Some? ==> r.value < |users| && users[r.value].id == id
  {
    if users == [] then None
    else if users[0].id == id then Some(0)
    else
      assert users == [users[0]] + users[1..];
      match UserIndex(users[1..], id)
      case None => None
      case Some(k) => Some(k + 1)
  }

  /** The lookup by id misses exactly when no row has the id. */
  lemma {:induction false} UserIndexMisses(users: seq<User>, id: string)
    ensures UserIndex(users, id).None? <==> forall u | u in users :: u.id != id
  {
    if users != [] && users[0].id != id {
      UserIndexMisses(users[1..], id);
      assert users == [users[0]] + users[1..];
    }
  }

  /** The row found is the first with this id. */
  lemma {:induction false} UserIndexIsFirst(users: seq<User>, id: string, j: nat)
    requires UserIndex(users, id).Some? && j < UserIndex(users, id).value
    ensures users[j].id != id
  {
    if j > 0 {
      UserIndexIsFirst(users[1..], id, j - 1);
    }
  }

  /** Some user row has this id. */
  predicate HasUser(users: seq<User>, id: string) {
    UserIndex(users, id).Some?
  }

  /** Every row's id is a registered user. */
  lemma MemberIsUser(users: seq<User>, u: User)
    requires u in users
    ensures HasUser(users, u.id)
  {
    UserIndexMisses(users, u.id);
  }

  /** The query `User.id == id ... .first()`. */
  function UserById(users: seq<User>, id: string): (r: Option<User>)
    ensures r.Some? ==> r.value in users && r.value.id == id
    ensures r.None? <==> !HasUser(users, id)
  {
    match UserIndex(users, id)
    case None => None
    case Some(k) => Some(users[k])
  }

  /** With emails unique, `get_user` finds the one row holding the email. */
  lemma {:induction false} GetUserFindsTheRow(users: seq<User>, u: User)
    requires UsersKeyed(users)
    requires u in users
    ensures GetUser(users, u.email) == Some(u)
  {
    var r := GetUser(users, u.email);
    var i :| 0 <= i < |users| && users[i] == r.value;
    var j :| 0 <= j < |users| && users[j] == u;
    assert i == j;
  }

  /** With ids unique, the lookup by id finds the one row holding the id. */
  lemma {:induction false} UserByIdFindsTheRow(users: seq<User>, u: User)
    requires UsersKeyed(users)
    requires u in users
    ensures UserById(users, u.id) == Some(u)
  {
    MemberIsUser(users, u);
    var r := UserById(users, u.id);
    var i :| 0 <= i < |users| && users[i] == r.value;
    var j :| 0 <= j < |users| && users[j] == u;
    assert i == j;
  }

  /** The users table after `user.current_storage = value` on the row the
      lookup by `id` returns; with no such row nothing changes. */
  function WithStorage(users: seq<User>, id: string, value: nat): (r: seq<User>)
    ensures SameKeys(users, r)
  {
    match UserIndex(users, id)
    case None => users
    case Some(k) => users[k := users[k].(currentStorage := value)]
  }

  /** The users table after `user.is_paid = True` on the row the lookup by
      `id` returns; with no such row nothing changes. */
  function WithPaid(users: seq<User>, id: string): (r: seq<User>)
    ensures SameKeys(users, r)
  {
    match UserIndex(users, id)
    case None => users
    case Some(k) => users[k := users[k].(isPaid := true)]
  }

  /** Two users tables with the same ids and emails row by row. */
  ghost predicate SameKeys(a: seq<User>, b: seq<User>) {
    |a| == |b| && forall i | 0 <= i < |a| :: a[i].id == b[i].id && a[i].email == b[i].email
  }

  /** The lookup by id depends on the ids alone. */
  lemma {:induction false} SameKeysSameIndex(a: seq<User>, b: seq<User>, id: string)
    requires SameKeys(a, b)
    ensures UserIndex(a, id) == UserIndex(b, id)
  {
    if a != [] && a[0].id != id {
      SameKeysSameIndex(a[1..], b[1..], id);
    }
  }

  /** Rewriting columns other than id and email keeps both unique, and keeps
      every user reference resolving. */
  lemma SameKeysKeepUsers(a: seq<User>, b: seq<User>)
    requires SameKeys(a, b)
    ensures UsersKeyed(a) ==> UsersKeyed(b)
    ensures forall x | HasUser(a, x) :: HasUser(b, x)
  {
    forall x | HasUser(a, x) ensures HasUser(b, x) {
      SameKeysSameIndex(a, b, x);
    }
  }

  /** After the counter update, the lookup by `id` sees the new counter and
      every other lookup sees what it saw before. */
  lemma WithStorageReadBack(users: seq<User>, id: string, value: nat, other: string)
    ensures UserById(WithStorage(users, id, value), other) ==
      if other == id && UserById(users, id).Some?
      then Some(UserById(users, id).value.(currentStorage := value))
      else UserById(users, other)
  {
    SameKeysSameIndex(users, WithStorage(users, id, value), other);
  }

  /** Of two counter updates on the same user, the later one wins. */
  lemma WithStorageTwice(users: seq<User>, id: string, first: nat, second: nat)
    ensures WithStorage(WithStorage(users, id, first), id, second) == WithStorage(users, id, second)
  {
    SameKeysSameIndex(users, WithStorage(users, id, first), id);
  }

  /** After the upgrade, the lookup by `id` sees a paid user and every other
      lookup sees what it saw before. */
  lemma WithPaidReadBack(users: seq<User>, id: string, other: string)
    ensures UserById(WithPaid(users, id), other) ==
      if other == id && UserById(users, id).Some?
      then Some(UserById(users, id).value.(isPaid := true))
      else UserById(users, other)
  {
    SameKeysSameIndex(users, WithPaid(users, id), other);
  }

  /** `max(0, current - size)`: the storage counter after a delete. */
  function ReleaseStorage(current: nat, size: nat): (r: nat)
    ensures r <= current
    ensures r + size >= current
    ensures r == 0 || r + size == current
  {
    if current >= size then current - size else 0
  }

  // ---- One-time codes ----

  /** The filter of the login query: same code, same device, not yet expired. */
  predicate CodeMatches(c: AuthCode, code: string, deviceId: string, now: int) {
    c.code == code && c.deviceId == deviceId && c.expiresAt > now
  }

  /** The login query of `verify_code_and_generate_session`: the first code
      row, in table order, that matches and has not expired. */
  function FirstValidCode(codes: seq<AuthCode>, code: string, deviceId: string, now: int): (r: Option<AuthCode>)
    ensures r.Some? ==> r.value in codes && CodeMatches(r.value, code, deviceId, now)
    ensures r.None? <==> forall c | c in codes :: !CodeMatches(c, code, deviceId, now)
  {
    if codes == [] then None
    else if CodeMatches(codes[0], code, deviceId, now) then Some(codes[0])
    else FirstValidCode(codes[1..], code, deviceId, now)
  }

  /** The code found is the first match in table order: it sits at some
      position `i`, and no row before `i` matches. */
  lemma {:induction false} FirstValidCodeIsFirst(codes: seq<AuthCode>, code: string, deviceId: string, now: int)
      returns (i: nat)
    requires FirstValidCode(codes, code, deviceId, now).Some?
    ensures i < |codes| && codes[i] == FirstValidCode(codes, code, deviceId, now).value
    ensures forall j | 0 <= j < i :: !CodeMatches(codes[j], code, deviceId, now)
  {
    if CodeMatches(codes[0], code, deviceId, now) {
      i := 0;
    } else {
      var k := FirstValidCodeIsFirst(codes[1..], code, deviceId, now);
      i := k + 1;
      forall j | 0 <= j < i ensures !CodeMatches(codes[j], code, deviceId, now) {
        if j > 0 {
          assert codes[j] == codes[1..][j - 1];
        }
      }
    }
  }

  /** Recording a code never shadows an older live match: the login query
      still finds the older row, and finds the new one only when no older
      row matches. */
  lemma {:induction false} FirstValidCodeAppend(codes: seq<AuthCode>, row: AuthCode, code: string,
                                                deviceId: string, now: int)
    ensures FirstValidCode(codes + [row], code, deviceId, now) ==
      if FirstValidCode(codes, code, deviceId, now).Some? then FirstValidCode(codes, code, deviceId, now)
      else if CodeMatches(row, code, deviceId, now) then Some(row)
      else None
  {
    if codes == [] {
      assert codes + [row] == [row];
    } else {
      assert (codes + [row])[1..] == codes[1..] + [row];
      FirstValidCodeAppend(codes[1..], row, code, deviceId, now);
    }
  }

  /** The bulk delete `delete(AuthCode).where(code == .., device_id == ..)`:
      every row of that code and device goes, whatever its expiry or user. */
  function RemoveCodes(codes: seq<AuthCode>, code: string, deviceId: string): (r: seq<AuthCode>)
    ensures forall c | c in r :: c in codes && !(c.code == code && c.deviceId == deviceId)
    ensures forall c | c in codes && !(c.code == code && c.deviceId == deviceId) :: c in r
  {
    Filter(codes, (c: AuthCode) => !(c.code == code && c.deviceId == deviceId))
  }

  /** Deleting code rows keeps the primary key of the codes table. */
  lemma RemoveCodesKeepsKeys(codes: seq<AuthCode>, code: string, deviceId: string)
    requires CodesKeyed(codes)
    ensures CodesKeyed(RemoveCodes(codes, code, deviceId))
  {
    var r := RemoveCodes(codes, code, deviceId);
    forall i, j | 0 <= i < j < |r| ensures r[i].id != r[j].id {
      var a, b := FilterKeepsOrder(codes, (c: AuthCode) => !(c.code == code && c.deviceId == deviceId), i, j);
    }
  }

  /** A code is single-use: once its rows are deleted, the login query finds
      nothing for that code and device, at any time. */
  lemma CodeSingleUse(codes: seq<AuthCode>, code: string, deviceId: string, later: int)
    ensures FirstValidCode(RemoveCodes(codes, code, deviceId), code, deviceId, later).None?
  {
  }

  // ---- Sessions ----

  /** `check_and_get_session_details`: the session with this token that has not
      yet expired; otherwise `InvalidSession`. */
  function FindValidSession(sessions: seq<SessionToken>, sessionId: string, now: int): (r: Result<SessionToken>)
    ensures r.Ok? ==> r.value in sessions && r.value.sessionId == sessionId && r.value.expiresAt > now
    ensures r.Err? <==> forall s | s in sessions :: !(s.sessionId == sessionId && s.expiresAt > now)
    ensures r.Err? ==> r.error == InvalidSession
  {
    if sessions == [] then Err(InvalidSession)
    else if sessions[0].sessionId == sessionId && sessions[0].expiresAt > now then Ok(sessions[0])
    else FindValidSession(sessions[1..], sessionId, now)
  }

  /** With tokens unique, a token resolves to its one row for exactly as long
      as that row has not expired. */
  lemma {:induction false} SessionResolvesUniquely(sessions: seq<SessionToken>, s: SessionToken, now: int)
    requires SessionsKeyed(sessions)
    requires s in sessions
    ensures FindValidSession(sessions, s.sessionId, now) == if s.expiresAt > now then Ok(s) else Err(InvalidSession)
  {
    var r := FindValidSession(sessions, s.sessionId, now);
    if r.Ok? {
      var i :| 0 <= i < |sessions| && sessions[i] == r.value;
      var j :| 0 <= j < |sessions| && sessions[j] == s;
      assert i == j;
    }
  }

  /** `delete_session`: `db.delete(session)` removes the row with its primary key. */
  function RemoveSession(sessions: seq<SessionToken>, id: string): (r: seq<SessionToken>)
    ensures forall s | s in r :: s in sessions && s.id != id
    ensures forall s | s in sessions && s.id != id :: s in r
  {
    Filter(sessions, (s: SessionToken) => s.id != id)
  }

  /** Deleting a session row keeps both keys of the sessions table. */
  lemma RemoveSessionKeepsKeys(sessions: seq<SessionToken>, id: string)
    requires SessionsKeyed(sessions)
    ensures SessionsKeyed(RemoveSession(sessions, id))
  {
    var r := RemoveSession(sessions, id);
    forall i, j | 0 <= i < j < |r| ensures r[i].id != r[j].id && r[i].sessionId != r[j].sessionId {
      var a, b := FilterKeepsOrder(sessions, (s: SessionToken) => s.id != id, i, j);
    }
  }

  /** After its row is deleted, a token resolves no more, at any time. */
  lemma SessionGoneAfterRemove(sessions: seq<SessionToken>, s: SessionToken, later: int)
    requires SessionsKeyed(sessions)
    requires s in sessions
    ensures FindValidSession(RemoveSession(sessions, s.id), s.sessionId, later) == Err(InvalidSession)
  {
  }

  // ---- Files ----

  /** The query `File.id == file_id, File.owner_user_id == owner_id ... .first()`
      shared by `get_file_location_as_owner`, `is_owner` and
      `delete_file_from_storage`. */
  function OwnedFile(files: seq<FileRecord>, ownerId: string, fileId: string): (r: Option<FileRecord>)
    ensures r.Some? ==> r.value in files && r.value.id == fileId && r.value.ownerUserId == ownerId
    ensures r.None? <==> forall f | f in files :: !(f.id == fileId && f.ownerUserId == ownerId)
  {
    if files == [] then None
    else if files[0].id == fileId && files[0].ownerUserId == ownerId then Some(files[0])
    else OwnedFile(files[1..], ownerId, fileId)
  }

  /** `get_file_location_as_owner`: location and name of the requester's own
      file; `FileNotFound` for an unknown id and for someone else's file alike. */
  function FileLocationAsOwner(files: seq<FileRecord>, ownerId: string, fileId: string): (r: Result<(string, string)>)
    ensures r.Ok? <==> exists f :: f in files && f.id == fileId && f.ownerUserId == ownerId
    ensures r.Ok? ==> exists f :: (f in files && f.id == fileId && f.ownerUserId == ownerId &&
      r.value == (f.location, f.fileName))
    ensures r.Err? ==> r.error == FileNotFound
  {
    match OwnedFile(files, ownerId, fileId)
    case None => Err(FileNotFound)
    case Some(f) => Ok((f.location, f.fileName))
  }

  /** `is_owner`: true exactly when a file with this id belongs to this user. */
  function IsOwner(files: seq<FileRecord>, fileId: string, userId: string): (r: bool)
    ensures r <==> exists f :: f in files && f.id == fileId && f.ownerUserId == userId
  {
    OwnedFile(files, userId, fileId).Some?
  }

  /** The query `File.id == entry.file_id ... .first()` of `list_shared_files`. */
  function FileById(files: seq<FileRecord>, fileId: string): (r: Option<FileRecord>)
    ensures r.Some? ==> r.value in files && r.value.id == fileId
    ensures r.None? <==> forall f | f in files :: f.id != fileId
  {
    if files == [] then None
    else if files[0].id == fileId then Some(files[0])
    else FileById(files[1..], fileId)
  }

  /** `db.delete(file)`: the files table without the row of this primary key. */
  function RemoveFile(files: seq<FileRecord>, fileId: string): (r: seq<FileRecord>)
    ensures forall f | f in r :: f in files && f.id != fileId
    ensures forall f | f in files && f.id != fileId :: f in r
  {
    Filter(files, (f: FileRecord) => f.id != fileId)
  }

  /** Distinct file rows keep their ciphertexts at distinct locations. */
  ghost predicate LocationsDistinct(files: seq<FileRecord>) {
    forall i, j | 0 <= i < j < |files| :: files[i].location != files[j].location
  }

  /** Deleting a file row keeps the primary key and the distinct locations. */
  lemma RemoveFileKeepsKeys(files: seq<FileRecord>, fileId: string)
    requires FilesKeyed(files) && LocationsDistinct(files)
    ensures FilesKeyed(RemoveFile(files, fileId)) && LocationsDistinct(RemoveFile(files, fileId))
  {
    var r := RemoveFile(files, fileId);
    forall i, j | 0 <= i < j < |r| ensures r[i].id != r[j].id && r[i].location != r[j].location {
      var a, b := FilterKeepsOrder(files, (f: FileRecord) => f.id != fileId, i, j);
    }
  }

  /** Once its row is deleted, a file is nobody's to find. */
  lemma FileGoneAfterRemove(files: seq<FileRecord>, fileId: string, anyone: string)
    ensures OwnedFile(RemoveFile(files, fileId), anyone, fileId).None?
    ensures FileById(RemoveFile(files, fileId), fileId).None?
  {
  }

  /** Deleting a file just added gives back the table as it was. */
  lemma {:induction false} RemoveNewFile(files: seq<FileRecord>, f: FileRecord)
    requires forall g | g in files :: g.id != f.id
    ensures RemoveFile(files + [f], f.id) == files
  {
    if files == [] {
      assert files + [f] == [f];
    } else {
      assert (files + [f])[1..] == files[1..] + [f];
      RemoveNewFile(files[1..], f);
    }
  }

  /** A freshly added file is found by its owner, with its location and name. */
  lemma {:induction false} NewFileFoundByOwner(files: seq<FileRecord>, f: FileRecord)
    requires forall g | g in files :: g.id != f.id
    ensures OwnedFile(files + [f], f.ownerUserId, f.id) == Some(f)
    ensures FileLocationAsOwner(files + [f], f.ownerUserId, f.id) == Ok((f.location, f.fileName))
  {
    if files == [] {
      assert files + [f] == [f];
    } else {
      assert (files + [f])[1..] == files[1..] + [f];
      NewFileFoundByOwner(files[1..], f);
    }
  }

  /** Writing a blob at a location not in use and then removing it leaves
      the content store as it was. */
  lemma WriteThenRemoveBlob(blobs: map<string, Bytes>, location: string, data: Bytes)
    requires location !in blobs
    ensures blobs[location := data] - {location} == blobs
  {
    var after := blobs[location := data] - {location};
    assert forall k :: k in after <==> k in blobs;
  }

  // ---- Listings ----

  datatype OwnedEntry = OwnedEntry(id: string, createdAt: int, fileName: string)

  datatype SharedEntry = SharedEntry(
    id: string,
    createdAt: int,
    fileName: string,
    ownerUserId: string,
    sharedAt: int)

  function OwnedEntryOf(f: FileRecord): OwnedEntry {
    OwnedEntry(f.id, f.createdAt, f.fileName)
  }

  function SharedEntryOf(f: FileRecord, sh: SharedFile): SharedEntry {
    SharedEntry(f.id, f.createdAt, f.fileName, f.ownerUserId, sh.sharedAt)
  }

  /** What `list_owned_files` returns: one entry per file of the owner, in
      table order, and nothing else. */
  ghost function OwnedListing(files: seq<FileRecord>, ownerId: string): (r: seq<OwnedEntry>)
    ensures |r| <= |files|
    ensures forall e | e in r :: exists f :: f in files && f.ownerUserId == ownerId && e == OwnedEntryOf(f)
    ensures forall f | f in files && f.ownerUserId == ownerId :: OwnedEntryOf(f) in r
  {
    if files == [] then []
    else
      var init, last := files[..|files| - 1], files[|files| - 1];
      assert files == init + [last];
      OwnedListing(init, ownerId) + (if last.ownerUserId == ownerId then [OwnedEntryOf(last)] else [])
  }

  /** The owned listing holds one entry per file of the owner, in table
      order: its i-th entry is made from the i-th of the owner's files. */
  lemma {:induction false} OwnedListingPerFile(files: seq<FileRecord>, ownerId: string)
    ensures var mine := Filter(files, (f: FileRecord) => f.ownerUserId == ownerId);
      && |OwnedListing(files, ownerId)| == |mine|
      && forall i | 0 <= i < |mine| :: OwnedListing(files, ownerId)[i] == OwnedEntryOf(mine[i])
  {
    if files != [] {
      var init, last := files[..|files| - 1], files[|files| - 1];
      assert files == init + [last];
      OwnedListingPerFile(init, ownerId);
      FilterAppend(init, last, (f: FileRecord) => f.ownerUserId == ownerId);
    }
  }

  /** Ownership isolation of the listing: another user's file never shows up
      among one's own files. */
  lemma {:induction false} OwnedListingIsolation(files: seq<FileRecord>, ownerId: string, f: FileRecord)
    requires FilesKeyed(files)
    requires f in files && f.ownerUserId != ownerId
    ensures forall e | e in OwnedListing(files, ownerId) :: e.id != f.id
  {
    forall e | e in OwnedListing(files, ownerId) ensures e.id != f.id {
      var g :| g in files && g.ownerUserId == ownerId && e == OwnedEntryOf(g);
      var i :| 0 <= i < |files| && files[i] == f;
      var j :| 0 <= j < |files| && files[j] == g;
      assert i != j;
    }
  }

  /** What `list_shared_files` returns: one entry per share row of the grantee,
      in table order, whose file still exists; shares of deleted files are
      skipped. */
  ghost function SharedListing(shares: seq<SharedFile>, files: seq<FileRecord>, userId: string): (r: seq<SharedEntry>)
    ensures |r| <= |shares|
    ensures forall e | e in r :: exists sh :: (sh in shares && sh.sharedUserId == userId &&
      FileById(files, sh.fileId).Some? && e == SharedEntryOf(FileById(files, sh.fileId).value, sh))
    ensures forall sh | sh in shares && sh.sharedUserId == userId && FileById(files, sh.fileId).Some? ::
      SharedEntryOf(FileById(files, sh.fileId).value, sh) in r
  {
    if shares == [] then []
    else
      var init, last := shares[..|shares| - 1], shares[|shares| - 1];
      assert shares == init + [last];
      var file := FileById(files, last.fileId);
      SharedListing(init, files, userId) +
        (if last.sharedUserId == userId && file.Some? then [SharedEntryOf(file.value, last)] else [])
  }

  /** The shared listing holds one entry per share row of the grantee whose
      file still exists, in table order: its i-th entry is made from the i-th
      such share row and its file. */
  lemma {:induction false} SharedListingPerShare(shares: seq<SharedFile>, files: seq<FileRecord>, userId: string)
    ensures var mine := Filter(shares, (sh: SharedFile) => sh.sharedUserId == userId && FileById(files, sh.fileId).Some?);
      && |SharedListing(shares, files, userId)| == |mine|
      && forall i | 0 <= i < |mine| ::
           && mine[i].sharedUserId == userId && FileById(files, mine[i].fileId).Some?
           && SharedListing(shares, files, userId)[i] == SharedEntryOf(FileById(files, mine[i].fileId).value, mine[i])
  {
    if shares != [] {
      var init, last := shares[..|shares| - 1], shares[|shares| - 1];
      assert shares == init + [last];
      var keep := (sh: SharedFile) => sh.sharedUserId == userId && FileById(files, sh.fileId).Some?;
      SharedListingPerShare(init, files, userId);
      FilterAppend(init, last, keep);
      var before, mine := Filter(init, keep), Filter(shares, keep);
      var listed := SharedListing(shares, files, userId);
      assert listed[..|before|] == SharedListing(init, files, userId);
      forall i | 0 <= i < |mine|
        ensures && mine[i].sharedUserId == userId && FileById(files, mine[i].fileId).Some?
                && listed[i] == SharedEntryOf(FileById(files, mine[i].fileId).value, mine[i])
      {
        assert mine[i] in mine;
        if i < |before| {
          assert mine[i] == before[i];
          assert listed[i] == listed[..|before|][i];
        }
      }
    }
  }

  // ---- The database invariant ----

  /** Primary keys and unique columns hold, foreign keys to users resolve,
      and every file record has its ciphertext at a location of its own. */
  ghost predicate Consistent(users: seq<User>, codes: seq<AuthCode>, sessions: seq<SessionToken>,
                             files: seq<FileRecord>, shares: seq<SharedFile>, blobs: map<string, Bytes>)
  {
    && UsersKeyed(users)
    && CodesKeyed(codes)
    && (forall c | c in codes :: |c.code| <= OtpLength && HasUser(users, c.userId))
    && SessionsKeyed(sessions)
    && (forall s | s in sessions :: HasUser(users, s.data.userId))
    && FilesKeyed(files) && LocationsDistinct(files)
    && (forall f | f in files :: HasUser(users, f.ownerUserId) && f.location in blobs)
    && SharesKeyed(shares)
    && (forall sh | sh in shares :: HasUser(users, sh.sharedUserId))
  }

  /** Adding a user row keeps every user reference resolving. */
  lemma AppendUserKeepsUsers(users: seq<User>, u: User)
    ensures forall x | HasUser(users, x) :: HasUser(users + [u], x)
  {
    forall x | HasUser(users, x) ensures HasUser(users + [u], x) {
      MemberIsUser(users + [u], UserById(users, x).value);
    }
  }

  /** Registering a user whose id and email are unused keeps the invariant. */
  lemma AddUserKeepsConsistent(users: seq<User>, codes: seq<AuthCode>, sessions: seq<SessionToken>,
                               files: seq<FileRecord>, shares: seq<SharedFile>, blobs: map<string, Bytes>,
                               u: User)
    requires Consistent(users, codes, sessions, files, shares, blobs)
    requires forall x | x in users :: x.id != u.id && x.email != u.email
    ensures Consistent(users + [u], codes, sessions, files, shares, blobs)
  {
    var t := users + [u];
    forall i, j | 0 <= i < j < |t| ensures t[i].id != t[j].id && t[i].email != t[j].email {
      if j == |users| {
        assert t[i] in users;
      }
    }
    AppendUserKeepsUsers(users, u);
  }

  /** Recording a code row with an unused id, a short code and a registered
      user keeps the invariant. */
  lemma AddCodeKeepsConsistent(users: seq<User>, codes: seq<AuthCode>, sessions: seq<SessionToken>,
                               files: seq<FileRecord>, shares: seq<SharedFile>, blobs: map<string, Bytes>,
                               row: AuthCode)
    requires Consistent(users, codes, sessions, files, shares, blobs)
    requires forall c | c in codes :: c.id != row.id
    requires |row.code| <= OtpLength && HasUser(users, row.userId)
    ensures Consistent(users, codes + [row], sessions, files, shares, blobs)
  {
    var t := codes + [row];
    forall i, j | 0 <= i < j < |t| ensures t[i].id != t[j].id {
      if j == |codes| {
        assert t[i] in codes;
      }
    }
  }

  /** A login keeps the invariant: the new session has fresh keys and refers
      to the code's user, and deleting code rows breaks no reference. */
  lemma LoginKeepsConsistent(users: seq<User>, codes: seq<AuthCode>, sessions: seq<SessionToken>,
                             files: seq<FileRecord>, shares: seq<SharedFile>, blobs: map<string, Bytes>,
                             c: AuthCode, session: SessionToken, code: string, deviceId: string)
    requires Consistent(users, codes, sessions, files, shares, blobs)
    requires c in codes && session.data.userId == c.userId
    requires forall s | s in sessions :: s.id != session.id && s.sessionId != session.sessionId
    ensures Consistent(users, RemoveCodes(codes, code, deviceId), sessions + [session], files, shares, blobs)
  {
    var t := sessions + [session];
    forall i, j | 0 <= i < j < |t| ensures t[i].id != t[j].id && t[i].sessionId != t[j].sessionId {
      if j == |sessions| {
        assert t[i] in sessions;
      }
    }
    RemoveCodesKeepsKeys(codes, code, deviceId);
  }

  /** Deleting a session row keeps the invariant. */
  lemma LogoutKeepsConsistent(users: seq<User>, codes: seq<AuthCode>, sessions: seq<SessionToken>,
                              files: seq<FileRecord>, shares: seq<SharedFile>, blobs: map<string, Bytes>,
                              id: string)
    requires Consistent(users, codes, sessions, files, shares, blobs)
    ensures Consistent(users, codes, RemoveSession(sessions, id), files, shares, blobs)
  {
    RemoveSessionKeepsKeys(sessions, id);
  }

  /** Recording a file keeps the invariant: its id and location are unused,
      its owner exists, its ciphertext is stored, and the counter update
      keeps the user keys. */
  lemma AddFileKeepsConsistent(users: seq<User>, codes: seq<AuthCode>, sessions: seq<SessionToken>,
                               files: seq<FileRecord>, shares: seq<SharedFile>, blobs: map<string, Bytes>,
                               f: FileRecord, value: nat)
    requires Consistent(users, codes, sessions, files, shares, blobs)
    requires HasUser(users, f.ownerUserId) && f.location in blobs
    requires forall g | g in files :: g.id != f.id && g.location != f.location
    ensures Consistent(WithStorage(users, f.ownerUserId, value), codes, sessions, files + [f], shares, blobs)
  {
    var t := files + [f];
    forall i, j | 0 <= i < j < |t| ensures t[i].id != t[j].id && t[i].location != t[j].location {
      if j == |files| {
        assert t[i] in files;
      }
    }
    SameKeysKeepUsers(users, WithStorage(users, f.ownerUserId, value));
  }

  /** Deleting a file row and rewriting a storage counter keeps the invariant;
      share rows of the file may stay behind. */
  lemma RemoveFileKeepsConsistent(users: seq<User>, codes: seq<AuthCode>, sessions: seq<SessionToken>,
                                  files: seq<FileRecord>, shares: seq<SharedFile>, blobs: map<string, Bytes>,
                                  fileId: string, userId: string, value: nat)
    requires Consistent(users, codes, sessions, files, shares, blobs)
    ensures Consistent(WithStorage(users, userId, value), codes, sessions, RemoveFile(files, fileId), shares, blobs)
  {
    RemoveFileKeepsKeys(files, fileId);
    SameKeysKeepUsers(users, WithStorage(users, userId, value));
  }

  /** Granting a registered user a share row with an unused id keeps the invariant. */
  lemma AddShareKeepsConsistent(users: seq<User>, codes: seq<AuthCode>, sessions: seq<SessionToken>,
                                files: seq<FileRecord>, shares: seq<SharedFile>, blobs: map<string, Bytes>,
                                sh: SharedFile)
    requires Consistent(users, codes, sessions, files, shares, blobs)
    requires forall x | x in shares :: x.id != sh.id
    requires HasUser(users, sh.sharedUserId)
    ensures Consistent(users, codes, sessions, files, shares + [sh], blobs)
  {
    var t := shares + [sh];
    forall i, j | 0 <= i < j < |t| ensures t[i].id != t[j].id {
      if j == |shares| {
        assert t[i] in shares;
      }
    }
  }

  /** Upgrading a user keeps the invariant. */
  lemma UpgradeKeepsConsistent(users: seq<User>, codes: seq<AuthCode>, sessions: seq<SessionToken>,
                               files: seq<FileRecord>, shares: seq<SharedFile>, blobs: map<string, Bytes>,
                               id: string)
    requires Consistent(users, codes, sessions, files, shares, blobs)
    ensures Consistent(WithPaid(users, id), codes, sessions, files, shares, blobs)
  {
    SameKeysKeepUsers(users, WithPaid(users, id));
  }
}
