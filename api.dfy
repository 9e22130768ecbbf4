/** The request handlers of the vault: each resolves the bearer token to a
    session, checks, then updates the tables and the content store through the
    crud layer, as one atomic step. Encryption, hashing and UUID parsing are
    supplied through `Config`; random values arrive as parameters. */
module Api {
  import opened Errors
  import opened Models
  import opened Crud
  import opened Db

  /** The free tier's ceiling: 5 GiB. */
  const FreeTierLimit: nat := 5 * 1024 * 1024 * 1024

  /** Python's `string.ascii_letters`: `a` to `z`, then `A` to `Z`. */
  const AsciiLetters: string :=
    seq(26, i requires 0 <= i < 26 => ('a' as int + i) as char) +
    seq(26, i requires 0 <= i < 26 => ('A' as int + i) as char)

  predicate IsAsciiLetter(ch: char) {
    'a' <= ch <= 'z' || 'A' <= ch <= 'Z'
  }

  /** The symmetric cipher keyed by the process-wide secret. */
  datatype Cipher = Cipher(encrypt: Bytes -> Bytes, decrypt: Bytes -> Bytes)

  /** The one property of the cipher the vault relies on. */
  ghost predicate DecryptUndoesEncrypt(c: Cipher) {
    forall x :: c.decrypt(c.encrypt(x)) == x
  }

  /** What the handlers take from their environment: the cipher, the hex
      SHA-256 digest, the UUID syntax check, and the storage directory. */
  datatype Config = Config(
    cipher: Cipher,
    sha256Hex: Bytes -> string,
    isUuid: string -> bool,
    storageRoot: string)

  datatype UploadReceipt = UploadReceipt(fileId: string, checksum: string)
  datatype Download = Download(contents: Bytes, fileName: string)
  datatype Listing = Listing(owned: seq<OwnedEntry>, shared: seq<SharedEntry>)
  datatype StorageStatus = StorageStatus(currentStorageBytes: nat, isPaid: bool)

  /** `generate_otp_letters`: six letters, one per random draw of an index
      into `AsciiLetters`. */
  function GenerateOtpLetters(draws: seq<nat>): (code: string)
    requires |draws| == OtpLength
    requires forall i | 0 <= i < |draws| :: draws[i] < |AsciiLetters|
    ensures |code| == OtpLength
    ensures forall i | 0 <= i < |code| :: IsAsciiLetter(code[i])
  {
    seq(|draws|, i requires 0 <= i < |draws| => AsciiLetters[draws[i]])
  }

  /** `os.path.join(root, name)`: the name alone when it is absolute, and
      otherwise the name under the root, with one separator between them. */
  function JoinPath(root: string, name: string): string {
    if |name| > 0 && name[0] == '/' then name else DirPrefix(root) + name
  }

  /** The joined path ends with the name, and a relative name is put under
      the root. */
  lemma JoinPathShape(root: string, name: string)
    ensures |name| <= |JoinPath(root, name)|
    ensures JoinPath(root, name)[|JoinPath(root, name)| - |name|..] == name
    ensures (|name| == 0 || name[0] != '/') ==> JoinPath(root, name) == DirPrefix(root) + name
  {
  }

  /** The root as `os.path.join` prefixes it to a relative name. */
  function DirPrefix(root: string): string {
    if root == [] || root[|root| - 1] == '/' then root else root + "/"
  }

  /** Where the upload handler writes a file's ciphertext: `<root>/<id>_<name>`. */
  function BlobLocation(cfg: Config, fileId: string, fileName: string): string {
    JoinPath(cfg.storageRoot, fileId + "_" + fileName)
  }

  /** Two different ids of the same length, neither starting with `/` (as
      `str(uuid4())` never does), give different blob locations, whatever the
      file names. */
  lemma {:induction false} DistinctIdsDistinctLocations(cfg: Config, id1: string, name1: string,
                                                        id2: string, name2: string)
    requires |id1| == |id2| > 0 && id1 != id2
    requires id1[0] != '/' && id2[0] != '/'
    ensures BlobLocation(cfg, id1, name1) != BlobLocation(cfg, id2, name2)
  {
    var dir := DirPrefix(cfg.storageRoot);
    var x1, x2 := id1 + "_" + name1, id2 + "_" + name2;
    JoinPathShape(cfg.storageRoot, x1);
    JoinPathShape(cfg.storageRoot, x2);
    assert BlobLocation(cfg, id1, name1) == dir + x1;
    assert BlobLocation(cfg, id2, name2) == dir + x2;
    var k := FirstDifference(id1, id2);
    assert (dir + x1)[|dir| + k] == id1[k];
    assert (dir + x2)[|dir| + k] == id2[k];
  }

  /** Two different strings of one length differ at some position. */
  lemma {:induction false} FirstDifference(a: string, b: string) returns (k: nat)
    requires |a| == |b| && a != b
    ensures k < |a| && a[k] != b[k]
  {
    if a[0] != b[0] {
      k := 0;
    } else {
      assert a == [a[0]] + a[1..] && b == [b[0]] + b[1..];
      var j := FirstDifference(a[1..], b[1..]);
      k := j + 1;
    }
  }

  /** `get_user_id_from_session`: the user id stored with a live session. */
  function UserIdFromSession(sessions: seq<SessionToken>, token: string, now: int): (r: Result<string>)
    ensures r.Ok? ==> exists s :: s in sessions && s.sessionId == token && s.expiresAt > now && s.data.userId == r.value
    ensures r.Err? <==> forall s | s in sessions :: !(s.sessionId == token && s.expiresAt > now)
    ensures r.Err? ==> r.error == InvalidSession
  {
    match FindValidSession(sessions, token, now)
    case Err(e) => Err(e)
    case Ok(s) => Ok(s.data.userId)
  }

  /** The upload quota gate: an unpaid user may not go past the ceiling. */
  predicate QuotaRejects(user: User, fileSize: nat) {
    !user.isPaid && user.currentStorage + fileSize > FreeTierLimit
  }

  /** Paid users are never rejected, whatever they hold. */
  lemma PaidNeverRejected(user: User, fileSize: nat)
    requires user.isPaid
    ensures !QuotaRejects(user, fileSize)
  {
  }

  /** Reaching the ceiling exactly is allowed; one byte more is not. */
  lemma CeilingIsInclusive(user: User, fileSize: nat)
    requires !user.isPaid && user.currentStorage + fileSize == FreeTierLimit
    ensures !QuotaRejects(user, fileSize)
    ensures QuotaRejects(user, fileSize + 1)
  {
  }

  /** The checks `uploadFile` makes before it writes anything: the live
      session's user, unless the free tier ceiling refuses the size. */
  function Admission(users: seq<User>, sessions: seq<SessionToken>, token: string,
                     size: nat, now: int): (r: Result<User>)
    requires forall s | s in sessions :: HasUser(users, s.data.userId)
    ensures r == Err(InvalidSession) <==> UserIdFromSession(sessions, token, now).Err?
    ensures r == Err(StorageLimitExceeded) <==>
      (UserIdFromSession(sessions, token, now).Ok? &&
       QuotaRejects(UserById(users, UserIdFromSession(sessions, token, now).value).value, size))
    ensures r.Ok? ==>
      && r.value in users && !QuotaRejects(r.value, size)
      && UserIdFromSession(sessions, token, now) == Ok(r.value.id)
  {
    match UserIdFromSession(sessions, token, now)
    case Err(e) => Err(e)
    case Ok(uid) =>
      var user := UserById(users, uid).value;
      if QuotaRejects(user, size) then Err(StorageLimitExceeded) else Ok(user)
  }

  /** Every unpaid user is within the free tier. */
  ghost predicate WithinFreeTier(users: seq<User>) {
    forall i | 0 <= i < |users| :: !users[i].isPaid ==> users[i].currentStorage <= FreeTierLimit
  }

  /** Setting one user's counter to a value the free tier admits, or to no
      more than it held, keeps every unpaid user within the free tier. */
  lemma {:induction false} WithStorageWithinFreeTier(users: seq<User>, u: User, value: nat)
    requires UsersKeyed(users)
    requires u in users
    requires !u.isPaid ==> value <= FreeTierLimit || value <= u.currentStorage
    ensures WithinFreeTier(users) ==> WithinFreeTier(WithStorage(users, u.id, value))
  {
    var r := WithStorage(users, u.id, value);
    forall i | 0 <= i < |r| && !r[i].isPaid && WithinFreeTier(users) ensures r[i].currentStorage <= FreeTierLimit {
      if users[i].id == u.id {
        UserByIdFindsTheRow(users, users[i]);
        UserByIdFindsTheRow(users, u);
      }
    }
  }

  /** An upload charges the plaintext's length and the delete of that file
      refunds the stored blob's length, floored at 0. The two writes leave the
      user at the refunded value. The user gets back the starting counter
      exactly when the blob is as long as the plaintext, or when the counter
      started at 0 and the blob is no shorter; a longer blob leaves it lower,
      or at 0. */
  lemma ChargeThenRefund(users: seq<User>, u: User, plainLength: nat, storedLength: nat)
    requires UsersKeyed(users) && u in users
    ensures var charged := u.currentStorage + plainLength;
      var after := WithStorage(WithStorage(users, u.id, charged), u.id, ReleaseStorage(charged, storedLength));
      && after == WithStorage(users, u.id, ReleaseStorage(charged, storedLength))
      && UserById(after, u.id) == Some(u.(currentStorage := ReleaseStorage(charged, storedLength)))
      && (UserById(after, u.id) == Some(u) <==>
            storedLength == plainLength || (u.currentStorage == 0 && storedLength >= plainLength))
      && (storedLength > plainLength ==>
            UserById(after, u.id).value.currentStorage < u.currentStorage ||
            UserById(after, u.id).value.currentStorage == 0)
  {
    var charged := u.currentStorage + plainLength;
    WithStorageTwice(users, u.id, charged, ReleaseStorage(charged, storedLength));
    UserByIdFindsTheRow(users, u);
    WithStorageReadBack(users, u.id, ReleaseStorage(charged, storedLength), u.id);
  }

  /** Upgrading a user never takes anyone out of the free tier. */
  lemma WithPaidWithinFreeTier(users: seq<User>, id: string)
    requires WithinFreeTier(users)
    ensures WithinFreeTier(WithPaid(users, id))
  {
  }

  /** `getCode`: draw a code and record it for the email and device. */
  method GetCode(v: Vault, email: string, deviceId: string, draws: seq<nat>,
                 newUserId: string, newCodeId: string, now: int) returns (code: string)
    requires v.Valid()
    requires |draws| == OtpLength
    requires forall i | 0 <= i < |draws| :: draws[i] < |AsciiLetters|
    requires GetUser(v.users, email).None? ==> forall x | x in v.users :: x.id != newUserId
    requires forall c | c in v.codes :: c.id != newCodeId
    modifies v
    ensures v.Valid()
    ensures old(WithinFreeTier(v.users)) ==> WithinFreeTier(v.users)
    ensures |code| == OtpLength && forall i | 0 <= i < |code| :: IsAsciiLetter(code[i])
    ensures old(GetUser(v.users, email)).Some? ==> v.users == old(v.users)
    ensures old(GetUser(v.users, email)).None? ==> v.users == old(v.users) + [NewUser(newUserId, email, now)]
    ensures GetUser(v.users, email).Some?
    ensures v.codes == old(v.codes) +
      [AuthCode(newCodeId, GetUser(v.users, email).value.id, code, deviceId, now, now + CodeTtl)]
    ensures v.sessions == old(v.sessions) && v.files == old(v.files)
    ensures v.shares == old(v.shares) && v.blobs == old(v.blobs)
  {
    code := GenerateOtpLetters(draws);
    v.CreateUserAndOtp(email, deviceId, code, newUserId, newCodeId, now);
  }

  /** `verifyCode`: exchange a code and its device for a session token. */
  method VerifyCode(v: Vault, code: string, deviceId: string, token: string,
                    newSessionId: string, now: int) returns (r: Result<string>)
    requires v.Valid()
    requires FirstValidCode(v.codes, code, deviceId, now).Some? ==>
      forall s | s in v.sessions :: s.id != newSessionId && s.sessionId != token
    modifies v
    ensures v.Valid()
    ensures old(WithinFreeTier(v.users)) ==> WithinFreeTier(v.users)
    ensures v.users == old(v.users) && v.files == old(v.files) && v.shares == old(v.shares)
    ensures v.blobs == old(v.blobs)
    ensures match old(FirstValidCode(v.codes, code, deviceId, now))
      case None =>
        r == Err(InvalidCode) && v.codes == old(v.codes) && v.sessions == old(v.sessions)
      case Some(c) =>
        && r == Ok(token)
        && v.sessions == old(v.sessions) +
             [SessionToken(newSessionId, SessionData(c.userId, deviceId), token, now, now + SessionTtl)]
        && v.codes == RemoveCodes(old(v.codes), code, deviceId)
    ensures r.Ok? ==> FindValidSession(v.sessions, token, now).Ok?
    ensures r.Ok? ==> forall later :: FirstValidCode(v.codes, code, deviceId, later).None?
  {
    r := v.VerifyCodeAndGenerateSession(code, deviceId, token, newSessionId, now);
  }

  /** The accepted half of `uploadFile`: write the encrypted blob at its
      location, record the file row and charge the plaintext size to the
      owner's counter. */
  method StoreUpload(v: Vault, cfg: Config, user: User, contents: Bytes,
                     fileName: string, fileId: string, now: int) returns (checksum: string)
    requires v.Valid()
    requires user in v.users
    requires !QuotaRejects(user, |contents|)
    requires forall g | g in v.files :: g.id != fileId && g.location != BlobLocation(cfg, fileId, fileName)
    modifies v
    ensures v.Valid()
    ensures checksum == cfg.sha256Hex(contents)
    ensures WithinFreeTier(old(v.users)) ==> WithinFreeTier(v.users)
    ensures v.codes == old(v.codes) && v.sessions == old(v.sessions) && v.shares == old(v.shares)
    ensures v.blobs == old(v.blobs)[BlobLocation(cfg, fileId, fileName) := cfg.cipher.encrypt(contents)]
    ensures v.files == old(v.files) + [FileRecord(fileId, checksum, now, user.id, BlobLocation(cfg, fileId, fileName), fileName)]
    ensures v.users == WithStorage(old(v.users), user.id, user.currentStorage + |contents|)
  {
    var location := BlobLocation(cfg, fileId, fileName);
    checksum := cfg.sha256Hex(contents);
    var encrypted := cfg.cipher.encrypt(contents);
    v.WriteBlob(location, encrypted);
    v.CreateFileEntry(location, fileName, fileId, checksum, |contents|, user, now);
    WithStorageWithinFreeTier(old(v.users), user, user.currentStorage + |contents|);
  }

  /** `uploadFile`: resolve the session; reject an unpaid user who would pass
      the ceiling before anything is written; otherwise store the ciphertext
      at a fresh location, record the file with the plaintext's digest, and
      charge the plaintext's length to the user. */
  method UploadFile(v: Vault, cfg: Config, token: string, contents: Bytes,
                    fileName: string, fileId: string, now: int) returns (r: Result<UploadReceipt>)
    requires v.Valid()
    requires forall g | g in v.files :: g.id != fileId && g.location != BlobLocation(cfg, fileId, fileName)
    modifies v
    ensures v.Valid()
    ensures old(WithinFreeTier(v.users)) ==> WithinFreeTier(v.users)
    ensures v.codes == old(v.codes) && v.sessions == old(v.sessions) && v.shares == old(v.shares)
    ensures match old(Admission(v.users, v.sessions, token, |contents|, now))
      case Err(e) =>
        r == Err(e) && v.users == old(v.users) && v.files == old(v.files) && v.blobs == old(v.blobs)
      case Ok(user) =>
        && r == Ok(UploadReceipt(fileId, cfg.sha256Hex(contents)))
        && v.blobs == old(v.blobs)[BlobLocation(cfg, fileId, fileName) := cfg.cipher.encrypt(contents)]
        && v.files == old(v.files) + [FileRecord(fileId, cfg.sha256Hex(contents), now, user.id, BlobLocation(cfg, fileId, fileName), fileName)]
        && v.users == WithStorage(old(v.users), user.id, user.currentStorage + |contents|)
  {
    var session := UserIdFromSession(v.sessions, token, now);
    if session.Err? {
      return Err(session.error);
    }
    var userId := session.value;
    var user := UserById(v.users, userId).value;
    var fileSize := |contents|;
    if QuotaRejects(user, fileSize) {
      return Err(StorageLimitExceeded);
    }
    assert Admission(v.users, v.sessions, token, fileSize, now) == Ok(user);
    var checksum := StoreUpload(v, cfg, user, contents, fileName, fileId, now);
    r := Ok(UploadReceipt(fileId, checksum));
  }

  /** `downloadFile`: check the id's syntax, resolve the session, require the
      caller to own the file, then read and decrypt its blob. A share grant
      does not authorize a download. */
  method DownloadFile(v: Vault, cfg: Config, token: string, fileId: string, now: int)
    returns (r: Result<Download>)
    requires v.Valid()
    ensures !cfg.isUuid(fileId) ==> r == Err(FileNotFound)
    ensures cfg.isUuid(fileId) && UserIdFromSession(v.sessions, token, now).Err? ==> r == Err(InvalidSession)
    ensures cfg.isUuid(fileId) && UserIdFromSession(v.sessions, token, now).Ok? ==>
      var owned := OwnedFile(v.files, UserIdFromSession(v.sessions, token, now).value, fileId);
      && (owned.None? ==> r == Err(FileNotFound))
      && (owned.Some? ==>
            && owned.value.location in v.blobs
            && r == Ok(Download(cfg.cipher.decrypt(v.blobs[owned.value.location]), owned.value.fileName)))
  {
    if !cfg.isUuid(fileId) {
      return Err(FileNotFound);
    }
    var session := FindValidSession(v.sessions, token, now);
    if session.Err? {
      return Err(session.error);
    }
    var userId := session.value.data.userId;
    var found := FileLocationAsOwner(v.files, userId, fileId);
    if found.Err? {
      return Err(found.error);
    }
    var (fileLocation, fileName) := found.value;
    var encryptedData := v.blobs[fileLocation];
    var decryptedData := cfg.cipher.decrypt(encryptedData);
    r := Ok(Download(decryptedData, fileName));
  }

  /** `share_file`: resolve the session; only the file's owner may share it
      (`FilePermissionError` otherwise); the grantee must be registered. */
  method ShareFile(v: Vault, token: string, fileId: string, email: string,
                   newShareId: string, now: int) returns (r: Outcome)
    requires v.Valid()
    requires forall x | x in v.shares :: x.id != newShareId
    modifies v
    ensures v.Valid()
    ensures v.users == old(v.users) && v.codes == old(v.codes) && v.sessions == old(v.sessions)
    ensures v.files == old(v.files) && v.blobs == old(v.blobs)
    ensures match UserIdFromSession(old(v.sessions), token, now)
      case Err(_) => r == Fail(InvalidSession) && v.shares == old(v.shares)
      case Ok(uid) =>
        if !IsOwner(old(v.files), fileId, uid) then
          r == Fail(FilePermissionError) && v.shares == old(v.shares)
        else
          match GetUser(old(v.users), email)
          case None => r == Fail(UserNotFound) && v.shares == old(v.shares)
          case Some(grantee) =>
            r == Pass && v.shares == old(v.shares) + [NewShare(newShareId, fileId, grantee.id, now)]
  {
    var session := UserIdFromSession(v.sessions, token, now);
    if session.Err? {
      return Fail(session.error);
    }
    var userId := session.value;
    if !IsOwner(v.files, fileId, userId) {
      return Fail(FilePermissionError);
    }
    r := v.AddShareFile(fileId, email, newShareId, now);
  }

  /** `listFiles`: the caller's own files and the files shared with them. */
  method ListFiles(v: Vault, token: string, now: int) returns (r: Result<Listing>)
    requires v.Valid()
    ensures match UserIdFromSession(v.sessions, token, now)
      case Err(_) => r == Err(InvalidSession)
      case Ok(uid) => r == Ok(Listing(OwnedListing(v.files, uid), SharedListing(v.shares, v.files, uid)))
  {
    var session := UserIdFromSession(v.sessions, token, now);
    if session.Err? {
      return Err(session.error);
    }
    var userId := session.value;
    var ownedFiles := v.ListOwnedFiles(userId);
    var sharedFiles := v.ListSharedFiles(userId);
    r := Ok(Listing(ownedFiles, sharedFiles));
  }

  /** `delete_file`: check the id's syntax, resolve the session, delete the
      caller's own file record, then remove its blob; a removal that fails
      (`blobRemoved` false) leaves the blob behind and fails the request with
      `BlobRemovalFailed`, though the record stays deleted. */
  method DeleteFile(v: Vault, cfg: Config, token: string, fileId: string,
                    blobRemoved: bool, now: int) returns (r: Outcome)
    requires v.Valid()
    modifies v
    ensures v.Valid()
    ensures old(WithinFreeTier(v.users)) ==> WithinFreeTier(v.users)
    ensures v.codes == old(v.codes) && v.sessions == old(v.sessions) && v.shares == old(v.shares)
    ensures !cfg.isUuid(fileId) ==> r == Fail(FileNotFound) && unchanged(v)
    ensures cfg.isUuid(fileId) ==>
      match old(FindValidSession(v.sessions, token, now))
      case Err(_) => r == Fail(InvalidSession) && unchanged(v)
      case Ok(s) =>
        match old(OwnedFile(v.files, s.data.userId, fileId))
        case None => r == Fail(FileNotFound) && unchanged(v)
        case Some(f) =>
          && f.location in old(v.blobs)
          && old(UserById(v.users, s.data.userId)).Some?
          && r == (if blobRemoved then Pass else Fail(BlobRemovalFailed))
          && v.files == RemoveFile(old(v.files), fileId)
          && v.users == WithStorage(old(v.users), s.data.userId,
               ReleaseStorage(old(UserById(v.users, s.data.userId)).value.currentStorage,
                              |old(v.blobs)[f.location]|))
          && v.blobs == if blobRemoved then old(v.blobs) - {f.location} else old(v.blobs)
    ensures r == Pass || r == Fail(BlobRemovalFailed) ==> forall anyone :: OwnedFile(v.files, anyone, fileId).None?
  {
    if !cfg.isUuid(fileId) {
      return Fail(FileNotFound);
    }
    var session := FindValidSession(v.sessions, token, now);
    if session.Err? {
      return Fail(session.error);
    }
    var userId := session.value.data.userId;
    ghost var files0, users0 := v.files, v.users;
    ghost var owned := OwnedFile(files0, userId, fileId);
    var deleted := v.DeleteFileFromStorage(fileId, userId);
    if deleted.Err? {
      return Fail(deleted.error);
    }
    ghost var f := owned.value;
    ghost var u := UserById(users0, userId).value;
    WithStorageWithinFreeTier(users0, u, ReleaseStorage(u.currentStorage, |v.blobs[f.location]|));
    var filePath := deleted.value;
    var onDisk := filePath in v.blobs;
    if onDisk && blobRemoved {
      v.RemoveBlob(filePath);
    }
    forall anyone ensures OwnedFile(v.files, anyone, fileId).None? {
      FileGoneAfterRemove(files0, fileId, anyone);
    }
    r := if onDisk && !blobRemoved then Fail(BlobRemovalFailed) else Pass;
  }

  /** `logout`: resolve the session and delete its row; the token then
      resolves no more. */
  method Logout(v: Vault, token: string, now: int) returns (r: Outcome)
    requires v.Valid()
    modifies v
    ensures v.Valid()
    ensures v.users == old(v.users) && v.codes == old(v.codes) && v.files == old(v.files)
    ensures v.shares == old(v.shares) && v.blobs == old(v.blobs)
    ensures match old(FindValidSession(v.sessions, token, now))
      case Err(_) => r == Fail(InvalidSession) && v.sessions == old(v.sessions)
      case Ok(s) => r == Pass && v.sessions == RemoveSession(old(v.sessions), s.id)
    ensures r.Pass? ==> forall later :: FindValidSession(v.sessions, token, later) == Err(InvalidSession)
  {
    var session := FindValidSession(v.sessions, token, now);
    if session.Err? {
      return Fail(session.error);
    }
    ghost var sessions0 := v.sessions;
    v.DeleteSession(session.value);
    forall later ensures FindValidSession(v.sessions, token, later) == Err(InvalidSession) {
      SessionGoneAfterRemove(sessions0, session.value, later);
    }
    r := Pass;
  }

  /** `get_user_storage`: the caller's storage counter and paid flag. */
  method GetUserStorage(v: Vault, token: string, now: int) returns (r: Result<StorageStatus>)
    requires v.Valid()
    ensures match UserIdFromSession(v.sessions, token, now)
      case Err(_) => r == Err(InvalidSession)
      case Ok(uid) =>
        && UserById(v.users, uid).Some?
        && r == Ok(StorageStatus(UserById(v.users, uid).value.currentStorage, UserById(v.users, uid).value.isPaid))
  {
    var session := UserIdFromSession(v.sessions, token, now);
    if session.Err? {
      return Err(session.error);
    }
    var userId := session.value;
    var user := UserById(v.users, userId).value;
    r := Ok(StorageStatus(user.currentStorage, user.isPaid));
  }

  /** `upgrade_user`: the caller's account becomes paid (no payment step). */
  method UpgradeUser(v: Vault, token: string, now: int) returns (r: Outcome)
    requires v.Valid()
    modifies v
    ensures v.Valid()
    ensures old(WithinFreeTier(v.users)) ==> WithinFreeTier(v.users)
    ensures v.codes == old(v.codes) && v.sessions == old(v.sessions) && v.files == old(v.files)
    ensures v.shares == old(v.shares) && v.blobs == old(v.blobs)
    ensures match old(UserIdFromSession(v.sessions, token, now))
      case Err(_) => r == Fail(InvalidSession) && v.users == old(v.users)
      case Ok(uid) =>
        && r == Pass
        && v.users == WithPaid(old(v.users), uid)
        && UserById(v.users, uid).Some? && UserById(v.users, uid).value.isPaid
  {
    var session := UserIdFromSession(v.sessions, token, now);
    if session.Err? {
      return Fail(session.error);
    }
    var userId := session.value;
    ghost var users0 := v.users;
    v.UpgradeUserPlan(userId);
    if WithinFreeTier(users0) {
      WithPaidWithinFreeTier(users0, userId);
    }
    r := Pass;
  }
}
