/** The in-place side of the crud layer: the class `Vault`, whose fields are
    the tables and the content store, with one method per update the crud
    layer makes. Each method keeps the database invariant `Consistent`. */
module Db {
  import opened Errors
  import opened Models
  import opened Crud

  /** The vault's database and content store. Each table is a sequence of rows
      in insertion order; `blobs` maps a storage location to the bytes stored
      there. */
  class Vault {
    var users: seq<User>
    var codes: seq<AuthCode>
    var sessions: seq<SessionToken>
    var files: seq<FileRecord>
    var shares: seq<SharedFile>
    var blobs: map<string, Bytes>

    /** The database invariant over the current tables. */
    ghost predicate Valid()
      reads this
    {
      Consistent(users, codes, sessions, files, shares, blobs)
    }

    /** A fresh database with empty tables and an empty content store. */
    constructor ()
      ensures Valid()
      ensures users == [] && codes == [] && sessions == [] && files == [] && shares == []
      ensures blobs == map[]
    {
      users, codes, sessions, files, shares := [], [], [], [], [];
      blobs := map[];
    }

    /** `create_user_and_otp`: reuse the user of this email or create it with
        default columns, then add one code row valid for `CodeTtl`. */
    method CreateUserAndOtp(email: string, deviceId: string, code: string,
                            newUserId: string, newCodeId: string, now: int)
      requires Valid()
      requires |code| <= OtpLength
      requires GetUser(users, email).None? ==> forall x | x in users :: x.id != newUserId
      requires forall c | c in codes :: c.id != newCodeId
      modifies this
      ensures Valid()
      ensures old(GetUser(users, email)).Some? ==> users == old(users)
      ensures old(GetUser(users, email)).None? ==> users == old(users) + [NewUser(newUserId, email, now)]
      ensures GetUser(users, email).Some?
      ensures codes == old(codes) +
        [AuthCode(newCodeId, GetUser(users, email).value.id, code, deviceId, now, now + CodeTtl)]
      ensures sessions == old(sessions) && files == old(files) && shares == old(shares) && blobs == old(blobs)
    {
      var user := GetUser(users, email);
      var u: User;
      if user.None? {
        u := NewUser(newUserId, email, now);
        AddUserKeepsConsistent(users, codes, sessions, files, shares, blobs, u);
        users := users + [u];
      } else {
        u := user.value;
      }
      assert u in users;
      GetUserFindsTheRow(users, u);
      MemberIsUser(users, u);
      var row := AuthCode(newCodeId, u.id, code, deviceId, now, now + CodeTtl);
      AddCodeKeepsConsistent(users, codes, sessions, files, shares, blobs, row);
      codes := codes + [row];
    }

    /** `verify_code_and_generate_session`: with a matching unexpired code, add
        a session for that code's user and device, valid for `SessionTtl`, and
        delete every code row of that code and device; otherwise `InvalidCode`
        and nothing changes. */
    method VerifyCodeAndGenerateSession(code: string, deviceId: string,
                                        token: string, newSessionId: string, now: int)
      returns (r: Result<string>)
      requires Valid()
      requires FirstValidCode(codes, code, deviceId, now).Some? ==>
        forall s | s in sessions :: s.id != newSessionId && s.sessionId != token
      modifies this
      ensures Valid()
      ensures users == old(users) && files == old(files) && shares == old(shares) && blobs == old(blobs)
      ensures match old(FirstValidCode(codes, code, deviceId, now))
        case None =>
          r == Err(InvalidCode) && codes == old(codes) && sessions == old(sessions)
        case Some(c) =>
          && r == Ok(token)
          && sessions == old(sessions) +
               [SessionToken(newSessionId, SessionData(c.userId, deviceId), token, now, now + SessionTtl)]
          && codes == RemoveCodes(old(codes), code, deviceId)
      ensures r.Ok? ==> FindValidSession(sessions, token, now).Ok?
      ensures r.Ok? ==> forall later :: FirstValidCode(codes, code, deviceId, later).None?
    {
      var loginCode := FirstValidCode(codes, code, deviceId, now);
      if loginCode.None? {
        return Err(InvalidCode);
      }
      var c := loginCode.value;
      var session := SessionToken(newSessionId, SessionData(c.userId, deviceId), token, now, now + SessionTtl);
      LoginKeepsConsistent(users, codes, sessions, files, shares, blobs, c, session, code, deviceId);
      sessions := sessions + [session];
      SessionResolvesUniquely(sessions, session, now);
      codes := RemoveCodes(codes, code, deviceId);
      forall later ensures FirstValidCode(codes, code, deviceId, later).None? {
        CodeSingleUse(old(codes), code, deviceId, later);
      }
      r := Ok(token);
    }

    /** `delete_session`: remove the session's row. */
    method DeleteSession(session: SessionToken)
      requires Valid()
      modifies this
      ensures Valid()
      ensures sessions == RemoveSession(old(sessions), session.id)
      ensures users == old(users) && codes == old(codes) && files == old(files)
      ensures shares == old(shares) && blobs == old(blobs)
    {
      LogoutKeepsConsistent(users, codes, sessions, files, shares, blobs, session.id);
      sessions := RemoveSession(sessions, session.id);
    }

    /** `create_file_entry`: add one file row owned by `user` and raise that
        user's storage counter by exactly `fileSize`. The ciphertext must
        already be at `location`. */
    method CreateFileEntry(location: string, fileName: string, fileId: string,
                           checksum: string, fileSize: nat, user: User, now: int)
      requires Valid()
      requires user in users
      requires forall g | g in files :: g.id != fileId && g.location != location
      requires location in blobs
      modifies this
      ensures Valid()
      ensures files == old(files) + [FileRecord(fileId, checksum, now, user.id, location, fileName)]
      ensures users == WithStorage(old(users), user.id, user.currentStorage + fileSize)
      ensures codes == old(codes) && sessions == old(sessions) && shares == old(shares) && blobs == old(blobs)
    {
      var f := FileRecord(fileId, checksum, now, user.id, location, fileName);
      MemberIsUser(users, user);
      AddFileKeepsConsistent(users, codes, sessions, files, shares, blobs, f, user.currentStorage + fileSize);
      users := WithStorage(users, user.id, user.currentStorage + fileSize);
      files := files + [f];
    }

    /** `add_share_file`: `UserNotFound` for an unregistered email; otherwise
        one share row to that user with read permission. */
    method AddShareFile(fileId: string, email: string, newShareId: string, now: int) returns (r: Outcome)
      requires Valid()
      requires forall x | x in shares :: x.id != newShareId
      modifies this
      ensures Valid()
      ensures users == old(users) && codes == old(codes) && sessions == old(sessions)
      ensures files == old(files) && blobs == old(blobs)
      ensures match old(GetUser(users, email))
        case None => r == Fail(UserNotFound) && shares == old(shares)
        case Some(u) => r == Pass && shares == old(shares) + [NewShare(newShareId, fileId, u.id, now)]
    {
      var user := GetUser(users, email);
      if user.None? {
        return Fail(UserNotFound);
      }
      var shared := NewShare(newShareId, fileId, user.value.id, now);
      MemberIsUser(users, user.value);
      AddShareKeepsConsistent(users, codes, sessions, files, shares, blobs, shared);
      shares := shares + [shared];
      r := Pass;
    }

    /** `delete_file_from_storage`: for the owner's own file, remove exactly
        that row, lower the owner's counter by the size of the stored blob,
        floored at 0, and return the location; share rows stay. Anyone else,
        or an unknown id, gets `FileNotFound` and nothing changes. */
    method DeleteFileFromStorage(fileId: string, userId: string) returns (r: Result<string>)
      requires Valid()
      modifies this
      ensures Valid()
      ensures codes == old(codes) && sessions == old(sessions) && shares == old(shares) && blobs == old(blobs)
      ensures match old(OwnedFile(files, userId, fileId))
        case None => r == Err(FileNotFound) && unchanged(this)
        case Some(f) =>
          && f.location in old(blobs)
          && old(UserById(users, userId)).Some?
          && r == Ok(f.location)
          && files == RemoveFile(old(files), fileId)
          && users == WithStorage(old(users), userId,
               ReleaseStorage(old(UserById(users, userId)).value.currentStorage, |old(blobs)[f.location]|))
    {
      var file := OwnedFile(files, userId, fileId);
      if file.None? {
        return Err(FileNotFound);
      }
      var f := file.value;
      var fileSize := |blobs[f.location]|;
      var user := UserById(users, userId);
      var newStorage := ReleaseStorage(user.value.currentStorage, fileSize);
      RemoveFileKeepsConsistent(users, codes, sessions, files, shares, blobs, fileId, userId, newStorage);
      users := WithStorage(users, userId, newStorage);
      files := RemoveFile(files, fileId);
      r := Ok(f.location);
    }

    /** Writing a ciphertext to the content store (`open(path, 'wb').write`);
        an existing blob at that location is overwritten. */
    method WriteBlob(location: string, data: Bytes)
      requires Valid()
      modifies this
      ensures Valid()
      ensures blobs == old(blobs)[location := data]
      ensures location !in old(blobs) ==> forall g | g in files :: g.location != location
      ensures users == old(users) && codes == old(codes) && sessions == old(sessions)
      ensures files == old(files) && shares == old(shares)
    {
      blobs := blobs[location := data];
    }

    /** Removing a blob no file record points to (`os.remove(path)`). */
    method RemoveBlob(location: string)
      requires Valid()
      requires forall g | g in files :: g.location != location
      modifies this
      ensures Valid()
      ensures blobs == old(blobs) - {location}
      ensures users == old(users) && codes == old(codes) && sessions == old(sessions)
      ensures files == old(files) && shares == old(shares)
    {
      blobs := blobs - {location};
    }

    /** `upgrade_user_plan`: the user becomes paid. */
    method UpgradeUserPlan(userId: string)
      requires Valid()
      requires HasUser(users, userId)
      modifies this
      ensures Valid()
      ensures users == WithPaid(old(users), userId)
      ensures UserById(users, userId).Some? && UserById(users, userId).value.isPaid
      ensures codes == old(codes) && sessions == old(sessions) && files == old(files)
      ensures shares == old(shares) && blobs == old(blobs)
    {
      UpgradeKeepsConsistent(users, codes, sessions, files, shares, blobs, userId);
      WithPaidReadBack(users, userId, userId);
      users := WithPaid(users, userId);
    }

    /** `list_owned_files`: the owner's files, one entry each. */
    method ListOwnedFiles(ownerId: string) returns (r: seq<OwnedEntry>)
      ensures r == OwnedListing(files, ownerId)
    {
      r := [];
      var i := 0;
      while i < |files|
        invariant 0 <= i <= |files|
        invariant r == OwnedListing(files[..i], ownerId)
      {
        var file := files[i];
        if file.ownerUserId == ownerId {
          r := r + [OwnedEntryOf(file)];
        }
        assert files[..i + 1][..i] == files[..i];
        i := i + 1;
      }
      assert files[..|files|] == files;
    }

    /** `list_shared_files`: for each share row of the grantee whose file still
        exists, that file with its owner and the grant time. */
    method ListSharedFiles(sharedUserId: string) returns (r: seq<SharedEntry>)
      requires Valid()
      ensures r == SharedListing(shares, files, sharedUserId)
    {
      r := [];
      var i := 0;
      while i < |shares|
        invariant 0 <= i <= |shares|
        invariant r == SharedListing(shares[..i], files, sharedUserId)
      {
        var entry := shares[i];
        if entry.sharedUserId == sharedUserId {
          var file := FileById(files, entry.fileId);
          if file.Some? {
            var owner := UserById(users, file.value.ownerUserId);
            r := r + [SharedEntry(file.value.id, file.value.createdAt, file.value.fileName,
                                  owner.value.id, entry.sharedAt)];
          }
        }
        assert shares[..i + 1][..i] == shares[..i];
        i := i + 1;
      }
      assert shares[..|shares|] == shares;
    }
  }
}
