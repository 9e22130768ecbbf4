/** Client sessions against the handlers, in the order the repository's test
    script drives them: sign in, then upload, list, download and delete; and
    the follow-up requests whose outcome a previous request decides. */
module Scenarios {
  import opened Errors
  import opened Models
  import opened Crud
  import opened Db
  import opened Api

  /** Requesting a code and submitting it from the same device at once signs
      in: the code has six letters and the token comes back. The session
      belongs to the requesting email unless an older live code row of the
      same letters and device exists, since verification looks at letters
      and device only. */
  method SignIn(v: Vault, email: string, deviceId: string, draws: seq<nat>,
                newUserId: string, newCodeId: string, token: string, newSessionId: string, now: int)
    returns (code: string, r: Result<string>)
    requires v.Valid()
    requires |draws| == OtpLength
    requires forall i | 0 <= i < |draws| :: draws[i] < |AsciiLetters|
    requires GetUser(v.users, email).None? ==> forall x | x in v.users :: x.id != newUserId
    requires forall c | c in v.codes :: c.id != newCodeId
    requires forall s | s in v.sessions :: s.id != newSessionId && s.sessionId != token
    modifies v
    ensures v.Valid()
    ensures |code| == OtpLength && forall i | 0 <= i < |code| :: IsAsciiLetter(code[i])
    ensures r == Ok(token)
    ensures FindValidSession(v.sessions, token, now).Ok?
    ensures old(FirstValidCode(v.codes, code, deviceId, now)).None? ==>
      GetUser(v.users, email).Some? &&
      UserIdFromSession(v.sessions, token, now) == Ok(GetUser(v.users, email).value.id)
  {
    ghost var codes0 := v.codes;
    code := GetCode(v, email, deviceId, draws, newUserId, newCodeId, now);
    ghost var row := AuthCode(newCodeId, GetUser(v.users, email).value.id, code, deviceId, now, now + CodeTtl);
    FirstValidCodeAppend(codes0, row, code, deviceId, now);
    r := VerifyCode(v, code, deviceId, token, newSessionId, now);
    if FirstValidCode(codes0, code, deviceId, now).None? {
      var s := SessionToken(newSessionId, SessionData(row.userId, deviceId), token, now, now + SessionTtl);
      assert s in v.sessions;
      SessionResolvesUniquely(v.sessions, s, now);
    }
  }

  /** An upload the checks admit is listed among the uploader's own files and
      downloads as the bytes that were uploaded, under the uploaded name. */
  method UploadListDownload(v: Vault, cfg: Config, token: string, contents: Bytes,
                            fileName: string, fileId: string, now: int)
    returns (up: Result<UploadReceipt>, listed: Result<Listing>, down: Result<Download>)
    requires v.Valid()
    requires DecryptUndoesEncrypt(cfg.cipher) && cfg.isUuid(fileId)
    requires forall g | g in v.files :: g.id != fileId && g.location != BlobLocation(cfg, fileId, fileName)
    requires Admission(v.users, v.sessions, token, |contents|, now).Ok?
    modifies v
    ensures v.Valid()
    ensures up == Ok(UploadReceipt(fileId, cfg.sha256Hex(contents)))
    ensures listed.Ok? && exists e | e in listed.value.owned :: e.id == fileId && e.fileName == fileName
    ensures down == Ok(Download(contents, fileName))
  {
    ghost var user := Admission(v.users, v.sessions, token, |contents|, now).value;
    ghost var files0 := v.files;
    up := UploadFile(v, cfg, token, contents, fileName, fileId, now);
    ghost var f := FileRecord(fileId, cfg.sha256Hex(contents), now, user.id, BlobLocation(cfg, fileId, fileName), fileName);
    NewFileFoundByOwner(files0, f);
    listed := ListFiles(v, token, now);
    assert f in v.files && OwnedEntryOf(f) in listed.value.owned;
    down := DownloadFile(v, cfg, token, fileId, now);
  }

  /** Once the owner's delete has removed the record, whether it then
      succeeds or fails on the blob, the file no longer downloads: the same
      request is answered `FileNotFound`. */
  method DeleteThenDownload(v: Vault, cfg: Config, token: string, fileId: string,
                            blobRemoved: bool, now: int) returns (del: Outcome, down: Result<Download>)
    requires v.Valid()
    modifies v
    ensures v.Valid()
    ensures del == Pass || del == Fail(BlobRemovalFailed) ==> down == Err(FileNotFound)
  {
    del := DeleteFile(v, cfg, token, fileId, blobRemoved, now);
    down := DownloadFile(v, cfg, token, fileId, now);
  }

  /** The owner's delete of a file of theirs is accepted: the row goes, the
      blob goes, and the counter is refunded the stored blob's length. */
  method OwnerDeletes(v: Vault, cfg: Config, token: string, fileId: string, now: int)
    returns (del: Outcome)
    requires v.Valid()
    requires cfg.isUuid(fileId)
    requires UserIdFromSession(v.sessions, token, now).Ok?
    requires IsOwner(v.files, fileId, UserIdFromSession(v.sessions, token, now).value)
    modifies v
    ensures v.Valid()
    ensures del == Pass
    ensures var uid := old(UserIdFromSession(v.sessions, token, now)).value;
      var f := old(OwnedFile(v.files, uid, fileId)).value;
      && v.files == RemoveFile(old(v.files), fileId)
      && v.blobs == old(v.blobs) - {f.location}
      && v.users == WithStorage(old(v.users), uid,
           ReleaseStorage(old(UserById(v.users, uid)).value.currentStorage, |old(v.blobs)[f.location]|))
  {
    del := DeleteFile(v, cfg, token, fileId, true, now);
  }

  /** An admitted upload followed by the owner's delete leaves the files
      table and the content store as they were. (What happens to the counter
      is `ChargeThenRefund`.) */
  method UploadThenDelete(v: Vault, cfg: Config, token: string, contents: Bytes,
                          fileName: string, fileId: string, now: int)
    returns (up: Result<UploadReceipt>, del: Outcome)
    requires v.Valid()
    requires cfg.isUuid(fileId)
    requires forall g | g in v.files :: g.id != fileId
    requires BlobLocation(cfg, fileId, fileName) !in v.blobs
    requires Admission(v.users, v.sessions, token, |contents|, now).Ok?
    modifies v
    ensures v.Valid()
    ensures up.Ok? && del == Pass
    ensures v.files == old(v.files) && v.blobs == old(v.blobs)
  {
    ghost var user := Admission(v.users, v.sessions, token, |contents|, now).value;
    ghost var users0, files0, blobs0 := v.users, v.files, v.blobs;
    UserByIdFindsTheRow(users0, user);
    up := UploadFile(v, cfg, token, contents, fileName, fileId, now);
    ghost var location := BlobLocation(cfg, fileId, fileName);
    ghost var f := FileRecord(fileId, cfg.sha256Hex(contents), now, user.id, location, fileName);
    NewFileFoundByOwner(files0, f);
    del := OwnerDeletes(v, cfg, token, fileId, now);
    RemoveNewFile(files0, f);
    WriteThenRemoveBlob(blobs0, location, cfg.cipher.encrypt(contents));
  }

  /** A code signs in once: submitting it again, at any later time, is
      answered `InvalidCode`. */
  method VerifyTwice(v: Vault, code: string, deviceId: string, token: string, newSessionId: string,
                     token2: string, newSessionId2: string, now: int, later: int)
    returns (first: Result<string>, second: Result<string>)
    requires v.Valid()
    requires forall s | s in v.sessions :: s.id != newSessionId && s.sessionId != token
    requires forall s | s in v.sessions :: s.id != newSessionId2 && s.sessionId != token2
    requires newSessionId != newSessionId2 && token != token2
    modifies v
    ensures v.Valid()
    ensures first.Ok? ==> second == Err(InvalidCode)
  {
    first := VerifyCode(v, code, deviceId, token, newSessionId, now);
    second := VerifyCode(v, code, deviceId, token2, newSessionId2, later);
  }

  /** After an upgrade the quota gate never refuses the caller's upload. */
  method UpgradeThenUpload(v: Vault, cfg: Config, token: string, contents: Bytes,
                           fileName: string, fileId: string, now: int)
    returns (upgraded: Outcome, up: Result<UploadReceipt>)
    requires v.Valid()
    requires forall g | g in v.files :: g.id != fileId && g.location != BlobLocation(cfg, fileId, fileName)
    modifies v
    ensures v.Valid()
    ensures upgraded.Pass? ==> up == Ok(UploadReceipt(fileId, cfg.sha256Hex(contents)))
    ensures upgraded.Fail? ==> up == Err(InvalidSession)
  {
    upgraded := UpgradeUser(v, token, now);
    up := UploadFile(v, cfg, token, contents, fileName, fileId, now);
  }

  /** After a logout the token is refused by every handler that resolves it,
      at any later time; the storage query stands for them all. */
  method LogoutThenQuery(v: Vault, token: string, now: int, later: int)
    returns (out: Outcome, r: Result<StorageStatus>)
    requires v.Valid()
    modifies v
    ensures v.Valid()
    ensures out.Pass? ==> r == Err(InvalidSession)
  {
    out := Logout(v, token, now);
    r := GetUserStorage(v, token, later);
  }
}
