# mini-vault: the table-backed state machine

mini-vault is a small file vault behind an HTTP API.

- A user signs in with a six-letter one-time code bound to a device and gets a bearer session token.
- With that token the user uploads files, which are encrypted at rest, and lists, downloads, shares and deletes them.
- The upload handler refuses an unpaid user whose storage counter would pass 5 GiB; an upgrade lifts the ceiling.

This project models the part of the vault that decides what the database holds:

- the five tables (users, auth codes, sessions, files, shared files) and the content store holding the encrypted blobs;
- the crud layer that reads and updates them;
- the checks the request handlers make around those updates.

## Layout

- `errors.dfy` (`Errors`): the closed set of application errors, plus `Option`, `Result` and `Outcome`.
- `models.dfy` (`Models`): one datatype per table row, the column defaults, and the unique columns as predicates.
- `tables.dfy` (`Tables`): a table is a sequence of rows in insertion order, and `.first()` is the first match in that order, an order the source leaves to the database (see "## Left out"). A bulk delete is `Filter`.
- `crud.dfy` (`Crud`):
  - the crud layer's lookups and table updates as functions over the tables;
  - the database invariant `Consistent`: keys unique, user references resolve, and every file record has its blob at a location of its own;
  - one lemma per update showing it keeps the invariant.
- `db.dfy` (`Db`): the class `Vault`. Its fields are the tables and the content store, and the crud updates are its methods. The two listing loops are methods proved against the listing functions.
- `api.dfy` (`Api`): the request handlers as methods over a `Vault`, plus the quota gate and the free-tier arithmetic.
- `scenarios.dfy` (`Scenarios`): request sequences from the repository's test script:
  - sign in, upload, list, download, delete, then download again;
  - the follow-up requests whose outcome an earlier request decides: a second verify, a query after logout, an upload after an upgrade.

Modelling choices:

- The clock is an integer `now` in seconds. A code lives 600 s and a session 3600 s. A row is live while `expiresAt > now`.
- Random values are method inputs, with freshness preconditions where the source relies on uniqueness:
  - the six code letters, as indices into the ASCII letters;
  - the session token;
  - the uuid4 row ids.
- These are fields of a `Config` value:
  - the Fernet cipher;
  - the SHA-256 digest;
  - the UUID syntax check;
  - the storage directory.

  The round trip `decrypt(encrypt(x)) == x` is the ghost predicate `Api.DecryptUndoesEncrypt`. It is required only where a download is claimed to return the uploaded bytes.
- The stored size of a blob is its length in the content store.
- Each handler is one atomic step.
- Deleting a file refunds the length of the stored ciphertext, not the plaintext length charged at upload (app/crud.py:161-163 against app/api.py:79), floored at 0. An upload followed by a delete therefore does not in general restore the counter; `Api.ChargeThenRefund` states when it does.
- Sharing a file one does not own raises `FilePermissionError` (app/api.py:135-136).
- Verification matches on code letters and device only, not on the email (app/crud.py:40-48). A live code row with the same letters and device, issued to another email, can be the row the query finds, and the session then belongs to that row's user. `Scenarios.SignIn` states the email's user only when no older live row matches.

## Model

| member | source | states |
|---|---|---|
| Models.NewUser | app/models.py:6-12 | a user inserted with only an email is unpaid and has a storage counter of 0 |
| Models.NewShare | app/models.py:44-50 | a share row inserted with file and grantee has permission "read" |
| Models.UsersKeyed | app/models.py:8-9 | no two user rows share an id or an email |
| Models.CodesKeyed | app/models.py:17 | no two code rows share an id |
| Models.SessionsKeyed | app/models.py:27-29 | no two session rows share an id or a token |
| Models.FilesKeyed | app/models.py:36 | no two file rows share an id |
| Models.SharesKeyed | app/models.py:46 | no two share rows share an id |
| Tables.Filter | app/crud.py:69-74 | a bulk delete keeps exactly the rows the condition spares, and never grows the table |
| Tables.FilterAppend | app/crud.py:69-74 | a bulk delete over a table with one more row at the end keeps the old table's survivors, then that row if it survives |
| Tables.FilterKeepsOrder | app/crud.py:69-74 | a bulk delete keeps the table order: the i-th and j-th remaining rows come from positions a < b |
| Crud.GetUser | app/crud.py:11-15 | the result is a row with that email, and it is None exactly when no row has the email |
| Crud.UserIndex | app/crud.py:170 | the position found by the lookup by id holds a row with that id |
| Crud.UserIndexMisses | app/crud.py:170 | the lookup by id misses exactly when no row has the id |
| Crud.UserIndexIsFirst | app/crud.py:170 | the lookup by id finds the first row with the id |
| Crud.MemberIsUser | app/crud.py:162 | every user row is found by its own id |
| Crud.UserById | app/api.py:77 | the row the lookup by id returns has that id, and the lookup misses exactly when no row has it |
| Crud.GetUserFindsTheRow | app/models.py:9 | with emails unique, the lookup by email returns the one row with that email |
| Crud.UserByIdFindsTheRow | app/models.py:8 | with ids unique, the lookup by id returns the one row with that id |
| Crud.WithStorage | app/crud.py:97 | writing a storage counter keeps every row's id and email in place |
| Crud.WithPaid | app/crud.py:171 | marking a user paid keeps every row's id and email in place |
| Crud.SameKeysSameIndex | app/models.py:8 | the lookup by id depends on the id column alone |
| Crud.SameKeysKeepUsers | app/models.py:8-9 | rewriting other columns keeps ids and emails unique and keeps every user reference resolving |
| Crud.WithStorageReadBack | app/crud.py:97 | after the counter write, the written user reads back with the new counter and every other lookup is unchanged |
| Crud.WithStorageTwice | app/crud.py:163 | of two counter writes to the same user the later one wins |
| Crud.WithPaidReadBack | app/crud.py:171 | after the upgrade, the user reads back as paid and every other lookup is unchanged |
| Crud.ReleaseStorage | app/crud.py:163 | the counter after a delete is max(0, current - size): never above current, and either 0 or exactly current - size |
| Crud.FirstValidCode | app/crud.py:40-48 | the login query finds a code row that has this code and device and has not expired, and finds nothing exactly when no row matches |
| Crud.FirstValidCodeIsFirst | app/crud.py:40-48 | the row found is the first live match in table order |
| Crud.FirstValidCodeAppend | app/crud.py:29-36 | recording a new code never shadows an older live match: the query finds the new row only when no older row matches |
| Crud.RemoveCodes | app/crud.py:69-74 | every row of that code and device is deleted, whatever its expiry or user, and every other row stays |
| Crud.RemoveCodesKeepsKeys | app/models.py:17 | deleting code rows keeps the codes' primary key unique |
| Crud.CodeSingleUse | app/crud.py:68-74 | after the delete, no code row matches that code and device at any time |
| Crud.FindValidSession | app/crud.py:80-87 | the result is a session with that token that has not expired; InvalidSession exactly when there is none |
| Crud.SessionResolvesUniquely | app/models.py:29 | with tokens unique, a token resolves to its own row while that row is live, and to InvalidSession afterwards |
| Crud.RemoveSession | app/crud.py:153-155 | deleting a session removes exactly the rows with its primary key |
| Crud.RemoveSessionKeepsKeys | app/models.py:27-29 | deleting a session keeps the session id and the token unique |
| Crud.SessionGoneAfterRemove | app/crud.py:153-155 | once its row is deleted, a token resolves to InvalidSession at any later time |
| Crud.OwnedFile | app/crud.py:158 | the file found has the requested id and owner, and nothing is found exactly when no row matches both |
| Crud.FileLocationAsOwner | app/crud.py:101-108 | the result is the location and name of a file with this id and owner, and FileNotFound exactly when no such file exists, whether the id is unknown or the file is someone else's |
| Crud.IsOwner | app/crud.py:118-122 | true exactly when a file with this id belongs to this user |
| Crud.FileById | app/crud.py:141 | the shared listing's file lookup by id finds a row with the id, and misses exactly when none exists |
| Crud.RemoveFile | app/crud.py:165 | deleting a file removes exactly the rows with its id and keeps every other row |
| Crud.RemoveFileKeepsKeys | app/models.py:36 | deleting a file keeps file ids and blob locations distinct |
| Crud.FileGoneAfterRemove | app/crud.py:165 | once deleted, the file is found neither by its owner nor by id |
| Crud.RemoveNewFile | app/crud.py:165 | deleting a file that was just added gives back the files table as it was |
| Crud.NewFileFoundByOwner | app/crud.py:101-108 | a newly added file is found by its owner, with its location and name |
| Crud.WriteThenRemoveBlob | app/api.py:165-166 | writing a blob to an unused location and then removing it leaves the content store unchanged |
| Crud.OwnedListing | app/crud.py:124-135 | an entry is listed exactly when it is made from one of the owner's files (the one-entry-per-file count is OwnedListingPerFile) |
| Crud.OwnedListingPerFile | app/crud.py:124-135 | the owned listing has one entry per file of the owner, in table order: the i-th entry is made from the i-th of the owner's file rows |
| Crud.OwnedListingIsolation | app/crud.py:125 | another user's file never appears in someone's owned listing |
| Crud.SharedListing | app/crud.py:137-151 | an entry is listed exactly when it is made from a share row of the grantee whose file still exists, with that file and the grant time; dangling shares are skipped (the count is SharedListingPerShare) |
| Crud.SharedListingPerShare | app/crud.py:137-151 | the shared listing has one entry per share row of the grantee whose file still exists, in table order: the i-th entry is made from the i-th such row and its file |
| Crud.LocationsDistinct | app/api.py:85-87 | no two file rows share a blob location |
| Crud.Consistent | app/models.py:8-48 | the database invariant: the keys above are unique; the user columns of codes (app/models.py:18), sessions, files (app/models.py:39) and shares (app/models.py:48) refer to existing users; codes have at most six characters (app/models.py:19); every file's blob is stored |
| Crud.AppendUserKeepsUsers | app/crud.py:20-23 | adding a user keeps every existing user reference resolving |
| Crud.AddUserKeepsConsistent | app/crud.py:20-23 | adding a user with an unused id and email keeps the database invariant |
| Crud.AddCodeKeepsConsistent | app/crud.py:29-36 | adding a code row with an unused id, at most six characters and a registered user keeps the invariant |
| Crud.LoginKeepsConsistent | app/crud.py:60-74 | adding the new session and bulk-deleting the codes keeps the invariant |
| Crud.LogoutKeepsConsistent | app/crud.py:153-155 | deleting a session keeps the invariant |
| Crud.AddFileKeepsConsistent | app/crud.py:89-99 | adding a file with an unused id and location, an existing owner and a stored blob, together with the counter write, keeps the invariant |
| Crud.RemoveFileKeepsConsistent | app/crud.py:157-167 | deleting a file row and writing the counter keeps the invariant, although share rows of the file stay |
| Crud.AddShareKeepsConsistent | app/crud.py:110-116 | adding a share to a registered user with an unused id keeps the invariant |
| Crud.UpgradeKeepsConsistent | app/crud.py:169-172 | marking a user paid keeps the invariant |
| Db.Vault.constructor | app/api.py:28 | a fresh database has empty tables, an empty content store, and satisfies the invariant |
| Db.Vault.CreateUserAndOtp | app/crud.py:17-37 | a user is created, with defaults, only when the email is absent, and otherwise the existing row is reused; either way exactly one code row is added, for that user, expiring at now + 600; nothing else changes |
| Db.Vault.VerifyCodeAndGenerateSession | app/crud.py:39-78 | with no live match: InvalidCode and nothing changes. Otherwise one session is added with the matched row's user and the device, expiring at now + 3600; every code row of that code and device is deleted; the token resolves and the code never matches again |
| Db.Vault.DeleteSession | app/crud.py:153-155 | exactly the session's row goes, and nothing else changes |
| Db.Vault.CreateFileEntry | app/crud.py:89-99 | one file row owned by the user is added, and the user's counter rises by exactly the size |
| Db.Vault.AddShareFile | app/crud.py:110-116 | UserNotFound and no change for an unregistered email; otherwise one read share row for that user |
| Db.Vault.DeleteFileFromStorage | app/crud.py:157-167 | a non-owner or an unknown id gets FileNotFound and nothing changes; otherwise exactly that row goes, the counter becomes max(0, counter - stored blob length), the location is returned, and shares stay |
| Db.Vault.WriteBlob | app/api.py:91-92 | the blob is stored at its location, overwriting; the tables are unchanged |
| Db.Vault.RemoveBlob | app/api.py:165-166 | exactly that location leaves the content store |
| Db.Vault.UpgradeUserPlan | app/crud.py:169-172 | the user becomes paid and nothing else changes |
| Db.Vault.ListOwnedFiles | app/crud.py:124-135 | the loop returns exactly the owned listing |
| Db.Vault.ListSharedFiles | app/crud.py:137-151 | the loop returns exactly the shared listing |
| Api.GenerateOtpLetters | app/api.py:33-34 | the code has six characters, each an ASCII letter |
| Api.JoinPath | app/api.py:87 | `os.path.join`: an absolute name alone, otherwise the name under the root with one separator (stated by JoinPathShape) |
| Api.JoinPathShape | app/api.py:87 | the joined path ends with the name, and a relative name is placed under the root |
| Api.BlobLocation | app/api.py:87 | the ciphertext's path is `<root>/<id>_<name>` |
| Api.DistinctIdsDistinctLocations | app/api.py:85-87 | two different ids of the same length not starting with `/`, as `uuid4` produces, give different blob locations whatever the names |
| Api.QuotaRejects | app/api.py:80-82 | the gate refuses exactly an unpaid user whose counter plus the upload's size passes 5 GiB (stated by PaidNeverRejected and CeilingIsInclusive) |
| Api.UserIdFromSession | app/api.py:42-48 | the user id comes from a live session with the token; InvalidSession exactly when there is none |
| Api.PaidNeverRejected | app/api.py:80-83 | a paid user is never refused by the quota gate |
| Api.CeilingIsInclusive | app/api.py:82 | reaching exactly 5 GiB is allowed, and one byte more is refused |
| Api.Admission | app/api.py:75-83 | InvalidSession exactly when the token does not resolve; StorageLimitExceeded exactly when the quota gate refuses the caller; otherwise the caller's row, which the gate accepts |
| Api.WithStorageWithinFreeTier | app/api.py:80-83 | an admitted charge, or any lowering of a counter, keeps every unpaid user's storage counter within 5 GiB |
| Api.ChargeThenRefund | app/crud.py:161-163 | an upload charge followed by the delete refund leaves the user at max(0, counter + plaintext length - blob length). The user gets back the starting counter exactly when the blob is as long as the plaintext, or when the counter started at 0 and the blob is no shorter; a longer blob leaves the counter lower, or at 0 |
| Api.WithPaidWithinFreeTier | app/crud.py:171 | an upgrade keeps every unpaid user within the free tier |
| Api.GetCode | app/api.py:55-60 | the returned code is six ASCII letters and is the one recorded for the email and device; the user rows change as in CreateUserAndOtp |
| Api.VerifyCode | app/api.py:62-67 | same outcome as VerifyCodeAndGenerateSession: the token on success, InvalidCode and no change otherwise |
| Api.StoreUpload | app/api.py:85-103 | the ciphertext is at `<root>/<id>_<name>`; the record carries the plaintext digest, which is also returned; the counter rises by the plaintext length; free-tier compliance is kept |
| Api.UploadFile | app/api.py:69-103 | a token that does not resolve, or a refusal by the quota gate, returns the error with nothing written; otherwise the blob, the record and the charge as in StoreUpload, and the receipt holds the id and the plaintext digest |
| Api.DownloadFile | app/api.py:106-125 | a bad id gives FileNotFound; then a token that does not resolve gives InvalidSession; then a file the caller does not own gives FileNotFound, even when it is shared with them; otherwise the decrypted blob and the file name |
| Api.ShareFile | app/api.py:127-138 | InvalidSession, then FilePermissionError for a non-owner, then UserNotFound, each with no share row; otherwise exactly one read share row for the grantee |
| Api.ListFiles | app/api.py:140-152 | the caller's owned and shared listings, or InvalidSession |
| Api.DeleteFile | app/api.py:154-169 | a bad id, a token that does not resolve, or a file the caller does not own fails with nothing changed. Otherwise the row goes, the refund is the blob length floored at 0, and the file is nobody's to find afterwards; the blob goes and the answer is Pass, or its removal fails, the blob stays and the answer is BlobRemovalFailed |
| Api.Logout | app/api.py:171-181 | InvalidSession with no change, or the session's row goes and the token resolves no more at any later time |
| Api.GetUserStorage | app/api.py:183-194 | the caller's counter and paid flag, or InvalidSession |
| Api.UpgradeUser | app/api.py:196-207 | InvalidSession with no change, or the caller reads back as paid |
| Scenarios.SignIn | tests/test.py:39-53 | requesting and then verifying a code signs in: six ASCII letters, the token, a live session; without an older live match it is the email's user's session |
| Scenarios.UploadListDownload | tests/test.py:55-89 | an admitted upload returns its receipt, shows up in the owned listing under its name, and downloads as the uploaded bytes |
| Scenarios.DeleteThenDownload | tests/test.py:91-101 | after a delete that removed the record, whether the blob removal then succeeded or failed, the same download is FileNotFound |
| Scenarios.OwnerDeletes | tests/test.py:91-95 | the owner's delete succeeds: the row and the blob go, and the counter is refunded the blob length |
| Scenarios.UploadThenDelete | tests/test.py:69-95 | an admitted upload followed by the owner's delete restores the files table and the content store |
| Scenarios.VerifyTwice | app/crud.py:68-74 | after a successful verify, the same code and device are InvalidCode at any later time |
| Scenarios.UpgradeThenUpload | app/api.py:196-207 | after a successful upgrade the caller's upload is accepted, whatever its size |
| Scenarios.LogoutThenQuery | app/api.py:171-194 | after a successful logout, the storage query with that token is InvalidSession at any later time |

## Left out

- HTTP transport is not modelled: routing, bearer extraction, the streaming response and its headers, CORS (app/main.py), the request schemas (app/schema.py), and the error-to-status table (app/error_handlers.py). Errors are the closed enumeration of app/exceptions.py, with two extra members:
  - `StorageLimitExceeded`, the quota refusal that the source raises as an HTTP 403;
  - `BlobRemovalFailed`, an `os.remove` that raises. The exception escapes the delete handler as a server error, after the record is deleted and committed (app/crud.py:166, app/api.py:165-166).
- Fernet encryption and SHA-256 are library calls. They are fields of `Config`, and decryption failure is not modelled.
- Api.StoreUpload: the ciphertext is `Config.cipher.encrypt` of the plaintext, a fixed function (`Api.Cipher`), whereas Fernet draws a fresh IV and timestamp on every call. `Api.StoreUpload` and `Api.UploadFile` therefore name one particular ciphertext where the source may store any of many; no other property depends on which one.
- UUID parsing in `check_valid_file_uuid` is the abstract predicate `Config.isUuid`.
- The filesystem is the content-store map:
  - `os.makedirs` is not modelled;
  - `os.path.getsize` is the blob's length;
  - a failed `os.remove` is the `blobRemoved` parameter of `Api.DeleteFile`, which then answers `BlobRemovalFailed`;
  - `os.path.join` is `Api.JoinPath`, for the one kind of name the handler builds.
- Api.UploadFile: writing the blob never fails in the model. In the source, `open(out_file_path, 'wb')` (app/api.py:91) raises, among other cases, for a file name containing `/`, since only the storage root is created (app/api.py:86). The handler then fails before any record is written, where the model answers `Ok`.
- Api.UploadFile: the location part of its freshness precondition is not discharged by `Api.DistinctIdsDistinctLocations`. The invariant `Crud.Consistent` does not record that each stored location is `Api.BlobLocation` of a 36-character id, nor the storage root, which is a `Config` value, not part of `Db.Vault`. A caller therefore states the fresh location itself, as it states the fresh id.
- Random values (`random.choices`, `secrets.token_urlsafe`, `uuid4`) are inputs. Their uniqueness is a precondition wherever the source relies on it.
- Concurrency and transaction semantics are not modelled, including the race between two uploads that both pass the quota gate.
- Datetimes are integer seconds and ISO formatting is not modelled: the listings carry the integer timestamps.
- The branch of `get_user_id_from_session` that returns rather than raises `UserNotFound` (app/api.py:46-47) is not modelled. It cannot be reached: every session's data carries a user id (app/crud.py:54-57), and that always-present id is written into `Models.SessionData`.
- The storage counter is not the number of plaintext bytes a user holds, and the model does not bound the latter. A delete refunds the stored ciphertext's length, always longer than the plaintext the upload charged (a Fernet token adds its header, IV, padding and MAC), so after a delete the counter is below what the user's remaining files were charged. Repeated upload and delete of a small file drives the counter to 0 (`Api.ChargeThenRefund`) while every other file stays (`Scenarios.UploadThenDelete`), after which the gate admits another 5 GiB. The 5 GiB property the model proves, `Api.WithStorageWithinFreeTier`, is about the counter.
- `current_storage or 0` (app/crud.py:97, app/api.py:81) is the identity: the counter defaults to 0 and is never null, so it is a `nat`.
- The Alembic migration is schema DDL and out of date; it is not part of this model.
- Db.Vault.ListSharedFiles: the owner id in each entry is read from the owner's user row, as in the source. The contract states it as the file's owner id, which is the same value under the invariant.
- Scenarios.UploadThenDelete: does not state the storage counter after the two requests. That is `Api.ChargeThenRefund`, applied to the counter writes that `Api.UploadFile` and `Scenarios.OwnerDeletes` state. It also needs the blob location absent from the content store, beyond the fresh file id the source's uuid4 provides.
- Crud.Consistent: `shared_files.file_id` (app/models.py:47) is the one declared foreign key the invariant leaves out: share rows may outlive their file. The source expects this: `list_shared_files` skips a share whose file is gone (app/crud.py:142). SQLite leaves foreign keys unenforced by default, which is the database the repository's tests use (tests/test.py:12). A database that enforced the key would refuse the delete at app/crud.py:166.
- Tables are sequences kept in insertion order, and the model's `.first()` is the first match in that order. The source's queries (app/crud.py:12, 40-48, 81-84, 125, 138) have no ORDER BY, so the database may return matching rows in any order. `Crud.FirstValidCodeIsFirst`, `Crud.FirstValidCodeAppend` and the order of the two listings describe that chosen order, not one the source fixes. With unique keys the order does not matter for the lookups by id, email or token.
