/** The failures the vault's handlers can report, as one closed enumeration,
    and the wrappers that carry a value or one of those failures. */
module Errors {

  /** The exception classes of app/exceptions.py, plus two failures the
      handlers do not raise as one of those: the quota rejection, a bare HTTP
      403 of the upload handler, and an `OSError` from `os.remove` that the
      delete handler lets escape, after the file's record is already deleted. */
  datatype Error =
    | UserNotFound
    | InvalidSession
    | InvalidCode
    | FilePermissionError
    | FileNotFound
    | StorageLimitExceeded
    | BlobRemovalFailed

  datatype Option<+T> = None | Some(value: T)

  /** A value, or the error a handler raised instead of returning it. */
  datatype Result<+T> = Ok(value: T) | Err(error: Error)

  /** The outcome of an operation that returns nothing but `{"status": "ok"}`. */
  datatype Outcome = Pass | Fail(error: Error)
}
