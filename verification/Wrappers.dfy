/** Failure-carrying results shared by every module. */
module Wrappers {
  datatype Option<+T> = None | Some(value: T)

  datatype Result<+R, +E> = Success(value: R) | Failure(error: E)

  /** What became of one durable file write (backend/internal/statefile): it can fail before the
      rename, or after it while syncing the directory. */
  datatype WriteOutcome = Written | WriteFailed(replaced: bool) {
    predicate Replaces() { Written? || replaced }
  }
}
