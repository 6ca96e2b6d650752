/** The upload lifecycle states and the reason recorded for a deliberate
    cancellation of the request in flight. */
module UploadStates {

  /** The closed set of states. Only `Failed` carries a payload, and as a data
      class it is equal to another `Failed` exactly when the messages are
      equal; the other six are singletons. Datatype equality in Dafny is the
      same relation. */
  datatype UploadState =
    | Idle
    | Uploading
    | Paused
    | Aborted
    | Completed
    | Failed(message: string)
    | Offline

  /** Why the request in flight was cancelled on purpose: `NoReason` is
      `CancelReason.NONE`. */
  datatype CancelReason = NoReason | UserPaused | InternetLost
  {
    /** A transport failure after such a cancellation is expected. */
    predicate IsExpected() { UserPaused? || InternetLost? }
  }
}
