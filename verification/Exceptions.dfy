/** Exceptions as values: a method that throws in the collector returns a failure here. */
module Exceptions {

  datatype Option<+T> = None | Some(value: T)

  /** The exception kinds the publication protocol and the pipeline distinguish. */
  datatype Error =
    | IoFailure                 // DurableFileError and every std::error_code failure
    | ContractError             // a document the wire contract refuses
    | ForeignCollector          // a document that carries another collector id
    | EmptyBatch
    | CapacityExhausted
    | SealedCollision           // sealed copy differs under the same id
    | HandoffCollision          // visible copy differs under the same id
    | ManifestMismatch
    | OrphanedManifest
    | CheckpointInvalid
    | CheckpointRegression
    | AssemblerError
    | AccountingError
    | MissingDigest
    | NotRunning
    | ReaderError
    | ShutdownIncomplete
    | SequenceExhausted
    | ClockFailure
    | Divergence

  datatype Outcome = Pass | Fail(error: Error) {
    predicate IsFailure() {
      Fail?
    }

    function PropagateFailure<U>(): Result<U>
      requires Fail?
    {
      Failure(error)
    }
  }

  datatype Result<+T> = Success(value: T) | Failure(error: Error) {
    predicate IsFailure() {
      Failure?
    }

    function PropagateFailure<U>(): Result<U>
      requires Failure?
    {
      Failure(error)
    }

    function Extract(): T
      requires Success?
    {
      value
    }
  }
}
