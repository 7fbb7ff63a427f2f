/** Option, Result and the error kinds the library returns. */
module Wrappers {

  datatype Option<+T> = None | Some(value: T)

  /** Why an index file or one of its reads was refused. */
  datatype Rejection =
    | InvalidMagic
    | UnsupportedFormatRevision(found: nat)
    | UnsupportedEndianMarker(found: nat)
    | IncompatibleParserRevision(found: nat)
    | IncompatibleNormalizationRevision(found: nat)
    | FileLengthMismatch(declared: nat, actual: nat)
    | SourceIdentityMismatch
    | SourceKeyMismatch(ordinal: nat)
    | HeaderChecksumMismatch
    | ChunkChecksumMismatch(section: nat, chunk: nat, expected: nat, actual: nat)
    | InvalidLayout

  /** The configured ceiling a `LimitExceeded` error names. */
  datatype Limit =
    | BuildMemoryBytes
    | MetadataBytes
    | HeaderBytes
    | IndexBytes
    | ChunkBytes
    | IndexEntries
    | RowBytes
    | MatchBytes
    | PageBytes
    | NormalizedQueryBytes
    | LocatorEntries
    | LocatorBytes
    | WorkingMemoryBytes
    | MaterializedRecordBytes
    | BlockBytes

  datatype Error =
    | Io
    | AllocationFailed
    | Cancelled
    | SourceChanged
    | InvalidFormat
    | InvalidData
    | Truncated
    | Decode
    | ChecksumMismatch
    | MissingPasscode
    | InvalidPasscode
    | Unsupported
    | LimitExceeded(limit: Limit)
    | KeyIndexRejected(reason: Rejection)

  datatype Result<+T> = Ok(value: T) | Err(error: Error) {
    predicate IsFailure() {
      Err?
    }

    function PropagateFailure<U>(): Result<U>
      requires Err?
    {
      Err(error)
    }

    function Extract(): T
      requires Ok?
    {
      value
    }
  }

  function Reject(reason: Rejection): Error {
    KeyIndexRejected(reason)
  }
}
