/** Optional values and fallible results. */
module Options {
  datatype Option<+T> = None | Some(value: T)

  datatype Result<+T> = Ok(value: T) | Err(error: Error)

  datatype Error =
    | EmptyFingerprint
    | MetadataTooLarge
    | InvalidStatus
    | InvalidDecision
    | InvalidScope
    | InvalidRange
    | UnknownFingerprint
    | Ambiguous
    | CorruptRow
    | MalformedMetadata
    | MalformedColumn
    | PageSize
    | DatabaseFailure
    | NilBag // the program crashes on a write to a nil map
    | RequestFailed
    | UnsupportedScope
    | RangesRefused
    | CloseFailed
    | InvalidConfig
}
