/** Results of operations that can fail (error.rs). */
module Wrappers {

  /** The source's error enum, without the texts it formats for people. */
  datatype Error =
    | UnexpectedEof                     // Io, from a read that runs past the end of the file
    | BadSignature
    | NoValidHeader
    | NoValidRegionTable
    | MissingRegion(name: string)
    | MissingMetadata(name: string)
    | InvalidStructure
    | LogReplay
    | DirtyLog
    | Unsupported
    | ParentNotFound
    | ParentGuidMismatch
    | VirtOffsetOutOfRange
    | Panic                             // a slice index or a division by zero the source would panic on

  datatype Option<+T> = None | Some(value: T)

  datatype Result<+T> = Ok(value: T) | Err(error: Error) {
    predicate IsFailure() {
      Err?
    }

    function PropagateFailure<U>(): Result<U>
      requires Err?
    {
      Err(error)
    }

    function Extract(): T
      requires Ok?
    {
      value
    }
  }
}
