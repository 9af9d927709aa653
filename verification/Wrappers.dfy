/** Optional values, and results that may be one of the storage engine's errors. */
module Wrappers {
  datatype Option<+T> = None | Some(value: T)

  datatype Error =
    | WalProtocol(message: string)
    | WalRecordTooLarge(len: nat)
    | PageIdOutOfRange(page: nat)
    | PageNotAllocated(page: nat)
    | StorageCorrupted(message: string)
    | InvalidMagic
    | SyntaxError(message: string)
    | UnsupportedPageSize(size: nat)
    | StorageFormatMismatch(expected: nat, found: nat)

  datatype Result<+T> = Ok(value: T) | Err(error: Error) {
    predicate IsFailure() { Err? }

    function PropagateFailure<U>(): Result<U>
      requires Err?
    {
      Err(error)
    }

    function Extract(): T
      requires Ok?
    {
      value
    }
  }
}
