/** Failure-carrying results for the library's exceptions, and the exceptions themselves. */
module Wrappers {

  datatype Option<+T> = None | Some(value: T)

  /** The value of a call that either returns normally or throws. */
  datatype Result<+R, +E> = Success(value: R) | Failure(error: E)

  /** The outcome of a call that returns nothing or throws. */
  datatype Outcome<+E> = Pass | Fail(error: E)

  /** The exceptions the core throws. */
  datatype Error =
    /** `ArgumentException` from the registry: the selector is none of the six algorithms. */
    | UndefinedAlgorithm(selector: int)
    /** The plain `Exception` from `SetDefaultSettings`: the salt size is outside [1, 100]. */
    | SaltSizeOutOfRange(saltSize: int)
    /** `ArgumentOutOfRangeException` from `Substring`: the start index is past the end of the string. */
    | StartIndexOutOfRange(startIndex: int, length: int)
    /** `ArgumentOutOfRangeException` from `new StringBuilder(capacity)`: the capacity is negative. */
    | CapacityOutOfRange(capacity: int)
}
