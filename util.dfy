/** Small failure-carrying wrappers shared by the modules of this model. */
module Util {

  /** An optional value: Swift's `T?`. */
  datatype Option<+T> = None | Some(value: T)

  /** The outcome of a Swift function that `throws`: a value or the error's description. */
  datatype Result<+T> = Success(value: T) | Failure(error: string)

  /** Raw bytes, Foundation's `Data`. */
  type Bytes = seq<bv8>
}
