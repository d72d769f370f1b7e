/** Failure-compatible helper datatypes: Swift's optionals (`T?`) and thrown errors. */
module Wrappers {

  /** Swift's `Optional`: `None` stands for `nil`. */
  datatype Option<+T> = None | Some(value: T)

  /** The outcome of a Swift call marked `throws`: a value, or the error it threw. */
  datatype Result<+T, +E> = Success(value: T) | Failure(error: E)
}
