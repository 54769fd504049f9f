/** Failure-compatible wrappers shared by every module: `Option` stands for a
    Java reference or `Optional` that may be absent, `Result` for a call that
    either returns a value or throws one of the modelled exceptions. */
module Wrappers {

  datatype Option<+T> = None | Some(value: T)

  datatype Result<+T, +E> = Success(value: T) | Failure(error: E)

  /** The outcome of a `void` operation that may throw. */
  datatype Outcome<+E> = Pass | Fail(error: E)
}
