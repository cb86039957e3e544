/** Failure-carrying result types shared by the model: the source's
    `Option`, `io::Result` and the panics it raises (`unwrap`, `assert!`). */
module Wrappers {

  datatype Option<+T> = None | Some(value: T)

  datatype Result<+T, +E> = Ok(value: T) | Err(error: E)

  /** The outcome of an operation that returns nothing but may fault. */
  datatype Outcome<+E> = Pass | Fail(error: E)

  function Min(a: nat, b: nat): nat
  {
    if a <= b then a else b
  }
}
