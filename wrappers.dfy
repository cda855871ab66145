/** Small result types shared by the rest of the model. */
module Wrappers {

  /** A value that may be absent (Rust's `Option`). */
  datatype Option<+T> = None | Some(value: T)

  /** The outcome of a computation that either returns a value or panics;
      the server's `unwrap()`, `remove(0)` and `panic!` failures are `Abort`. */
  datatype Fallible<+T> = Ok(value: T) | Abort
}
