/** Failure-carrying datatypes shared by the modules of the scraper model. */
module Wrappers {

  /** An optional value: `Option<T>` in the program. */
  datatype Option<+T> = None | Some(value: T)

  /** A value or an error: `Result<T, E>` in the program. */
  datatype Result<+R, +E> = Success(value: R) | Failure(error: E)

  /** The two ways the program can panic. */
  datatype Panic =
    | SubtractOverflow   // a `usize` subtraction below zero in a debug build
    | UnwrapOnNone       // `Option::unwrap` called on `None`
}
