/** Option and Result, the two shapes the program returns for "maybe" and "or an error". */
module Wrappers {

  datatype Option<+T> = None | Some(value: T)

  datatype Result<+T, +E> = Ok(value: T) | Err(error: E)

  /** Either, as declared in data/either.rs. */
  datatype Either<+L, +R> = Left(left: L) | Right(right: R)
}
