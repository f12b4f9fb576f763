/** Small failure-carrying datatypes shared by the model. */
module Wrappers {

  /** An optional value; `None` stands for Python's `None` (or any falsy value). */
  datatype Option<+T> = None | Some(value: T)

  /** A computation that either produces a value or raises an error. */
  datatype Result<+R, +E> = Success(value: R) | Failure(error: E)
}
