/** Option and Result values used wherever the library either yields a value or raises. */
module Wrappers {

  datatype Option<+T> = None | Some(value: T)

  /** `Failure` stands for a C++ exception that leaves the called operation. */
  datatype Result<+R, +E> = Success(value: R) | Failure(error: E)
}
