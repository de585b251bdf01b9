/** Failure-carrying return values: the C++ `std::optional` and the
    exceptions the source throws are modelled with these. */
module Wrappers {

  datatype Option<+T> = None | Some(value: T)

  datatype Result<+R, +E> = Success(value: R) | Failure(error: E)

  /** The message of `std::bad_optional_access`, thrown by `value()` on an
      empty optional. */
  const BadOptionalAccess: string := "bad optional access"
}
