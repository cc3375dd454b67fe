/** Failure-carrying results: the C++ code reports every failure by throwing
    `std::runtime_error`; here each such exit is a `Failure` value instead. */
module Wrappers {

  /** A value that may be absent. */
  datatype Option<+T> = None | Some(value: T)

  /** Either a value or the error that a throwing call would have raised. */
  datatype Result<+R, +E> = Success(value: R) | Failure(error: E)
}

/** The C++ `unsigned int` (`uint`) used for image and camera dimensions. */
module CppInt {

  const UintModulus: int := 0x1_0000_0000

  type Uint = n: nat | n < UintModulus
}
