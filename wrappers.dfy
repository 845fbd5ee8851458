/** Option and Result values: a Java `null` and a thrown exception are modelled with them. */
module Wrappers {

  /** `None` stands for a Java `null` reference. */
  datatype Option<+T> = None | Some(value: T)

  /** `Failure` stands for an exception the Java code throws to its caller. */
  datatype Result<+T, +E> = Success(value: T) | Failure(error: E)
}
