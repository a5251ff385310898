/** Plain wrapper datatypes: Option stands in for a Java reference that may be
    null, Result for a call that either returns a value or throws. */
module Wrappers {

  datatype Option<+T> = None | Some(value: T)

  datatype Result<+R, +E> = Success(value: R) | Failure(error: E)
}
