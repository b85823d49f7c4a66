/** Option and Result, the two failure-carrying datatypes the model uses in
    place of Python's None and raised exceptions. */
module Wrappers {

  /** A nullable value: `None` stands for Python's `None` / a NULL column. */
  datatype Option<+T> = None | Some(value: T) {

    /** The value, or `d` when absent (Python's `x or d` on a nullable). */
    function GetOr(d: T): (r: T)
      ensures Some? ==> r == value
      ensures None? ==> r == d
    {
      match this
      case Some(v) => v
      case None => d
    }
  }

  /** Either a computed value or the error that stopped the computation. */
  datatype Result<+R, +E> = Success(value: R) | Failure(error: E)
}
