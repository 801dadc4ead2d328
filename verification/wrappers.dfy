/** Optional values and fallible results, used wherever the inventory code
    reads a nullable column or raises an exception. */
module Wrappers {

  /** A nullable value: a database NULL, a missing form field or a Python `None`. */
  datatype Option<+T> = None | Some(value: T) {

    /** Python's `x or default` for a value whose only falsy form is `None`. */
    function GetOr(default: T): T {
      match this
      case Some(v) => v
      case None => default
    }
  }

  /** The outcome of an operation that may raise. */
  datatype Result<+R, +E> = Ok(value: R) | Err(error: E) {

    predicate IsFailure() {
      Err?
    }

    function PropagateFailure<U>(): Result<U, E>
      requires Err?
    {
      Err(error)
    }

    function Extract(): R
      requires Ok?
    {
      value
    }
  }
}
