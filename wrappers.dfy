/** Option and Result, and the Python exceptions the modelled code raises. */
module Wrappers {

  /** A Python argument or attribute that may be `None`. */
  datatype Option<+T> = None | Some(value: T) {

    /** The value, or `default` when `None`. */
    function GetOr(default: T): T {
      match this
      case Some(v) => v
      case None => default
    }
  }

  /** The exception kinds raised by the modelled code. */
  datatype Error =
    | IndexError       // index out of range, or an unsupported index type
    | TypeError        // an operation applied to values of unsuitable types
    | ValueError       // `tuple.index` of a missing value, a zero slice step, `min([])`
    | AttributeError   // an object without the attribute the code reads
    | NotDiagAxis      // `_expand_diagonal` given an axis that is not a diagonal axis
    | AxisNotFound     // `_expand_diagonal` given an axis its array does not have

  /** The outcome of a call that either returns a value or raises. */
  datatype Result<+T> = Ok(value: T) | Err(error: Error) {

    predicate IsFailure() {
      Err?
    }

    function PropagateFailure<U>(): Result<U>
      requires Err?
    {
      Err(error)
    }

    function Extract(): T
      requires Ok?
    {
      value
    }
  }
}
