/** Failure-compatible wrappers, and the three-way reading of a JSON object member. */
module Wrappers {

  /** Python's `None` or a value. */
  datatype Option<+T> = None | Some(value: T) {

    /** The value, or `default` when None. */
    function GetOr(default: T): T {
      match this
      case Some(v) => v
      case None => default
    }
  }

  /** A computation that either succeeds or aborts with an error (the scripts' `sys.exit(1)` or `raise`). */
  datatype Result<+R, +E> = Success(value: R) | Failure(error: E) {

    predicate IsFailure() {
      Failure?
    }

    function PropagateFailure<U>(): Result<U, E>
      requires Failure?
    {
      Failure(error)
    }

    function Extract(): R
      requires Success?
    {
      value
    }
  }

  /** A member of a JSON object as seen by Python's `dict.get`: the key may be absent,
      present with the value `null`, or present with a value. */
  datatype Field<+T> = Absent | Null | Present(value: T) {

    /** `d.get(k, default)`: only an absent key falls back to the default;
        an explicit null still reads as None. */
    function GetOr(default: Option<T>): Option<T> {
      match this
      case Absent => default
      case Null => None
      case Present(v) => Some(v)
    }
  }
}
