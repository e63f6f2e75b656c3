/** Option and Result: the model's stand-ins for Python's `None` and for the
    exceptions the dashboard's computations can raise. */
module Base {

  /** A value that may be absent: a dictionary key that is missing, a `None`,
      or pandas' `NaT`/`NaN` in a column. */
  datatype Option<+T> = None | Some(value: T) {
    function GetOr(default: T): T {
      match this
      case Some(v) => v
      case None => default
    }
  }

  /** The outcome of a computation the source can abort with an exception. */
  datatype Result<+R, +E> = Success(value: R) | Failure(error: E)
}
