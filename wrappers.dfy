/** Nullable values and fallible results, used for the table's missing cells
    and for the error paths of loading and merging. */
module Wrappers {

  /** A cell that may be missing (pandas' NaN / None). */
  datatype Option<+T> = None | Some(value: T) {

    /** The value, or `default` when missing (pandas' `fillna`). */
    function GetOr(default: T): T {
      match this
      case Some(v) => v
      case None => default
    }
  }

  /** The outcome of an operation that can raise. */
  datatype Result<+T, +E> = Ok(value: T) | Err(error: E)
}
