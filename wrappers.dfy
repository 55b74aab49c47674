/** Option and Result: absent values and thrown exceptions as data. */
module Wrappers {

  datatype Option<+T> = None | Some(value: T)

  /** `Err` carries the exception a call throws; `Ok` the value it resolves to. */
  datatype Result<+T, +E> = Ok(value: T) | Err(error: E)

  function GetOr<T>(o: Option<T>, default: T): T
  {
    match o
    case Some(v) => v
    case None => default
  }
}
