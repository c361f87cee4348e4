/** Option and Result, used for the source's `None` returns and raised exceptions. */
module Common {

  datatype Option<+T> = None | Some(value: T)

  /** `Err` stands for an exception the source raises; the error value says which one. */
  datatype Result<+T, +E> = Ok(value: T) | Err(error: E)
}
