/** Option and Result values used for the daemon's "maybe absent" answers and raised errors. */
module Common {

  datatype Option<T> = None | Some(value: T)

  /** `Err` stands for a Python exception the caller catches; `error` says which one. */
  datatype Result<T, E> = Ok(value: T) | Err(error: E)
}
