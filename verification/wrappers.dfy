/** Failure-carrying datatypes used by the model: `Option` for lookups and
    parses that may fail, `Result` for operations that return an error value
    (the `Result<T>` / `?` idiom of the modelled code). */
module Wrappers {

  datatype Option<+T> = None | Some(value: T)

  datatype Result<+T, +E> = Ok(value: T) | Err(error: E)
}
