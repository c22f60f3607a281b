/** Option and Result: the model's replacement for `std::optional` and for the
    exceptions the source throws on its error paths. */
module Wrappers {

  datatype Option<+T> = None | Some(value: T)

  datatype Result<+T, +E> = Ok(value: T) | Err(error: E)
}
