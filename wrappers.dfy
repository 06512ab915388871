/** Option and Result values for the error paths of the modelled code
    (assertion failures, runtime errors, "not found" returns). */
module Wrappers {

  datatype Option<+T> = None | Some(value: T)

  datatype Result<+T, +E> = Ok(value: T) | Err(error: E)
}
