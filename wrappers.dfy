/** Option and Result, used for the driver's optional readings and for the
    transport errors it forwards. */
module Wrappers {

  datatype Option<+T> = None | Some(value: T)

  /** Either a value or the transport's own error, forwarded unchanged. */
  datatype Result<+T, +E> = Ok(value: T) | Err(error: E)
}
