/** Failure-carrying results shared by the model's modules. */
module Wrappers {

  datatype Option<+T> = None | Some(value: T)

  /** The only failure the modelled code can raise on its own: indexing an empty sequence. */
  datatype Error = IndexError

  datatype Result<+T> = Ok(value: T) | Err(error: Error)
}
