/** Failure-carrying results, standing for the source's `(value, error)` pairs and absent map entries. */
module Results {

  datatype Option<+T> = None | Some(value: T)

  /** The error is the source's message, or the name of its sentinel error. */
  datatype Result<+T> = Ok(value: T) | Err(error: string)
}
