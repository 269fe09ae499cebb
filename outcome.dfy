/** A value, or the exception the engine would raise instead of producing it. */
module Outcome {

  datatype Result<T> = Ok(value: T) | Err(reason: string)
}
