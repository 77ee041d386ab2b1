/** Identifiers and the small result types shared by the model. */
module Ids {

  /** An entity identifier: a numeric (long) id or an opaque string id. */
  datatype Id = IdLong(long: int) | IdString(str: string)

  datatype Option<+T> = None | Some(value: T)

  /** The exceptions the relinking code can raise. */
  datatype Error = NoSuchEntity(message: string)

  /** Either a value or the exception that escaped the operation. */
  datatype Result<+T> = Ok(value: T) | Err(error: Error)
}
