/** The error kinds the services raise, and the result of every operation. */
module Errors {

  /** NotFound and BadRequest are the services' business exceptions (404 and 400);
      KnownRequest is a persistence-layer error with its code, which checkout
      passes on unchanged; Internal is the generic error that hides any other failure. */
  datatype Error = NotFound | BadRequest | KnownRequest(code: string) | Internal

  datatype Result<T> = Ok(value: T) | Err(error: Error)

  datatype Option<T> = None | Some(value: T)
}
