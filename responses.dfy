/** Optional values and handler outcomes shared by every module. */
module Responses {

  /** An absent (`undefined`) or present value. */
  datatype Option<+T> = None | Some(value: T)

  /** The error statuses the handlers answer with. */
  datatype Error =
    | BadRequest   // 400: validation failed or a required field is missing
    | NotFound     // 404: no record under the requested id
    | ServerError  // 500: the store rejected the operation

  /** A handler's answer: the record it sends back, or an error status. */
  datatype Result<+T> = Ok(value: T) | Err(error: Error)
}
