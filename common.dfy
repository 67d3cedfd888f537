/** Small value wrappers shared by the other modules. */
module Common {

  /** A value that may be absent: Python's `Optional`, SQL's NULL. */
  datatype Option<T> = None | Some(value: T)

  /** The outcome of a request handler: a response body or an error. */
  datatype Result<T, E> = Ok(value: T) | Err(error: E)

  /** A raised `HTTPException`: status code and detail text. */
  datatype HttpError = HttpError(status: int, detail: string)
}
