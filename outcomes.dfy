/** Option and Result wrappers, and the error values the receipt backend
    reports: HTTP errors raised by its endpoints and helpers, and pydantic
    field-validation errors raised by its schemas. */
module Outcomes {

  datatype Option<+T> = None | Some(value: T)

  datatype Result<+T, +E> = Ok(value: T) | Err(error: E)

  /** One failed field validator: the field it ran on and the message of the
      ValueError it raised. pydantic collects these, in field order, into one
      ValidationError. */
  datatype FieldError = FieldError(field: string, message: string)

  /** An exception leaving an endpoint, as the HTTP status it turns into. */
  datatype HttpError =
    | BadRequest(detail: string)                // HTTPException(status_code=400)
    | NotFound(detail: string)                  // HTTPException(status_code=404)
    | RequestInvalid(errors: seq<FieldError>)   // 422: request parameters rejected
    | ResponseInvalid(errors: seq<FieldError>)  // 500: response model rejected a value
    | QueryFailed                               // 500: the database refused a date literal
}
