/** Small wrapper datatypes shared by the model of the message-query handlers. */
module Outcomes {

  /** An optional value. For a query-string parameter, `None` is JavaScript's `undefined`
      (the parameter was not given at all). */
  datatype Option<+T> = None | Some(value: T)

  /** What a handler answers: a JSON body, or the 404 branch. Status codes and the
      error text of the 404 body are not modelled. */
  datatype Outcome<+T> = Ok(value: T) | NotFound
}
