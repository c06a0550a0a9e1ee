/** Failure-carrying results shared by every module of the model. */
module Wrappers {

  /** A value that may be absent: JavaScript's `undefined` / `null`, or a missing request field. */
  datatype Option<+T> = None | Some(value: T)

  /** A request body field is falsy in JavaScript when it is absent or the empty string. */
  predicate Falsy(field: Option<string>) {
    field.None? || field.value == []
  }

  /** The outcome of a request handler: a success value, or an error response made of an
      HTTP status code and the `message` field of its JSON body. */
  datatype Result<+T> = Ok(value: T) | Fail(status: nat, message: string)
}
