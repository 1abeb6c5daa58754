/** Failure-compatible wrappers shared by every module of the model. */
module Wrappers {

  /** A value that may be absent (the source's `null` / `undefined`). */
  datatype Option<+T> = None | Some(value: T) {
    function GetOr(default: T): T {
      match this
      case Some(v) => v
      case None => default
    }
  }

  /** The outcome of an operation that can fail with an error message. */
  datatype Result<+T> = Ok(value: T) | Err(error: string)

  /** An optional text field is truthy: present and not the empty string. */
  predicate Given(field: Option<string>) {
    field.Some? && field.value != ""
  }
}
