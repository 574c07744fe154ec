/** Small failure-carrying datatypes shared by every module of the model. */
module Basics {

  /** An optional value: `None` stands for JavaScript's `undefined`/`null`. */
  datatype Option<+T> = None | Some(value: T)

  /** The outcome of a step that can throw: `Err` carries what was thrown. */
  datatype Result<+T, +E> = Ok(value: T) | Err(error: E)

  /** A JavaScript value used in a boolean test: a missing value and the
      empty string are falsy, every other string is truthy. */
  predicate Falsy(v: Option<string>) {
    v.None? || v.value == ""
  }
}
