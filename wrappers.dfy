/** Failure-carrying values shared by every module of the model. */
module Wrappers {

  datatype Option<+T> = None | Some(value: T)

  /** The outcome of an operation that raises in the source: the message
      stands for the exception's text. */
  datatype Result<+T> = Success(value: T) | Failure(error: string)

  /** A document field as a JSON object holds it: missing key, explicit
      null, or a value. `d.get(k)` cannot tell the first two apart,
      `d.get(k, default)` can. */
  datatype Field<+T> = Absent | Null | Given(value: T)
}
