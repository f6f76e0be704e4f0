/** The optional-value and outcome datatypes shared by the rest of the model. */
module Wrappers {

  /** An optional value: a SQL/polars null, or Python's `None`. */
  datatype Option<+T> = None | Some(value: T)

  /** The outcome of a query: a value, or the exception the query raises. */
  datatype Result<+T, +E> = Ok(value: T) | Err(error: E)
}
