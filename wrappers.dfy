/** Option and Result values shared by every calculator of the model. */
module Wrappers {

  /** A field that may be blank: `None` stands for a value that parses to NaN. */
  datatype Option<+T> = None | Some(value: T)

  /** What a calculator displays: a value on success, or the message of its error. */
  datatype Result<+T> = Ok(value: T) | Err(msg: string)
}
