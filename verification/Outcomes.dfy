/** What an operation hands back: a value, nothing, or the reason it refused. */
module Outcomes {

  datatype Option<+T> = None | Some(value: T)

  /** `Error` stands for a thrown exception with this message. */
  datatype Result<+T> = Ok(value: T) | Error(message: string)
}
