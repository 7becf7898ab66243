/** Result shapes shared by the other modules. */
module Wrappers {

  /**
   * Either nothing or one value: a fixture without a body, or a routing
   * table in which no fixture answers.
   */
  datatype Option<T> = None | Some(value: T)

  /** The verdict of one request assertion: nil error, or an error with its message. */
  datatype Outcome = Pass | Fail(message: string)
}
