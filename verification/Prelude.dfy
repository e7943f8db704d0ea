/** Small shared datatypes. */
module Prelude {

  /** Python's `None` or a value. */
  datatype Option<+T> = None | Some(value: T)

  /** A normal return or a raised exception. */
  datatype Outcome<+T> = Returned(value: T) | Raised(reason: string)
}
