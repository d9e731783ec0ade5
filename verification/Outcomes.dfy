/** Results that may be absent, and calls that may panic. */
module Outcomes {
  datatype Option<+T> = None | Some(value: T)

  /** A Go call either returns or panics at run time. */
  datatype Outcome<+T> = Panicked | Returned(value: T)
}
