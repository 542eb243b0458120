/**
 * The outcome of a call into a foreign service, or of a step that lets its
 * exceptions through: a value, or an exception that propagates to the caller.
 */
module Outcomes {
  datatype Outcome<T> = Done(value: T) | Raised(cause: string)
}
