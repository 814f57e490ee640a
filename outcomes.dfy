/** Result shapes shared by every module of the model. */
module Outcomes {

  /** A value that may be absent (Python's `None`, a missing attribute). */
  datatype Option<+T> = None | Some(value: T)

  /** The outcome of a Python call: it either raised an exception or returned a value.
      Exceptions are not distinguished by class: every handler in the modelled code
      catches `Exception` as a whole. */
  datatype Outcome<+T> = Raised | Returned(value: T)
}
