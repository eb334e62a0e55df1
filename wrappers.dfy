/** Small result types shared by the whole model. */
module Wrappers {

  /** A value that may be absent. */
  datatype Option<+T> = None | Some(value: T)

  /** The outcome of a Python call that either returns a value or raises an
      exception nobody catches (a KeyError, IndexError or ValueError in a
      handler thread). */
  datatype Outcome<+T> = Returned(value: T) | Raised
}
