/** The failure-carrying result type shared by every module of the model. */
module Wrappers {

  /** A value that may be absent: the model's stand-in for a Python call that
      either returns a value or raises (or returns `None`). */
  datatype Option<+T> = None | Some(value: T)
}
