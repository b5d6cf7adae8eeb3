/** Small failure-carrying datatypes shared by the whole model. */
module Wrappers {

  /** A value that may be missing; `None` stands for Python's `None` and for
      a call that raised inside a `try` that turns every exception into `None`. */
  datatype Option<+T> = None | Some(value: T)
}
