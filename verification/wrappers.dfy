/** The optional-value datatype used by the step functions: `None` marks an
    action that is not enabled in the current state. */
module Wrappers {

  datatype Option<+T> = None | Some(value: T)
}
