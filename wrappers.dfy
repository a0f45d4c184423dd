/** The optional-value datatype used for collaborator results and parses that may fail. */
module Wrappers {

  datatype Option<+T> = None | Some(value: T)
}
