/** The optional-value datatype the search returns: `None` plays the role of
    the program's `undefined` result. */
module Wrappers {

  datatype Option<+T> = None | Some(value: T)
}
