/** The optional value used for the components' nullable results. */
module Wrappers {

  datatype Option<+T> = None | Some(value: T)
}
