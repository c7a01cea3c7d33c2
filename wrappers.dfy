/** Option, used for the source's "miss" outcomes and for raised exceptions
    that abort an operation. */
module Wrappers {

  datatype Option<+T> = None | Some(value: T)
}
