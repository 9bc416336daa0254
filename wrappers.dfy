/** The optional value used wherever Python code may hand back `None`. */
module Wrappers {

  datatype Option<+T> = None | Some(value: T)
}
