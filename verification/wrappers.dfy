/** The optional value used for "no record found" and "nobody is being edited". */
module Wrappers {

  datatype Option<+T> = None | Some(value: T)
}
