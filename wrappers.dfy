/** The optional value used for parse results and for "no record found". */
module Wrappers {

  datatype Option<+T> = None | Some(value: T)
}
