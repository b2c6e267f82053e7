/** The optional value used for "parsed or not", "present or absent". */
module Wrappers {

  datatype Option<+T> = None | Some(value: T)

}
