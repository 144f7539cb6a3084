/** The optional value used for the editor's nullable fields and for checks that can fail. */
module Wrappers {

  datatype Option<+T> = None | Some(value: T)
}
