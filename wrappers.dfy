/** The optional value used where the views look something up that may be absent. */
module Wrappers {

  datatype Option<+T> = None | Some(value: T)

}
