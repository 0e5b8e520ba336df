/** The optional value used for saved fields and for counts that may be NaN. */
module Wrappers {

  datatype Option<+T> = None | Some(value: T)
}
