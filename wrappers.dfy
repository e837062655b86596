/** The optional value used for fields the feed may omit. */
module Wrappers {

  datatype Option<+T> = None | Some(value: T)
}
