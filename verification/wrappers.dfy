/** The optional value the decoder and the port scan return. */
module Wrappers {

  datatype Option<+T> = None | Some(value: T)

}
