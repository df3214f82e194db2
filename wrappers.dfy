/** The optional-value wrapper used for Go's nilable `error` result. */
module Wrappers {

  datatype Option<+T> = None | Some(value: T)

}
