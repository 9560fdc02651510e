/** The optional value the page's code writes as `null` or `undefined`. */
module Wrappers {

  datatype Option<T> = None | Some(value: T)
}
