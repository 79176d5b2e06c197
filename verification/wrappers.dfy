/** An optional value: JavaScript's `undefined` (or a missing property) is `None`. */
module Wrappers {

  datatype Option<+T> = None | Some(value: T)

}
