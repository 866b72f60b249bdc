/** An optional value: JavaScript's `null` / `undefined` versus a present value. */
module Wrappers {

  datatype Option<+T> = None | Some(value: T)
}
