/** A value that may be absent: PHP's `null` from `filter_input`, or a
    missing query parameter on the client side. */
module Wrappers {
  datatype Option<+T> = None | Some(value: T)
}
