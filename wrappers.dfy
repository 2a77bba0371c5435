/** The result of JavaScript's `parseInt` on a form field: `None` stands for NaN. */
module Wrappers {
  datatype Option<+T> = None | Some(value: T)
}
