/** The optional value used for the page's nullable selection slot. */
module Wrappers {

  /** `None` stands for the source's `null`, `Some(v)` for a present value. */
  datatype Option<+T> = None | Some(value: T)
}
