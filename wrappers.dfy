/** An optional value: `None` stands for a JSON field that is absent (`undefined`). */
module Wrappers {
  datatype Option<+T> = None | Some(value: T)
}
