/** The optional value the hooks return where Python returns `X | None`. */
module Wrappers {

  datatype Option<+T> = None | Some(value: T)
}
