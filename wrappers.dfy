/** An optional value: a property or result that may be absent (`undefined` in the source) */
module Wrappers {

  datatype Option<T> = None | Some(value: T)
}
