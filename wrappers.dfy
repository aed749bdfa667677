/** An optional value: pandas' NaN results and swallowed exceptions become `None`. */
module Wrappers {
  datatype Option<+T> = None | Some(value: T)
}
