/** An optional value, for the component's `string | null` winner and for parse results. */
module Wrappers {

  datatype Option<T> = None | Some(value: T)
}
