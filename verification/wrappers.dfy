/** An optional value: a fetch that failed, a JSON null, or a present value. */
module Wrappers {

  datatype Option<+T> = None | Some(value: T)
}
