/** An optional value: the model's stand-in for JavaScript's `null` / empty input. */
module Wrappers {

  datatype Option<+T> = None | Some(value: T)
}
