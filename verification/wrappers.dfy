/** The optional value Rust spells `Option<T>`. */
module Wrappers {

  datatype Option<+T> = None | Some(value: T)
}
