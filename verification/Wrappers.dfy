/** Small types shared by the loader modules. */
module Wrappers {
  datatype Option<T> = None | Some(value: T)
}
