/** The optional value used where the source holds a pointer that may be null
    or a template instantiation that a static_assert may reject. */
module Wrappers {

  datatype Option<+T> = None | Some(value: T)
}
