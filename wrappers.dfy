/** The optional value used where the scripts either produce a value or stop
    with an exception. */
module Wrappers {

  datatype Option<T> = None | Some(value: T)
}
