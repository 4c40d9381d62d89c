/** The usual Some/None wrapper, used for the readers that invert the
    printers of this project. */
module Wrappers {

  datatype Option<T> = None | Some(value: T)
}
