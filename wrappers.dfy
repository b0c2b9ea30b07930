/** The optional value used where the store answers "nothing": a method that
    returns before calling a remote service, or a property the view does not have. */
module Wrappers {

  datatype Option<+T> = None | Some(value: T)
}
