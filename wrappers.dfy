/** The optional value used wherever main.py works with `None`. */
module Wrappers {

  datatype Option<+T> = None | Some(value: T)
}
