/** The optional value used where the Python code uses `None` or a missing page. */
module Wrappers {

  datatype Option<+T> = None | Some(value: T)
}
