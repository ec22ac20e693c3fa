/** Small general-purpose datatypes shared by the other modules. */
module Wrappers {

  /** An optional value; the model's counterpart of Python's `None`. */
  datatype Option<+T> = None | Some(value: T)
}
