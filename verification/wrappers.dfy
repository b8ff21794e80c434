/** The optional-value type used wherever the library signals failure by a
    null field or a thrown ArgumentException. */
module Wrappers {

  datatype Option<+T> = None | Some(value: T)

}
