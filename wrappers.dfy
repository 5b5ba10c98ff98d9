/** The optional value used for the nullable inputs of the model
    (a sunset policy, its date, a link title). */
module Wrappers {

  datatype Option<+T> = None | Some(value: T)

}
