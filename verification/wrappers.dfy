/** The optional-value datatype used throughout the model: an absent
    attribute, a failed conversion. */
module Wrappers {

  datatype Option<+T> = None | Some(value: T)
}
