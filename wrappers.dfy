/** The Option datatype used for "no match" results of the regular-expression searches. */
module Wrappers {

  datatype Option<+T> = None | Some(value: T)

}
