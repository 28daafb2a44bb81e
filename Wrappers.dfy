/** The Option type used for the parser and deserializer oracles. */
module Wrappers {

  datatype Option<+T> = None | Some(value: T)
}
