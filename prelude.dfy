/** Small shared datatypes: an optional value, as JavaScript's `undefined`/`null` alternatives. */
module Prelude {

  datatype Option<+T> = None | Some(value: T)
}
