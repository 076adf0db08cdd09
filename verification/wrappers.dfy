/** Option, standing in for Java's nullable references and for "absent" lookups. */
module Wrappers {

  datatype Option<+T> = None | Some(value: T)
}
