/** The optional value used wherever the source has `undefined` or `null`:
    an unclassified rule, a vocabulary entry that does not exist. */
module Wrappers {

  datatype Option<+T> = None | Some(value: T)
}
