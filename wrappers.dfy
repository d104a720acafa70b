/** The optional value used throughout the model: `None` stands for a value
    the source does not have (a memory read that faulted, a number that did
    not parse, a call that raised before producing its result). */
module Wrappers {

  datatype Option<+T> = None | Some(value: T)
}
