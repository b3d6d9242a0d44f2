/** The optional result the ledger returns: `None` stands for Python's `None`. */
module Wrappers {
  datatype Option<+T> = None | Some(value: T)
}
