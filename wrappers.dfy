/** Nullable values, as read from a catalog row or stored on a column. */
module Wrappers {

  /** `None` stands for a database NULL or a C# `null`. */
  datatype Option<+T> = None | Some(value: T)
}
