/** The optional value used wherever the source returns `T | null`. */
module Wrappers {

  /** `None` stands for the source's `null` (or an absent optional field). */
  datatype Option<+T> = None | Some(value: T)
}
