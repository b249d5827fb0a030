// What several modules share: a value that may be absent, where the original returns a null pointer; bytes; and the
// count of a condition.
module Wrappers {
  datatype Option<+T> = None | Some(value: T)

  type Byte = b: int | 0 <= b < 256

  function One(b: bool): nat {
    if b then 1 else 0
  }
}
