/** Option, standing for the source's nullable values (`null`, `TimeSpan?`, `DateTime?`). */
module Wrappers {

  datatype Option<+T> = None | Some(value: T)
}
