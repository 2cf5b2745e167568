/** Types that several parts of the model share. */
module Basics {

  datatype Option<T> = None | Some(value: T)

  newtype Byte = x: int | 0 <= x < 256
}
