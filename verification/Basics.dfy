/** Types that several models share. */
module Basics {
  datatype Option<+T> = Some(value: T) | None

  type Byte = b: nat | b < 256
}
