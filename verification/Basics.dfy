/** What several components share: an optional result, the length no string,
    array or table exceeds, and 32-bit words. */
module Basics {
  datatype Option<T> = None | Some(value: T)

  const MAX_LENGTH: nat := 2147483646

  const WORD: nat := 0x1_0000_0000

  type U32 = x: nat | x < 0x1_0000_0000
}
