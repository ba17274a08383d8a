/** The range of Go's `int64`. */
module Integers {
  const MAX_INT64 := 0x7fff_ffff_ffff_ffff
}
