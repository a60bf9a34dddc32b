/** Python's `str.lower` and `str.upper`, known only as far as a proof assumes. */
module Casings {
  datatype Casing = Casing(lower: string -> string, upper: string -> string)
}
