/** Go strings are byte strings: their length and their indices count bytes. */
module Bytes {

  type Byte = b: int | 0 <= b < 256 witness 0

  type Text = seq<Byte>
}
