/** Bytes and sequences of them. */
module ByteString {
  newtype byte = x: int | 0 <= x < 256
  type Bytes = seq<byte>

  function Concat(parts: seq<Bytes>): Bytes {
    if parts == [] then [] else Concat(parts[..|parts| - 1]) + parts[|parts| - 1]
  }
}
