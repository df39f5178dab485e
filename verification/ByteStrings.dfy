// Bytes and the numbers that fit in some of them.
module ByteStrings {
  type Byte = b: int | 0 <= b < 256

  function Pow256(k: nat): nat { if k == 0 then 1 else 256 * Pow256(k - 1) }
}
