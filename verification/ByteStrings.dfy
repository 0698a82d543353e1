/** Bytes in memory and in files. */
module ByteStrings {
  type byte = bv8

  function Zeros(n: nat): (z: seq<byte>)
    ensures |z| == n
  {
    seq(n, k => 0)
  }
}
