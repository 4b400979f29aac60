/** Block copies. */
module Memory {

  method Memcpy<T>(dst: array<T>, dstOffset: nat, src: seq<T>, srcOffset: nat, size: nat)
    requires dstOffset + size <= dst.Length && srcOffset + size <= |src|
    modifies dst
    ensures dst[..] == old(dst[..dstOffset]) + src[srcOffset..srcOffset + size] + old(dst[dstOffset + size..])
  {
    for i := 0 to size
      invariant dst[..dstOffset] == old(dst[..dstOffset])
      invariant dst[dstOffset..dstOffset + i] == src[srcOffset..srcOffset + i]
      invariant dst[dstOffset + i..] == old(dst[dstOffset + i..])
    {
      dst[dstOffset + i] := src[srcOffset + i];
    }
  }
}
