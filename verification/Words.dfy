/** Bytes and 64-bit words, shared by the models. */
module Words {
  type Byte = x: int | 0 <= x < 256

  const TWO_64 := 0x1_0000_0000_0000_0000

  function Pow256(k: nat): (p: nat)
    ensures p >= 1
  {
    if k == 0 then 1 else 256 * Pow256(k - 1)
  }
}
