/** Machine integers of the source, as ranges of int. */
module Words {
  type byte = b: int | 0 <= b < 256

  type u64 = n: int | 0 <= n < 0x1_0000_0000_0000_0000

  type i64 = v: int | -0x8000_0000_0000_0000 <= v < 0x8000_0000_0000_0000
}
