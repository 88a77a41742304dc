/** The machine integers of the source. */
module NativeTypes {
  newtype byte = n: int | 0 <= n < 0x100
  newtype int16 = n: int | -0x8000 <= n < 0x8000
  newtype uint32 = n: int | 0 <= n < 0x1_0000_0000
}
