/** The machine integers and byte strings of the program, as ranges of `int`.
    A Go string is a byte string. */
module Machine {
  type Byte = b: int | 0 <= b < 0x100
  type Uint16 = w: int | 0 <= w < 0x1_0000
  type Uint32 = w: int | 0 <= w < 0x1_0000_0000
  type Uint64 = w: int | 0 <= w < 0x1_0000_0000_0000_0000
  type Int32 = w: int | -0x8000_0000 <= w < 0x8000_0000
  type Int64 = w: int | -0x8000_0000_0000_0000 <= w < 0x8000_0000_0000_0000

  type Bytes = seq<Byte>

  const TWO32: int := 0x1_0000_0000
  const TWO63: int := 0x8000_0000_0000_0000
  const TWO64: int := 0x1_0000_0000_0000_0000

  /** Two's complement reading of the low 64 bits of `x`. */
  function ToInt64(x: int): Int64 {
    var low := x % TWO64;
    if low < TWO63 then low else low - TWO64
  }

  /** Two's complement reading of the low 32 bits of `x`. */
  function ToInt32(x: int): Int32 {
    var low := x % TWO32;
    if low < 0x8000_0000 then low else low - TWO32
  }
}
