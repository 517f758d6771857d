/** The fixed-width integers of the C programs. */
module MachineTypes {

  type byte = x: int | 0 <= x < 0x100

  type uint16 = x: int | 0 <= x < 0x1_0000

  type uint32 = x: int | 0 <= x < 0x1_0000_0000

  newtype int16 = x: int | -0x8000 <= x < 0x8000

  newtype int64 = x: int | -0x8000_0000_0000_0000 <= x < 0x8000_0000_0000_0000

  /** A 16-bit word by its two bytes. */
  datatype Word = Word(hi: byte, lo: byte)
}
