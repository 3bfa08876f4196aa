/** The unsigned machine integers of the firmware, as ranges of the mathematical integers. */
module MachineTypes {

  type Byte = x: int | 0 <= x < 0x100
  type Word = x: int | 0 <= x < 0x1_0000
  type Word32 = x: int | 0 <= x < 0x1_0000_0000

  const TWO32 := 0x1_0000_0000

  datatype Option<+T> = None | Some(value: T)

  function Max(a: int, b: int): int { if a < b then b else a }

  /** The big-endian 16-bit value that starts at byte `at`. */
  function BigEndian(s: seq<Byte>, at: nat): (w: Word)
    requires at + 2 <= |s|
  {
    var high: int, low: int := s[at], s[at + 1];
    high * 0x100 + low
  }
}
