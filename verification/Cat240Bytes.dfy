/**
  Multi-byte reads of the category 240 parser. The bytes are copied into an integer of the host and
  swapped when the host is little-endian. Shifts and masks of unsigned integers are written as
  quotients and remainders.
*/
module Cat240Bytes {
  import opened MachineTypes

  datatype Host = LittleEndian | BigEndianHost

  /** Two bytes copied into a 16-bit integer of the host. */
  function Load16(host: Host, b0: Byte, b1: Byte): Word {
    var first: int, second: int := b0, b1;
    match host
    case LittleEndian => first + second * 0x100
    case BigEndianHost => first * 0x100 + second
  }

  function Load32(host: Host, b0: Byte, b1: Byte, b2: Byte, b3: Byte): Word32 {
    var w: int, x: int, y: int, z: int := b0, b1, b2, b3;
    match host
    case LittleEndian => w + x * 0x100 + y * 0x1_0000 + z * 0x100_0000
    case BigEndianHost => w * 0x100_0000 + x * 0x1_0000 + y * 0x100 + z
  }

  function Ntohs(host: Host, v: Word): Word {
    match host
    case LittleEndian => v / 0x100 + (v % 0x100) * 0x100
    case BigEndianHost => v
  }

  function Ntohl(host: Host, v: Word32): Word32 {
    match host
    case LittleEndian =>
      v / 0x100_0000 + (v / 0x1_0000 % 0x100) * 0x100 + (v / 0x100 % 0x100) * 0x1_0000 + (v % 0x100) * 0x100_0000
    case BigEndianHost => v
  }

  // ----- Big-endian values and their bytes

  function Value16(s: seq<Byte>): Word
    requires |s| == 2
  {
    BigEndian(s, 0)
  }

  function Value24(s: seq<Byte>): (v: Word32)
    requires |s| == 3
    ensures v < 0x100_0000
  {
    var x: int, y: int, z: int := s[0], s[1], s[2];
    x * 0x1_0000 + y * 0x100 + z
  }

  function Value32(s: seq<Byte>): Word32
    requires |s| == 4
  {
    var w: int, x: int, y: int, z: int := s[0], s[1], s[2], s[3];
    w * 0x100_0000 + x * 0x1_0000 + y * 0x100 + z
  }

  function Bytes16(v: Word): (s: seq<Byte>)
    ensures |s| == 2
  {
    [v / 0x100, v % 0x100]
  }

  function Bytes24(v: Word32): (s: seq<Byte>)
    requires v < 0x100_0000
    ensures |s| == 3
  {
    [v / 0x1_0000, v / 0x100 % 0x100, v % 0x100]
  }

  function Bytes32(v: Word32): (s: seq<Byte>)
    ensures |s| == 4
  {
    [v / 0x100_0000, v / 0x1_0000 % 0x100, v / 0x100 % 0x100, v % 0x100]
  }

  lemma BytesRoundTrip16(v: Word)
    ensures Value16(Bytes16(v)) == v
  {
  }

  lemma BytesRoundTrip24(v: Word32)
    requires v < 0x100_0000
    ensures Value24(Bytes24(v)) == v
  {
    assert v / 0x1_0000 == v / 0x100 / 0x100;
  }

  lemma BytesRoundTrip32(v: Word32)
    ensures Value32(Bytes32(v)) == v
  {
    var v1 := v / 0x100;
    assert v / 0x1_0000 == v1 / 0x100 && v / 0x100_0000 == v1 / 0x1_0000;
  }

  /** On either host, loading and swapping gives the big-endian value. */
  lemma ReadsAreBigEndian(host: Host, s: seq<Byte>)
    ensures |s| == 2 ==> Ntohs(host, Load16(host, s[0], s[1])) == Value16(s)
    ensures |s| == 4 ==> Ntohl(host, Load32(host, s[0], s[1], s[2], s[3])) == Value32(s)
  {
    if |s| == 4 {
      SwapsBytes(s[0], s[1], s[2], s[3]);
    }
  }

  lemma SwapsBytes(w: Byte, x: Byte, y: Byte, z: Byte)
    ensures
      var v := Load32(LittleEndian, w, x, y, z);
      v / 0x100_0000 == z && v / 0x1_0000 % 0x100 == y && v / 0x100 % 0x100 == x && v % 0x100 == w
  {
    var v: int := Load32(LittleEndian, w, x, y, z);
    var second: int, third: int, fourth: int := x, y, z;
    var v1 := second + third * 0x100 + fourth * 0x1_0000;
    var v2 := third + fourth * 0x100;
    assert v / 0x100 == v1 && v % 0x100 == w;
    LowDigit(v1, v2, x);
    LowDigit(v2, z, y);
    assert v / 0x1_0000 == v2;
    assert v / 0x100_0000 == z;
  }

  lemma LowDigit(v: int, high: int, low: int)
    requires v == high * 0x100 + low && 0 <= low < 0x100
    ensures v / 0x100 == high && v % 0x100 == low
  {
  }

  // ----- Presence bits

  /** Bit `k`, counted from the lowest. */
  function Bit(b: nat, k: nat): bool {
    if k == 0 then b % 2 == 1 else Bit(b / 2, k - 1)
  }

  function Power2(n: nat): (p: nat)
    ensures p > 0
  {
    if n == 0 then 1 else 2 * Power2(n - 1)
  }

  /** The number with the given bits, the highest first. */
  function FromBits(bits: seq<bool>): (v: nat)
    ensures v < Power2(|bits|)
  {
    if bits == [] then 0
    else 2 * FromBits(bits[..|bits| - 1]) + if bits[|bits| - 1] then 1 else 0
  }

  /** The byte with the given eight bits. */
  function ByteOf(bits: seq<bool>): Byte
    requires |bits| == 8
  {
    assert Power2(8) == 4 * Power2(6) == 16 * Power2(4) == 64 * Power2(2) == 0x100;
    FromBits(bits)
  }

  lemma {:induction false} BitsRoundTrip(bits: seq<bool>, k: nat)
    requires k < |bits|
    ensures Bit(FromBits(bits), |bits| - 1 - k) == bits[k]
  {
    var last := |bits| - 1;
    if k < last {
      BitsRoundTrip(bits[..last], k);
    }
  }

  /** ...and the other way round: a number is built from its bits. */
  function BitsOf(b: nat, n: nat): (bits: seq<bool>)
    ensures |bits| == n
  {
    if n == 0 then [] else BitsOf(b / 2, n - 1) + [Bit(b, 0)]
  }

  lemma {:induction false} FromBitsOf(b: nat, n: nat)
    requires b < Power2(n)
    ensures FromBits(BitsOf(b, n)) == b
  {
    if n > 0 {
      FromBitsOf(b / 2, n - 1);
      assert BitsOf(b, n)[..n - 1] == BitsOf(b / 2, n - 1);
    }
  }

  lemma {:induction false} BitsOfAt(b: nat, n: nat, k: nat)
    requires k < n
    ensures BitsOf(b, n)[k] == Bit(b, n - 1 - k)
  {
    if k < n - 1 {
      BitsOfAt(b / 2, n - 1, k);
    }
  }
}
