/**
  The layout of a category 240 message in bytes (EUROCONTROL-SPEC-0149-240, section 5): which bit of the
  field specification announces which item, how long each item is, and what its bytes mean.
*/
module Cat240Layout {
  import opened MachineTypes
  import opened Cat240Bytes
  import opened Cat240Table
  import opened Cat240Parser

  // ----- The field specification

  /** The weight of the bit that announces item `frn`: FRN 1..7 in the first byte, 8..14 in the second. */
  function MaskOf(frn: nat): nat
    requires 1 <= frn <= 14
  {
    [128, 64, 32, 16, 8, 4, 2, 128, 64, 32, 16, 8, 4, 2][frn - 1]
  }

  lemma PresentInBytes(fspec1: Byte, fspec2: Byte, frn: nat)
    requires 1 <= frn <= 14
    ensures Present(fspec1, fspec2, frn) <==> (if frn <= 7 then fspec1 else fspec2) / MaskOf(frn) % 2 == 1
  {
    var b := if frn <= 7 then fspec1 else fspec2;
    BitInBytes(b, if frn <= 7 then 8 - frn else 15 - frn);
  }

  lemma BitInBytes(b: nat, k: nat)
    requires k < 8
    ensures Bit(b, k) <==> b / [1, 2, 4, 8, 16, 32, 64, 128][k] % 2 == 1
  {
    if k < 4 {
      LowBit(b, k);
    } else {
      FourBits(b, k);
      LowBit(b / 16, k - 4);
      Sixteenth(b);
    }
  }

  lemma Sixteenth(b: nat)
    ensures b / 32 == b / 16 / 2 && b / 64 == b / 16 / 4 && b / 128 == b / 16 / 8
  {
  }

  lemma LowBit(b: nat, k: nat)
    requires k < 4
    ensures Bit(b, k) <==> b / [1, 2, 4, 8][k] % 2 == 1
  {
    var b1 := b / 2;
    var b2 := b1 / 2;
    match k
    case 0 =>
    case 1 => assert Bit(b, 1) == Bit(b1, 0);
    case 2 => assert Bit(b, 2) == Bit(b1, 1) == Bit(b2, 0);
    case _ => assert Bit(b, 3) == Bit(b1, 2) == Bit(b2, 1) == Bit(b2 / 2, 0);
  }

  lemma FourBits(b: nat, k: nat)
    requires k >= 4
    ensures Bit(b, k) == Bit(b / 16, k - 4)
  {
    var b2 := b / 2 / 2;
    assert Bit(b, k) == Bit(b / 2, k - 1) == Bit(b2, k - 2);
    assert Bit(b2, k - 2) == Bit(b2 / 2, k - 3) == Bit(b2 / 2 / 2, k - 4);
    assert b2 / 2 / 2 == b / 16;
  }

  // ----- The items

  function U16(data: seq<Byte>, at: nat): Word
    requires at + 2 <= |data|
  {
    var x: int, y: int := data[at], data[at + 1];
    x * 256 + y
  }

  function U24(data: seq<Byte>, at: nat): Word32
    requires at + 3 <= |data|
  {
    var x: int, y: int, z: int := data[at], data[at + 1], data[at + 2];
    (x * 256 + y) * 256 + z
  }

  function U32(data: seq<Byte>, at: nat): Word32
    requires at + 4 <= |data|
  {
    var w: int, x: int, y: int, z: int := data[at], data[at + 1], data[at + 2], data[at + 3];
    ((w * 256 + x) * 256 + y) * 256 + z
  }

  /** The length of item `frn` at `at`; repeated items begin with their repetition byte. */
  function SizeInBytes(data: seq<Byte>, at: nat, frn: nat): nat
    requires 1 <= frn <= 14 && at < |data|
  {
    var rep: int := data[at];
    match frn
    case 1 => 2
    case 2 => 1
    case 3 => 4
    case 4 => 1 + rep
    case 5 => 12
    case 6 => 12
    case 7 => 2
    case 8 => 5
    case 9 => 1 + 4 * rep
    case 10 => 1 + 64 * rep
    case 11 => 1 + 256 * rep
    case 12 => 3
    case _ => 1 + rep
  }

  function HeaderInBytes(data: seq<Byte>, at: nat): Header
    requires at + 12 <= |data|
  {
    Header(U16(data, at), U16(data, at + 2), U32(data, at + 4), U32(data, at + 8))
  }

  /** The message after item `frn`, read off the bytes at `at`. */
  function MessageInBytes(data: seq<Byte>, at: nat, frn: nat, m: Message): Message
    requires 1 <= frn <= 14 && at < |data| && at + SizeInBytes(data, at, frn) <= |data|
  {
    var rep: int := data[at];
    match frn
    case 1 => m.(sac := data[at], sic := data[at + 1])
    case 2 => m.(messageType := data[at])
    case 3 => m.(msgIndex := Some(U32(data, at)))
    case 4 => m.(summary := Some(Summary(rep, data[at + 1..at + 1 + rep])))
    case 5 => m.(nano := Some(HeaderInBytes(data, at)))
    case 6 => m.(femto := Some(HeaderInBytes(data, at)))
    case 7 => m.(resolution := Some(Resolution(data[at] / 128, data[at] % 128, data[at + 1])))
    case 8 => m.(counters := Some(Counters(U16(data, at), U24(data, at + 2))))
    case 9 => m.(video := Some(VideoBlock(Low, rep, at + 1, 4 * rep)))
    case 10 => m.(video := Some(VideoBlock(Medium, rep, at + 1, 64 * rep)))
    case 11 => m.(video := Some(VideoBlock(High, rep, at + 1, 256 * rep)))
    case 12 => m.(time := Some(U24(data, at)))
    case 13 => m.(reLength := Some(rep))
    case _ => m.(spLength := Some(rep))
  }

  /** Inside the block an item is taken exactly when the block holds all its bytes... */
  lemma TakenIff(data: seq<Byte>, limit: nat, frn: nat, c: Progress)
    requires 1 <= frn <= 14 && c.at <= limit <= |data|
    ensures TakeItem(data, limit, frn, c).Done? <==> c.at < limit && c.at + SizeInBytes(data, c.at, frn) <= limit
    ensures TakeItem(data, limit, frn, c).Done? ==>
      TakeItem(data, limit, frn, c).next.at == c.at + SizeInBytes(data, c.at, frn)
  {
  }

  /** ...and then it enters the message with the values of these bytes. */
  lemma ItemInBytes(data: seq<Byte>, limit: nat, frn: nat, c: Progress)
    requires 1 <= frn <= 14 && c.at < limit <= |data| && c.at + SizeInBytes(data, c.at, frn) <= limit
    ensures TakeItem(data, limit, frn, c).Done?
    ensures TakeItem(data, limit, frn, c).next.msg == MessageInBytes(data, c.at, frn, c.msg)
  {
    TakenIff(data, limit, frn, c);
    if frn in {1, 2, 3, 7, 8, 12} {
      ShortInBytes(data, limit, frn, c);
    } else if frn == 4 {
      SummaryInBytes(data, limit, c);
    } else if frn in {5, 6} {
      HeaderBytesAt(data, c.at);
    }
  }

  /** How many bytes of item `frn` the parser reads at first: fixed items whole, the repetition byte of all others. */
  function FirstRead(frn: nat): nat
    requires 1 <= frn <= 14
  {
    [2, 1, 4, 1, 12, 12, 2, 5, 1, 1, 1, 3, 1, 1][frn - 1]
  }

  /**
    Which bytes are read of an item: after the first ones only the text of a summary. An item whose
    length alone does not fit the block is left with nothing read, or only its repetition byte.
  */
  lemma ReadsInBytes(data: seq<Byte>, limit: nat, frn: nat, c: Progress)
    requires 1 <= frn <= 14 && c.at <= limit
    ensures
      var taken := TakeItem(data, limit, frn, c);
      var read := if frn == 4 && c.at < |data| then 1 + data[c.at] else FirstRead(frn);
      match taken
      case Done(next) => next.reach == c.at + read <= |data|
      case Beyond(reach) => reach == c.at + read > |data|
      case Short(reach) =>
        if c.at + FirstRead(frn) <= limit then reach == c.at + 1 <= |data| && frn in {4, 9, 10, 11, 13, 14}
        else reach == c.reach
  {
    match ShapeOf(frn)
    case Fixed(size) => assert size == FirstRead(frn);
    case Repeated(_, copied) => assert FirstRead(frn) == 1 && (copied <==> frn == 4);
  }

  lemma ShortInBytes(data: seq<Byte>, limit: nat, frn: nat, c: Progress)
    requires frn in {1, 2, 3, 7, 8, 12}
    requires c.at < limit <= |data| && c.at + SizeInBytes(data, c.at, frn) <= limit
    ensures TakeItem(data, limit, frn, c).Done?
    ensures TakeItem(data, limit, frn, c).next.msg == MessageInBytes(data, c.at, frn, c.msg)
  {
    var at := c.at;
    match frn
    case 3 => ValueAt32(data, at, at, at + 4);
    case 7 => ResolutionAt(data, at);
    case 8 => CountersAt(data, at);
    case 12 => ValueAt24(data, at, at, at + 3);
    case _ =>
  }

  lemma SummaryInBytes(data: seq<Byte>, limit: nat, c: Progress)
    requires c.at < limit <= |data| && c.at + SizeInBytes(data, c.at, 4) <= limit
    ensures TakeItem(data, limit, 4, c).Done?
    ensures TakeItem(data, limit, 4, c).next.msg == MessageInBytes(data, c.at, 4, c.msg)
  {
    SummaryItem(data, limit, c);
  }

  lemma ValueAt16(data: seq<Byte>, at: nat, from: nat, to: nat)
    requires at == from && to == at + 2 <= |data|
    ensures Value16(data[from..to]) == U16(data, at)
  {
  }

  lemma ValueAt24(data: seq<Byte>, at: nat, from: nat, to: nat)
    requires at == from && to == at + 3 <= |data|
    ensures Value24(data[from..to]) == U24(data, at)
  {
  }

  lemma ValueAt32(data: seq<Byte>, at: nat, from: nat, to: nat)
    requires at == from && to == at + 4 <= |data|
    ensures Value32(data[from..to]) == U32(data, at)
  {
  }

  lemma HeaderBytesAt(data: seq<Byte>, at: nat)
    requires at + 12 <= |data|
    ensures HeaderOf(data[at..at + 12]) == HeaderInBytes(data, at)
  {
    HeaderAt(data, at);
    ValueAt16(data, at, at, at + 2);
    ValueAt16(data, at + 2, at + 2, at + 4);
    ValueAt32(data, at + 4, at + 4, at + 8);
    ValueAt32(data, at + 8, at + 8, at + 12);
  }

  lemma ResolutionAt(data: seq<Byte>, at: nat)
    requires at + 2 <= |data|
    ensures ResolutionOf(data[at..at + 2]) == Resolution(data[at] / 128, data[at] % 128, data[at + 1])
  {
    var v: int, high: int, low: int := Value16(data[at..at + 2]), data[at], data[at + 1];
    LowDigit(v, high, low);
    assert v / 0x8000 == high / 0x80;
  }

  lemma CountersAt(data: seq<Byte>, at: nat)
    requires at + 5 <= |data|
    ensures Value16(data[at..at + 5][..2]) == U16(data, at)
    ensures Value24(data[at..at + 5][2..]) == U24(data, at + 2)
  {
    SliceOfSlice(data, at, at + 5, 0, 2);
    SliceOfSlice(data, at, at + 5, 2, 5);
    ValueAt16(data, at, at, at + 2);
    ValueAt24(data, at + 2, at + 2, at + 5);
  }
}
