/**
  The converse of the round trip: every block of more than three bytes that the parser accepts is an
  encoding, so the accepted blocks are exactly the encoded ones.
*/
module Cat240Decode {
  import opened MachineTypes
  import Modular
  import opened Cat240Bytes
  import opened Cat240Table
  import opened Cat240RoundTrip

  const EMPTY := Record(0, 0, 0, None, None, None, None, None, None, None, None, None, None, None, None)

  // ----- One item put back into a record

  function Put(r: Record, frn: nat, raw: seq<Byte>): Record
    requires IsItem(frn, raw)
  {
    match frn
    case 1 => r.(sac := raw[0], sic := raw[1])
    case 2 => r.(messageType := raw[0])
    case 3 => r.(msgIndex := Some(Value32(raw)))
    case 4 => r.(summary := Some(raw[1..]))
    case 5 => r.(nano := Some(HeaderOf(raw)))
    case 6 => r.(femto := Some(HeaderOf(raw)))
    case 7 => r.(resolution := Some(ResolutionOf(raw)))
    case 8 => r.(counters := Some(Counters(Value16(raw[..2]), Value24(raw[2..]))))
    case 9 => r.(low := Some(raw[1..]))
    case 10 => r.(medium := Some(raw[1..]))
    case 11 => r.(high := Some(raw[1..]))
    case 12 => r.(time := Some(Value24(raw)))
    case 13 => r.(re := Some(raw[1..]))
    case _ => r.(sp := Some(raw[1..]))
  }

  lemma ValueRoundTrip16(s: seq<Byte>)
    requires |s| == 2
    ensures Bytes16(Value16(s)) == s
  {
  }

  lemma ValueRoundTrip24(s: seq<Byte>)
    requires |s| == 3
    ensures Bytes24(Value24(s)) == s
  {
    var v: int, x: int, y: int, z: int := Value24(s), s[0], s[1], s[2];
    LowDigit(v, x * 0x100 + y, z);
    LowDigit(v / 0x100, x, y);
    assert v / 0x1_0000 == v / 0x100 / 0x100;
  }

  lemma ValueRoundTrip32(s: seq<Byte>)
    requires |s| == 4
    ensures Bytes32(Value32(s)) == s
  {
    var v: int, w: int, x: int, y: int, z: int := Value32(s), s[0], s[1], s[2], s[3];
    LowDigit(v, w * 0x1_0000 + x * 0x100 + y, z);
    LowDigit(v / 0x100, w * 0x100 + x, y);
    LowDigit(v / 0x100 / 0x100, w, x);
    assert v / 0x1_0000 == v / 0x100 / 0x100 && v / 0x100_0000 == v / 0x100 / 0x100 / 0x100;
  }

  lemma HeaderBack(raw: seq<Byte>)
    requires |raw| == 12
    ensures HeaderBytes(HeaderOf(raw)) == raw
  {
    ValueRoundTrip16(raw[..2]);
    ValueRoundTrip16(raw[2..4]);
    ValueRoundTrip32(raw[4..8]);
    ValueRoundTrip32(raw[8..12]);
    assert raw == raw[..2] + raw[2..4] + raw[4..8] + raw[8..12];
  }

  lemma ResolutionBack(raw: seq<Byte>)
    requires |raw| == 2
    ensures
      var r := ResolutionOf(raw);
      r.compression < 2 && r.reserved < 0x80 && ResolutionBytes(r) == raw
  {
    var v: int, high: int, low: int := Value16(raw), raw[0], raw[1];
    LowDigit(v, high, low);
    assert v / 0x8000 == high / 0x80;
  }

  lemma CountersBack(raw: seq<Byte>)
    requires |raw| == 5
    ensures Bytes16(Value16(raw[..2])) + Bytes24(Value24(raw[2..])) == raw
  {
    ValueRoundTrip16(raw[..2]);
    ValueRoundTrip24(raw[2..]);
    assert raw == raw[..2] + raw[2..];
  }

  lemma RepeatedBack(raw: seq<Byte>, unit: nat)
    requires unit > 0 && raw != [] && |raw| == 1 + raw[0] * unit
    ensures |raw[1..]| % unit == 0 && |raw[1..]| / unit == raw[0] && RepeatedBytes(raw[1..], unit) == raw
  {
    Multiple(raw[0], unit);
  }

  lemma Multiple(q: nat, unit: nat)
    requires unit > 0
    ensures q * unit % unit == 0 && q * unit / unit == q
  {
    Modular.ModUnique(q * unit, q, 0, unit);
    assert (q * unit / unit - q) * unit == 0;
  }

  /** The part of a record that item `k` is made from. */
  predicate SameField(a: Record, b: Record, k: nat) {
    match k
    case 1 => a.sac == b.sac && a.sic == b.sic
    case 2 => a.messageType == b.messageType
    case 3 => a.msgIndex == b.msgIndex
    case 4 => a.summary == b.summary
    case 5 => a.nano == b.nano
    case 6 => a.femto == b.femto
    case 7 => a.resolution == b.resolution
    case 8 => a.counters == b.counters
    case 9 => a.low == b.low
    case 10 => a.medium == b.medium
    case 11 => a.high == b.high
    case 12 => a.time == b.time
    case 13 => a.re == b.re
    case _ => a.sp == b.sp
  }

  lemma SameFieldSameItem(a: Record, b: Record, k: nat)
    requires Encodable(a) && Encodable(b) && 1 <= k <= ITEMS && SameField(a, b, k)
    ensures Item(a, k) == Item(b, k)
  {
  }

  lemma PutKeepsField(r: Record, frn: nat, raw: seq<Byte>, k: nat)
    requires IsItem(frn, raw) && 1 <= k <= ITEMS && k != frn
    ensures SameField(Put(r, frn, raw), r, k)
  {
  }

  /** All other items stay. */
  lemma PutOthers(r: Record, frn: nat, raw: seq<Byte>, k: nat)
    requires Encodable(r) && IsItem(frn, raw) && Encodable(Put(r, frn, raw)) && 1 <= k <= ITEMS && k != frn
    ensures Item(Put(r, frn, raw), k) == Item(r, k)
  {
    PutKeepsField(r, frn, raw, k);
    SameFieldSameItem(Put(r, frn, raw), r, k);
  }

  /** `put` has `raw` as its item `frn`, and can be encoded. */
  ghost predicate Holds(put: Record, frn: nat, raw: seq<Byte>)
    requires 1 <= frn <= ITEMS
  {
    Encodable(put) && Item(put, frn) == Some(raw)
  }

  lemma PutFixed(r: Record, frn: nat, raw: seq<Byte>)
    requires Encodable(r) && IsItem(frn, raw) && frn in {1, 2, 3, 12}
    ensures Holds(Put(r, frn, raw), frn, raw)
  {
    match frn
    case 1 => assert raw == [raw[0], raw[1]];
    case 2 => assert raw == [raw[0]];
    case 3 => ValueRoundTrip32(raw);
    case _ => ValueRoundTrip24(raw);
  }

  lemma PutHeader(r: Record, frn: nat, raw: seq<Byte>)
    requires Encodable(r) && IsItem(frn, raw) && frn in {5, 6}
    ensures Holds(Put(r, frn, raw), frn, raw)
  {
    HeaderBack(raw);
  }

  lemma PutResolution(r: Record, raw: seq<Byte>)
    requires Encodable(r) && IsItem(7, raw)
    ensures Holds(r.(resolution := Some(ResolutionOf(raw))), 7, raw)
  {
    ResolutionBack(raw);
  }

  lemma PutCounters(r: Record, raw: seq<Byte>)
    requires Encodable(r) && IsItem(8, raw)
    ensures Holds(r.(counters := Some(Counters(Value16(raw[..2]), Value24(raw[2..])))), 8, raw)
  {
    CountersBack(raw);
  }

  lemma PutRepeated(r: Record, frn: nat, raw: seq<Byte>)
    requires Encodable(r) && IsItem(frn, raw) && frn in {4, 9, 10, 11, 13, 14}
    ensures Holds(Put(r, frn, raw), frn, raw)
  {
    match frn
    case 9 => RepeatedBack(raw, 4);
    case 10 => RepeatedBack(raw, 64);
    case 11 => RepeatedBack(raw, 256);
    case _ => RepeatedBack(raw, 1);
  }

  /** The item is in the record as it was, and the record still can be encoded. */
  lemma PutItem(r: Record, frn: nat, raw: seq<Byte>)
    requires Encodable(r) && IsItem(frn, raw)
    ensures Holds(Put(r, frn, raw), frn, raw)
  {
    match frn
    case 5 => PutHeader(r, frn, raw);
    case 6 => PutHeader(r, frn, raw);
    case 7 => PutResolution(r, raw);
    case 8 => PutCounters(r, raw);
    case 1 => PutFixed(r, frn, raw);
    case 2 => PutFixed(r, frn, raw);
    case 3 => PutFixed(r, frn, raw);
    case 12 => PutFixed(r, frn, raw);
    case _ => PutRepeated(r, frn, raw);
  }

  lemma {:induction false} SameItemsSameBody(a: Record, b: Record, k: nat)
    requires Encodable(a) && Encodable(b) && 1 <= k <= ITEMS + 1
    requires forall j :: k <= j <= ITEMS ==> Item(a, j) == Item(b, j)
    ensures Body(a, k) == Body(b, k)
    decreases ITEMS + 1 - k
  {
    if k <= ITEMS {
      assert Item(a, k) == Item(b, k);
      SameItemsSameBody(a, b, k + 1);
    }
  }

  // ----- The items of an accepted block

  /** `r` has, from `frn` on, exactly the items whose presence bits are set, and nothing before. */
  ghost predicate HasItems(r: Record, fspec1: Byte, fspec2: Byte, frn: nat)
    requires frn >= 1
  {
    && Encodable(r)
    && (forall k :: frn <= k <= ITEMS ==> Item(r, k).Some? == Present(fspec1, fspec2, k))
    && (forall k :: 3 <= k < frn && k <= ITEMS ==> Item(r, k).None?)
  }

  /** One turn of a walk that succeeds. */
  lemma WalkTurn(block: seq<Byte>, fspec1: Byte, fspec2: Byte, frn: nat, c: Progress) returns (next: Progress)
    requires 1 <= frn <= ITEMS && c.at <= |block|
    requires Walk(block, |block|, fspec1, fspec2, frn, ITEMS + 1, c).Done?
    ensures Walk(block, |block|, fspec1, fspec2, frn + 1, ITEMS + 1, next).Done?
    ensures c.at <= next.at <= |block|
    ensures if Present(fspec1, fspec2, frn) then IsItem(frn, block[c.at..next.at]) else frn >= 3 && next == c
  {
    next := c;
    if Present(fspec1, fspec2, frn) {
      TakenIsItem(block, |block|, frn, c);
      next := TakeItem(block, |block|, frn, c).next;
    }
    WalkOne(block, |block|, fspec1, fspec2, frn, c, next);
  }

  lemma {:induction false} DecodeItems(
    block: seq<Byte>, fspec1: Byte, fspec2: Byte, frn: nat, c: Progress) returns (r: Record, slack: seq<Byte>)
    requires 1 <= frn <= ITEMS + 1 && c.at <= |block|
    requires Walk(block, |block|, fspec1, fspec2, frn, ITEMS + 1, c).Done?
    ensures HasItems(r, fspec1, fspec2, frn) && block[c.at..] == Body(r, frn) + slack
    decreases ITEMS + 1 - frn
  {
    if frn == ITEMS + 1 {
      r, slack := EMPTY, block[c.at..];
    } else {
      var next := WalkTurn(block, fspec1, fspec2, frn, c);
      r, slack := DecodeItems(block, fspec1, fspec2, frn + 1, next);
      if Present(fspec1, fspec2, frn) {
        r := OneDecoded(r, block, fspec1, fspec2, frn, c.at, next.at, slack);
      } else {
        NoneDecoded(r, fspec1, fspec2, frn);
      }
    }
  }

  lemma NoneDecoded(r: Record, fspec1: Byte, fspec2: Byte, frn: nat)
    requires 3 <= frn <= ITEMS && !Present(fspec1, fspec2, frn) && HasItems(r, fspec1, fspec2, frn + 1)
    ensures HasItems(r, fspec1, fspec2, frn) && Body(r, frn) == Body(r, frn + 1)
  {
    assert Item(r, frn).None?;
  }

  lemma OneDecoded(later: Record, block: seq<Byte>, fspec1: Byte, fspec2: Byte, frn: nat, at: nat, next: nat,
                   slack: seq<Byte>) returns (r: Record)
    requires 1 <= frn <= ITEMS && at <= next <= |block| && IsItem(frn, block[at..next])
    requires Present(fspec1, fspec2, frn)
    requires HasItems(later, fspec1, fspec2, frn + 1) && block[next..] == Body(later, frn + 1) + slack
    ensures HasItems(r, fspec1, fspec2, frn) && block[at..] == Body(r, frn) + slack
  {
    var raw := block[at..next];
    r := Put(later, frn, raw);
    PutHas(later, fspec1, fspec2, frn, raw);
    PutBody(later, frn, raw);
    Prepend(block, at, next, Body(later, frn + 1), slack);
  }

  lemma Prepend(block: seq<Byte>, at: nat, next: nat, later: seq<Byte>, slack: seq<Byte>)
    requires at <= next <= |block| && block[next..] == later + slack
    ensures block[at..] == block[at..next] + later + slack
  {
    assert block[at..] == block[at..next] + block[next..];
  }

  lemma PutHas(later: Record, fspec1: Byte, fspec2: Byte, frn: nat, raw: seq<Byte>)
    requires IsItem(frn, raw) && Present(fspec1, fspec2, frn) && HasItems(later, fspec1, fspec2, frn + 1)
    ensures HasItems(Put(later, frn, raw), fspec1, fspec2, frn)
  {
    PutItem(later, frn, raw);
    forall k | 1 <= k <= ITEMS && k != frn ensures Item(Put(later, frn, raw), k) == Item(later, k) {
      PutOthers(later, frn, raw, k);
    }
  }

  lemma PutBody(later: Record, frn: nat, raw: seq<Byte>)
    requires Encodable(later) && IsItem(frn, raw) && Encodable(Put(later, frn, raw))
    ensures Body(Put(later, frn, raw), frn) == raw + Body(later, frn + 1)
  {
    var put := Put(later, frn, raw);
    PutItem(later, frn, raw);
    forall k | frn < k <= ITEMS ensures Item(put, k) == Item(later, k) {
      PutOthers(later, frn, raw, k);
    }
    SameItemsSameBody(put, later, frn + 1);
    BodyPresent(put, frn);
  }

  // ----- The field specification

  lemma ByteFromBits(b: Byte, bits: seq<bool>)
    requires |bits| == 8 && forall k :: 0 <= k < 8 ==> bits[k] == Bit(b, 7 - k)
    ensures ByteOf(bits) == b
  {
    forall k | 0 <= k < 8 ensures BitsOf(b, 8)[k] == bits[k] { BitsOfAt(b, 8, k); }
    assert BitsOf(b, 8) == bits;
    assert Power2(8) == 4 * Power2(6) == 16 * Power2(4) == 64 * Power2(2) == 0x100;
    FromBitsOf(b, 8);
  }

  lemma FirstByte(r: Record, fspec1: Byte, fspec2: Byte)
    requires HasItems(r, fspec1, fspec2, 1)
    ensures ByteOf(Presence(r, 1, Bit(fspec1, 0))) == fspec1
  {
    var bits := Presence(r, 1, Bit(fspec1, 0));
    forall k | 0 <= k < 8 ensures bits[k] == Bit(fspec1, 7 - k) {
      if k < 7 { assert Item(r, 1 + k).Some? == Present(fspec1, fspec2, 1 + k); }
    }
    ByteFromBits(fspec1, bits);
  }

  lemma SecondByte(r: Record, fspec1: Byte, fspec2: Byte)
    requires HasItems(r, fspec1, fspec2, 1) && !Bit(fspec2, 0)
    ensures ByteOf(Presence(r, 8, false)) == fspec2
  {
    var bits := Presence(r, 8, false);
    forall k | 0 <= k < 8 ensures bits[k] == Bit(fspec2, 7 - k) {
      if k < 7 { assert Item(r, 8 + k).Some? == Present(fspec1, fspec2, 8 + k); }
    }
    ByteFromBits(fspec2, bits);
  }

  // ----- The whole block

  /** `data` begins with an encoding of `r`. */
  ghost predicate IsEncoding(data: seq<Byte>, r: Record, extended: bool, slack: seq<Byte>) {
    Admissible(r, extended, slack)
    && EncodedLength(r, extended, slack) <= |data|
    && data[..EncodedLength(r, extended, slack)] == Encode(r, extended, slack)
  }

  /** The parts of a block, put together. */
  lemma BlockOf(block: seq<Byte>, length: Word, fspec: seq<Byte>, body: seq<Byte>)
    requires |block| == length == 3 + |fspec| + |body|
    requires block[0] == CATEGORY && BigEndian(block, 1) == length
    requires block[3..3 + |fspec|] == fspec && block[3 + |fspec|..] == body
    ensures block == [CATEGORY] + Bytes16(length) + fspec + body
  {
    assert block[1..3] == [block[1], block[2]];
    ValueRoundTrip16(block[1..3]);
    assert block == block[..1] + block[1..3] + block[3..3 + |fspec|] + block[3 + |fspec|..];
  }

  lemma Assemble(block: seq<Byte>, r: Record, extended: bool, slack: seq<Byte>)
    requires 4 <= |block| < 0x1_0000 && block[0] == CATEGORY && BigEndian(block, 1) == |block|
    requires Encodable(r) && (NeedsSecondByte(r) ==> extended)
    requires
      var end := 3 + |FieldSpec(r, extended)|;
      end <= |block| && block[3..end] == FieldSpec(r, extended) && block[end..] == Body(r, 1) + slack
    ensures IsEncoding(block, r, extended, slack)
  {
    var fspec, body := FieldSpec(r, extended), Body(r, 1) + slack;
    assert |block| == 3 + |fspec| + |body| == EncodedLength(r, extended, slack);
    BlockOf(block, |block|, fspec, body);
    assert block[..|block|] == block;
  }

  lemma DecodeShort(block: seq<Byte>) returns (r: Record, slack: seq<Byte>)
    requires 4 <= |block| < 0x1_0000 && block[0] == CATEGORY && BigEndian(block, 1) == |block|
    requires ParseItems(block, |block|).outcome.Accepted? && !Bit(block[3], 0)
    ensures IsEncoding(block, r, false, slack)
  {
    r, slack := DecodeItems(block, block[3], 0, 1, Progress(4, 4, CLEARED));
    NoSecondItems(r, block[3]);
    assert block[3..4] == FieldSpec(r, false) by { FirstByte(r, block[3], 0); }
    Assemble(block, r, false, slack);
  }

  lemma NoSecondItems(r: Record, fspec1: Byte)
    requires HasItems(r, fspec1, 0, 1)
    ensures !NeedsSecondByte(r)
  {
    forall k | 8 <= k <= ITEMS ensures Item(r, k).None? {
      ZeroBits(15 - k);
      assert Item(r, k).Some? == Present(fspec1, 0, k);
    }
  }

  lemma DecodeLong(block: seq<Byte>) returns (r: Record, slack: seq<Byte>)
    requires 4 <= |block| < 0x1_0000 && block[0] == CATEGORY && BigEndian(block, 1) == |block|
    requires ParseItems(block, |block|).outcome.Accepted? && Bit(block[3], 0)
    ensures IsEncoding(block, r, true, slack)
  {
    r, slack := DecodeItems(block, block[3], block[4], 1, Progress(5, 5, CLEARED));
    LongFieldSpec(r, block[3], block[4]);
    assert block[3..5] == FieldSpec(r, true);
    Assemble(block, r, true, slack);
  }

  lemma LongFieldSpec(r: Record, fspec1: Byte, fspec2: Byte)
    requires HasItems(r, fspec1, fspec2, 1) && Bit(fspec1, 0) && !Bit(fspec2, 0)
    ensures FieldSpec(r, true) == [fspec1, fspec2]
  {
    FirstByte(r, fspec1, fspec2);
    SecondByte(r, fspec1, fspec2);
  }

  lemma AcceptedIsEncoding(data: seq<Byte>) returns (r: Record, extended: bool, slack: seq<Byte>)
    requires TableParse(data).outcome.Accepted? && BigEndian(data, 1) != 3
    ensures IsEncoding(data, r, extended, slack)
  {
    var block := data[..BigEndian(data, 1)];
    assert block[..|block|] == block;
    ItemsSame(data, block, |block|);
    assert block[0] == data[0] && block[1] == data[1] && block[2] == data[2];
    extended := Bit(block[3], 0);
    if extended {
      r, slack := DecodeLong(block);
    } else {
      r, slack := DecodeShort(block);
    }
  }

  /**
    Apart from blocks that announce three bytes, the parser accepts exactly the inputs that begin with
    an encoded message; bytes of the block that belong to no item may follow its last item.
  */
  lemma AcceptedIffEncoding(data: seq<Byte>)
    ensures TableParse(data).outcome.Accepted? && BigEndian(data, 1) != 3
      <==> exists r: Record, extended: bool, slack: seq<Byte> :: IsEncoding(data, r, extended, slack)
  {
    if TableParse(data).outcome.Accepted? && BigEndian(data, 1) != 3 {
      var r, extended, slack := AcceptedIsEncoding(data);
    }
    if r: Record, extended: bool, slack: seq<Byte> :| IsEncoding(data, r, extended, slack) {
      EncodingIsAccepted(data, r, extended, slack);
    }
  }

  lemma EncodingIsAccepted(data: seq<Byte>, r: Record, extended: bool, slack: seq<Byte>)
    requires IsEncoding(data, r, extended, slack)
    ensures TableParse(data).outcome.Accepted? && BigEndian(data, 1) != 3
  {
    var block := Encode(r, extended, slack);
    assert data == block + data[|block|..];
    RoundTrip(r, extended, slack, data[|block|..]);
    EncodedParts(r, extended, slack);
    assert data[1] == block[1] && data[2] == block[2];
  }
}
