/**
  Encoding a category 240 message by EUROCONTROL-SPEC-0149-240, section 5, and parsing it again. As
  in the parser, the length byte of RE and SP does not count itself.
*/
module Cat240RoundTrip {
  import opened MachineTypes
  import opened Cat240Bytes
  import opened Cat240Table

  /** The content of a message. Up to three video blocks may be present; the parser keeps the last. */
  datatype Record = Record(
    sac: Byte, sic: Byte,
    messageType: Byte,
    msgIndex: Option<Word32>,
    summary: Option<seq<Byte>>,
    nano: Option<Header>,
    femto: Option<Header>,
    resolution: Option<Resolution>,
    counters: Option<Counters>,
    low: Option<seq<Byte>>,
    medium: Option<seq<Byte>>,
    high: Option<seq<Byte>>,
    time: Option<Word32>,
    re: Option<seq<Byte>>,
    sp: Option<seq<Byte>>)

  ghost predicate Repetitions(content: Option<seq<Byte>>, unit: nat)
    requires unit > 0
  {
    content.Some? ==> |content.value| % unit == 0 && |content.value| / unit < 0x100
  }

  /** The values fit the widths of the specification. */
  ghost predicate Encodable(r: Record) {
    && Repetitions(r.summary, 1)
    && (r.resolution.Some? ==> r.resolution.value.compression < 2 && r.resolution.value.reserved < 0x80)
    && (r.counters.Some? ==> r.counters.value.nbCells < 0x100_0000)
    && Repetitions(r.low, 4) && Repetitions(r.medium, 64) && Repetitions(r.high, 256)
    && (r.time.Some? ==> r.time.value < 0x100_0000)
    && Repetitions(r.re, 1) && Repetitions(r.sp, 1)
  }

  // ----- Encoding

  function HeaderBytes(h: Header): (s: seq<Byte>)
    ensures |s| == 12
  {
    Bytes16(h.startAz) + Bytes16(h.endAz) + Bytes32(h.startRg) + Bytes32(h.cellDur)
  }

  function RepeatedBytes(content: seq<Byte>, unit: nat): seq<Byte>
    requires unit > 0 && |content| / unit < 0x100
  {
    [|content| / unit] + content
  }

  function ResolutionBytes(r: Resolution): (s: seq<Byte>)
    requires r.compression < 2 && r.reserved < 0x80
    ensures |s| == 2
  {
    [r.compression * 0x80 + r.reserved, r.resolution]
  }

  function Item(r: Record, frn: nat): (raw: Option<seq<Byte>>)
    requires Encodable(r) && 1 <= frn <= ITEMS
  {
    match frn
    case 1 => Some([r.sac, r.sic])
    case 2 => Some([r.messageType])
    case 3 => (match r.msgIndex case None => None case Some(v) => Some(Bytes32(v)))
    case 4 => (match r.summary case None => None case Some(t) => Some(RepeatedBytes(t, 1)))
    case 5 => (match r.nano case None => None case Some(h) => Some(HeaderBytes(h)))
    case 6 => (match r.femto case None => None case Some(h) => Some(HeaderBytes(h)))
    case 7 => (match r.resolution case None => None case Some(v) => Some(ResolutionBytes(v)))
    case 8 => (match r.counters case None => None case Some(c) => Some(Bytes16(c.nbVb) + Bytes24(c.nbCells)))
    case 9 => (match r.low case None => None case Some(b) => Some(RepeatedBytes(b, 4)))
    case 10 => (match r.medium case None => None case Some(b) => Some(RepeatedBytes(b, 64)))
    case 11 => (match r.high case None => None case Some(b) => Some(RepeatedBytes(b, 256)))
    case 12 => (match r.time case None => None case Some(v) => Some(Bytes24(v)))
    case 13 => (match r.re case None => None case Some(b) => Some(RepeatedBytes(b, 1)))
    case _ => (match r.sp case None => None case Some(b) => Some(RepeatedBytes(b, 1)))
  }

  /** The items from `frn` on. */
  function Body(r: Record, frn: nat): seq<Byte>
    requires Encodable(r) && 1 <= frn <= ITEMS + 1
    decreases ITEMS + 1 - frn
  {
    if frn > ITEMS then []
    else (match Item(r, frn) case None => [] case Some(raw) => raw) + Body(r, frn + 1)
  }

  lemma BodyPresent(r: Record, frn: nat)
    requires Encodable(r) && 1 <= frn <= ITEMS && Item(r, frn).Some?
    ensures Body(r, frn) == Item(r, frn).value + Body(r, frn + 1)
  {
  }

  /** The bits of one field specification byte: seven items from `first` on, then the extension bit. */
  function Presence(r: Record, first: nat, last: bool): (bits: seq<bool>)
    requires Encodable(r) && 1 <= first <= 8
    ensures |bits| == 8
  {
    seq(8, k requires 0 <= k < 8 => if k == 7 then last else Item(r, first + k).Some?)
  }

  /** Some item of the second field specification byte is present. */
  predicate NeedsSecondByte(r: Record)
    requires Encodable(r)
  {
    exists frn :: 8 <= frn <= ITEMS && Item(r, frn).Some?
  }

  function FieldSpec(r: Record, extended: bool): (f: seq<Byte>)
    requires Encodable(r)
    ensures |f| == if extended then 2 else 1
  {
    [ByteOf(Presence(r, 1, extended))] + if extended then [ByteOf(Presence(r, 8, false))] else []
  }

  function EncodedLength(r: Record, extended: bool, slack: seq<Byte>): nat
    requires Encodable(r)
  {
    3 + |FieldSpec(r, extended)| + |Body(r, 1)| + |slack|
  }

  /** The second field specification byte may be left out when it is not needed; the length must fit 16 bits. */
  ghost predicate Admissible(r: Record, extended: bool, slack: seq<Byte>) {
    && Encodable(r)
    && (NeedsSecondByte(r) ==> extended)
    && EncodedLength(r, extended, slack) < 0x1_0000
  }

  /** The block: category, length, field specification, items in FRN order, and bytes that belong to no item. */
  function Encode(r: Record, extended: bool, slack: seq<Byte>): (block: seq<Byte>)
    requires Encodable(r) && EncodedLength(r, extended, slack) < 0x1_0000
    ensures |block| == EncodedLength(r, extended, slack)
  {
    [CATEGORY] + Bytes16(EncodedLength(r, extended, slack)) + FieldSpec(r, extended) + (Body(r, 1) + slack)
  }

  // ----- What the parser should report

  /** The last video block among the items before `frn`. */
  function LastVideo(r: Record, frn: nat): Option<(BlockKind, seq<Byte>)> {
    if frn > 11 && r.high.Some? then Some((High, r.high.value))
    else if frn > 10 && r.medium.Some? then Some((Medium, r.medium.value))
    else if frn > 9 && r.low.Some? then Some((Low, r.low.value))
    else None
  }

  ghost predicate VideoIs(video: Option<VideoBlock>, block: seq<Byte>, expected: Option<(BlockKind, seq<Byte>)>) {
    && (video.Some? <==> expected.Some?)
    && (video.Some? ==>
          var v := video.value;
          && v.kind == expected.value.0
          && v.rep == |expected.value.1| / UnitOf(v.kind)
          && v.start + v.size <= |block|
          && block[v.start..v.start + v.size] == expected.value.1)
  }

  function LengthOf(content: Option<seq<Byte>>): Option<int> {
    match content case None => None case Some(b) => Some(|b|)
  }

  /** The message reports the items before `frn` as in `r`, and no later ones. */
  ghost predicate Describes(m: Message, block: seq<Byte>, r: Record, frn: nat) {
    && (frn > 1 ==> m.sac == r.sac && m.sic == r.sic)
    && (frn > 2 ==> m.messageType == r.messageType)
    && m.msgIndex == (if frn > 3 then r.msgIndex else None)
    && (m.summary.Some? <==> frn > 4 && r.summary.Some?)
    && (m.summary.Some? ==> m.summary.value.rep == |r.summary.value| && m.summary.value.text == r.summary.value)
    && m.nano == (if frn > 5 then r.nano else None)
    && m.femto == (if frn > 6 then r.femto else None)
    && m.resolution == (if frn > 7 then r.resolution else None)
    && m.counters == (if frn > 8 then r.counters else None)
    && VideoIs(m.video, block, LastVideo(r, frn))
    && m.time == (if frn > 12 then r.time else None)
    && m.reLength == (if frn > 13 then LengthOf(r.re) else None)
    && m.spLength == (if frn > 14 then LengthOf(r.sp) else None)
  }

  // ----- Each item, encoded and stored

  lemma HeaderRoundTrip(h: Header)
    ensures HeaderOf(HeaderBytes(h)) == h
  {
    var raw := HeaderBytes(h);
    FourParts(Bytes16(h.startAz), Bytes16(h.endAz), Bytes32(h.startRg), Bytes32(h.cellDur));
    assert raw[..2] == Bytes16(h.startAz);
    BytesRoundTrip16(h.startAz);
    BytesRoundTrip16(h.endAz);
    BytesRoundTrip32(h.startRg);
    BytesRoundTrip32(h.cellDur);
  }

  lemma FourParts(a: seq<Byte>, b: seq<Byte>, c: seq<Byte>, d: seq<Byte>)
    ensures
      var whole := a + b + c + d;
      && whole[..|a|] == a
      && whole[|a|..|a| + |b|] == b
      && whole[|a| + |b|..|a| + |b| + |c|] == c
      && whole[|a| + |b| + |c|..|whole|] == d
  {
    var ab, abc := a + b, a + b + c;
    assert abc + d == a + b + c + d && ab + c == abc;
    assert (abc + d)[..|abc|] == abc && abc[..|ab|] == ab;
    assert abc[|ab|..] == c && ab[|a|..] == b;
  }

  lemma ResolutionRoundTrip(r: Resolution)
    requires r.compression < 2 && r.reserved < 0x80
    ensures ResolutionOf(ResolutionBytes(r)) == r
  {
    var c: int, v: int, low: int := r.compression, r.reserved, r.resolution;
    var word := c * 0x8000 + v * 0x100 + low;
    assert Value16(ResolutionBytes(r)) == word;
    assert word / 0x100 == c * 0x80 + v && word % 0x100 == low && word / 0x8000 == c;
  }

  lemma CountersRoundTrip(c: Counters)
    requires c.nbCells < 0x100_0000
    ensures
      var raw := Bytes16(c.nbVb) + Bytes24(c.nbCells);
      |raw| == 5 && Value16(raw[..2]) == c.nbVb && Value24(raw[2..]) == c.nbCells
  {
    var raw := Bytes16(c.nbVb) + Bytes24(c.nbCells);
    assert raw[..2] == Bytes16(c.nbVb) && raw[2..] == Bytes24(c.nbCells);
    BytesRoundTrip16(c.nbVb);
    BytesRoundTrip24(c.nbCells);
  }

  lemma RepeatedIsItem(content: seq<Byte>, unit: nat)
    requires unit > 0 && |content| % unit == 0 && |content| / unit < 0x100
    ensures
      var raw := RepeatedBytes(content, unit);
      |raw| == 1 + raw[0] * unit && raw[1..] == content
  {
    assert |content| == |content| / unit * unit;
  }

  /** An encoded item is a whole item of its type. */
  lemma ItemIsItem(r: Record, frn: nat)
    requires Encodable(r) && 1 <= frn <= ITEMS && Item(r, frn).Some?
    ensures IsItem(frn, Item(r, frn).value)
  {
    match frn
    case 4 => RepeatedIsItem(r.summary.value, 1);
    case 9 => RepeatedIsItem(r.low.value, 4);
    case 10 => RepeatedIsItem(r.medium.value, 64);
    case 11 => RepeatedIsItem(r.high.value, 256);
    case 13 => RepeatedIsItem(r.re.value, 1);
    case 14 => RepeatedIsItem(r.sp.value, 1);
    case _ =>
  }

  /** A whole item inside the block is taken as such, whatever follows it... */
  lemma TakeWhole(data: seq<Byte>, limit: nat, frn: nat, raw: seq<Byte>, c: Progress)
    requires IsItem(frn, raw) && c.at + |raw| <= limit <= |data| && data[c.at..c.at + |raw|] == raw
    ensures
      var read := ReadPart(frn, raw);
      TakeItem(data, limit, frn, c) == Done(Progress(c.at + |raw|, c.at + |read|, Store(frn, c.at, read, c.msg)))
  {
    var read := ReadPart(frn, raw);
    if raw != [] { assert data[c.at] == raw[0]; }
    assert data[c.at..c.at + |read|] == read by { assert read == raw[..|read|]; }
  }

  /** ...and whatever is taken inside the block is a whole item. */
  lemma TakenIsItem(data: seq<Byte>, limit: nat, frn: nat, c: Progress)
    requires 1 <= frn <= ITEMS && c.at <= limit <= |data| && TakeItem(data, limit, frn, c).Done?
    ensures
      var next := TakeItem(data, limit, frn, c).next;
      c.at <= next.at <= limit && IsItem(frn, data[c.at..next.at])
  {
  }

  lemma StoreFirstItems(r: Record, frn: nat, at: nat, block: seq<Byte>, m: Message)
    requires Encodable(r) && 1 <= frn <= 8 && Item(r, frn).Some?
    requires IsItem(frn, Item(r, frn).value)
    requires at + |Item(r, frn).value| <= |block| && block[at..at + |Item(r, frn).value|] == Item(r, frn).value
    requires Describes(m, block, r, frn)
    ensures Describes(Store(frn, at, ReadPart(frn, Item(r, frn).value), m), block, r, frn + 1)
  {
    match frn
    case 3 => BytesRoundTrip32(r.msgIndex.value);
    case 4 => RepeatedIsItem(r.summary.value, 1);
    case 5 => HeaderRoundTrip(r.nano.value);
    case 6 => HeaderRoundTrip(r.femto.value);
    case 7 => ResolutionRoundTrip(r.resolution.value);
    case 8 => CountersRoundTrip(r.counters.value);
    case _ =>
  }

  lemma StoreVideoItems(r: Record, frn: nat, at: nat, block: seq<Byte>, m: Message)
    requires Encodable(r) && 9 <= frn <= 11 && Item(r, frn).Some?
    requires IsItem(frn, Item(r, frn).value)
    requires at + |Item(r, frn).value| <= |block| && block[at..at + |Item(r, frn).value|] == Item(r, frn).value
    requires Describes(m, block, r, frn)
    ensures Describes(Store(frn, at, ReadPart(frn, Item(r, frn).value), m), block, r, frn + 1)
  {
    match frn
    case 9 => StoreVideo(r, frn, Low, r.low.value, at, block, m);
    case 10 => StoreVideo(r, frn, Medium, r.medium.value, at, block, m);
    case _ => StoreVideo(r, frn, High, r.high.value, at, block, m);
  }

  lemma StoreVideo(
    r: Record, frn: nat, kind: BlockKind, content: seq<Byte>, at: nat, block: seq<Byte>, m: Message)
    requires 9 <= frn <= 11 && kind == KindOf(frn) && LastVideo(r, frn + 1) == Some((kind, content))
    requires |content| % UnitOf(kind) == 0 && |content| / UnitOf(kind) < 0x100
    requires IsItem(frn, RepeatedBytes(content, UnitOf(kind)))
    requires
      var raw := RepeatedBytes(content, UnitOf(kind));
      at + |raw| <= |block| && block[at..at + |raw|] == raw
    requires Describes(m, block, r, frn)
    ensures Describes(Store(frn, at, ReadPart(frn, RepeatedBytes(content, UnitOf(kind))), m), block, r, frn + 1)
  {
    var v := StoredVideo(content, kind, at, block);
    VideoDescribes(m, block, r, frn, v);
  }

  lemma VideoDescribes(m: Message, block: seq<Byte>, r: Record, frn: nat, v: VideoBlock)
    requires 9 <= frn <= 11 && Describes(m, block, r, frn)
    requires VideoIs(Some(v), block, LastVideo(r, frn + 1))
    ensures Describes(m.(video := Some(v)), block, r, frn + 1)
  {
  }

  lemma StoreTrailingItems(r: Record, frn: nat, at: nat, block: seq<Byte>, m: Message)
    requires Encodable(r) && 12 <= frn <= ITEMS && Item(r, frn).Some?
    requires IsItem(frn, Item(r, frn).value)
    requires at + |Item(r, frn).value| <= |block| && block[at..at + |Item(r, frn).value|] == Item(r, frn).value
    requires Describes(m, block, r, frn)
    ensures Describes(Store(frn, at, ReadPart(frn, Item(r, frn).value), m), block, r, frn + 1)
  {
    if frn == 12 { BytesRoundTrip24(r.time.value); }
  }

  /** Storing an encoded item extends what the message reports by that item. */
  lemma StoreDescribes(r: Record, frn: nat, at: nat, block: seq<Byte>, m: Message)
    requires Encodable(r) && 1 <= frn <= ITEMS && Item(r, frn).Some?
    requires IsItem(frn, Item(r, frn).value)
    requires at + |Item(r, frn).value| <= |block| && block[at..at + |Item(r, frn).value|] == Item(r, frn).value
    requires Describes(m, block, r, frn)
    ensures Describes(Store(frn, at, ReadPart(frn, Item(r, frn).value), m), block, r, frn + 1)
  {
    if frn <= 8 {
      StoreFirstItems(r, frn, at, block, m);
    } else if frn <= 11 {
      StoreVideoItems(r, frn, at, block, m);
    } else {
      StoreTrailingItems(r, frn, at, block, m);
    }
  }

  /** The stored position is that of the content behind the repetition byte. */
  lemma StoredVideo(content: seq<Byte>, kind: BlockKind, at: nat, block: seq<Byte>) returns (v: VideoBlock)
    requires |content| % UnitOf(kind) == 0 && |content| / UnitOf(kind) < 0x100
    requires
      var raw := RepeatedBytes(content, UnitOf(kind));
      at + |raw| <= |block| && block[at..at + |raw|] == raw
    ensures v == VideoBlock(kind, |content| / UnitOf(kind), at + 1, |content|)
    ensures VideoIs(Some(v), block, Some((kind, content)))
  {
    var raw := RepeatedBytes(content, UnitOf(kind));
    assert block[at + 1..at + 1 + |content|] == block[at..at + |raw|][1..];
    v := VideoBlock(kind, |content| / UnitOf(kind), at + 1, |content|);
  }

  lemma SkipDescribes(r: Record, frn: nat, block: seq<Byte>, m: Message)
    requires Encodable(r) && 1 <= frn <= ITEMS && Item(r, frn).None?
    requires Describes(m, block, r, frn)
    ensures Describes(m, block, r, frn + 1) && Body(r, frn) == Body(r, frn + 1) && frn >= 3
  {
  }

  // ----- The whole message

  /** The walk takes an encoded item as it was encoded. */
  lemma TakeEncoded(r: Record, block: seq<Byte>, frn: nat, slack: seq<Byte>, c: Progress)
    requires Encodable(r) && 1 <= frn <= ITEMS && c.at <= |block| && Item(r, frn).Some?
    requires block[c.at..] == Body(r, frn) + slack
    ensures
      var raw := Item(r, frn).value;
      && c.at + |raw| <= |block| && block[c.at..c.at + |raw|] == raw
      && block[c.at + |raw|..] == Body(r, frn + 1) + slack
  {
    BodyPresent(r, frn);
    CutItem(block, c.at, Body(r, frn), Item(r, frn).value, Body(r, frn + 1), slack);
  }

  lemma CutItem(block: seq<Byte>, at: nat, body: seq<Byte>, raw: seq<Byte>, later: seq<Byte>, slack: seq<Byte>)
    requires at <= |block| && block[at..] == body + slack && body == raw + later
    ensures at + |raw| <= |block| && block[at..at + |raw|] == raw && block[at + |raw|..] == later + slack
  {
    assert raw + later + slack == raw + (later + slack);
    CutFront(block, at, raw, later + slack);
  }

  lemma CutFront(block: seq<Byte>, at: nat, front: seq<Byte>, rest: seq<Byte>)
    requires at <= |block| && block[at..] == front + rest
    ensures at + |front| <= |block| && block[at..at + |front|] == front && block[at + |front|..] == rest
  {
    assert |block[at..]| == |block| - at;
    assert block[at..at + |front|] == block[at..][..|front|];
    assert block[at + |front|..] == block[at..][|front|..];
  }

  lemma {:induction false} WalkEncoded(
    r: Record, fspec1: Byte, fspec2: Byte, block: seq<Byte>, frn: nat, slack: seq<Byte>, c: Progress)
    requires Encodable(r) && 1 <= frn <= ITEMS + 1 && c.at <= |block|
    requires forall k :: 1 <= k <= ITEMS ==> Present(fspec1, fspec2, k) == Item(r, k).Some?
    requires block[c.at..] == Body(r, frn) + slack
    requires Describes(c.msg, block, r, frn)
    ensures
      var w := Walk(block, |block|, fspec1, fspec2, frn, ITEMS + 1, c);
      w.Done? && Describes(w.next.msg, block, r, ITEMS + 1)
    decreases ITEMS + 1 - frn
  {
    if frn <= ITEMS {
      assert Present(fspec1, fspec2, frn) == Item(r, frn).Some?;
      var next := c;
      if Item(r, frn).Some? {
        next := OneEncoded(r, block, frn, slack, c);
      } else {
        SkipDescribes(r, frn, block, c.msg);
      }
      WalkOne(block, |block|, fspec1, fspec2, frn, c, next);
      WalkEncoded(r, fspec1, fspec2, block, frn + 1, slack, next);
    }
  }

  /** One turn of the walk over an encoded message, for an item that is present. */
  lemma OneEncoded(r: Record, block: seq<Byte>, frn: nat, slack: seq<Byte>, c: Progress) returns (next: Progress)
    requires Encodable(r) && 1 <= frn <= ITEMS && c.at <= |block| && Item(r, frn).Some?
    requires block[c.at..] == Body(r, frn) + slack
    requires Describes(c.msg, block, r, frn)
    ensures next.at <= |block| && block[next.at..] == Body(r, frn + 1) + slack
    ensures Describes(next.msg, block, r, frn + 1)
    ensures TakeItem(block, |block|, frn, c) == Done(next)
  {
    var raw := Item(r, frn).value;
    TakeEncoded(r, block, frn, slack, c);
    assert IsItem(frn, raw) by { ItemIsItem(r, frn); }
    next := StoreEncoded(r, block, frn, raw, c);
  }

  lemma StoreEncoded(r: Record, block: seq<Byte>, frn: nat, raw: seq<Byte>, c: Progress) returns (next: Progress)
    requires Encodable(r) && 1 <= frn <= ITEMS && Item(r, frn) == Some(raw) && IsItem(frn, raw)
    requires c.at + |raw| <= |block| && block[c.at..c.at + |raw|] == raw
    requires Describes(c.msg, block, r, frn)
    ensures next.at == c.at + |raw| && TakeItem(block, |block|, frn, c) == Done(next)
    ensures Describes(next.msg, block, r, frn + 1)
  {
    TakeWhole(block, |block|, frn, raw, c);
    StoreDescribes(r, frn, c.at, block, c.msg);
    var read := ReadPart(frn, raw);
    next := Progress(c.at + |raw|, c.at + |read|, Store(frn, c.at, read, c.msg));
  }

  lemma PresenceAt(r: Record, first: nat, last: bool, k: nat)
    requires Encodable(r) && 1 <= first <= 8 && k < 8
    ensures Bit(ByteOf(Presence(r, first, last)), 7 - k) == Presence(r, first, last)[k]
  {
    BitsRoundTrip(Presence(r, first, last), k);
  }

  lemma PresenceBits(r: Record, extended: bool, fspec1: Byte, fspec2: Byte)
    requires Encodable(r) && (NeedsSecondByte(r) ==> extended)
    requires fspec1 == ByteOf(Presence(r, 1, extended))
    requires fspec2 == if extended then ByteOf(Presence(r, 8, false)) else 0
    ensures forall k :: 1 <= k <= ITEMS ==> Present(fspec1, fspec2, k) == Item(r, k).Some?
    ensures Bit(fspec1, 0) == extended && !Bit(fspec2, 0)
  {
    forall k | 1 <= k <= ITEMS ensures Present(fspec1, fspec2, k) == Item(r, k).Some? {
      if k <= 7 {
        PresenceAt(r, 1, extended, k - 1);
      } else if extended {
        PresenceAt(r, 8, false, k - 8);
      } else {
        ZeroBits(15 - k);
      }
    }
    PresenceAt(r, 1, extended, 7);
    if extended { PresenceAt(r, 8, false, 7); }
  }

  /** Where the parts of an encoded block are. */
  lemma EncodedParts(r: Record, extended: bool, slack: seq<Byte>)
    requires Encodable(r) && EncodedLength(r, extended, slack) < 0x1_0000
    ensures
      var block := Encode(r, extended, slack);
      && |block| >= (if extended then 5 else 4)
      && block[0] == CATEGORY && BigEndian(block, 1) == |block|
      && block[3] == FieldSpec(r, extended)[0]
      && (extended ==> block[4] == FieldSpec(r, extended)[1])
      && block[if extended then 5 else 4..] == Body(r, 1) + slack
  {
    Parts(EncodedLength(r, extended, slack), FieldSpec(r, extended), Body(r, 1) + slack);
  }

  lemma Parts(length: Word, fspec: seq<Byte>, body: seq<Byte>)
    requires fspec != []
    ensures
      var block := [CATEGORY] + Bytes16(length) + fspec + body;
      && block[0] == CATEGORY && BigEndian(block, 1) == length
      && (forall i :: 0 <= i < |fspec| ==> block[3 + i] == fspec[i])
      && block[3 + |fspec|..] == body
  {
    var block := [CATEGORY] + Bytes16(length) + fspec + body;
    assert block[1] == Bytes16(length)[0] && block[2] == Bytes16(length)[1];
    BytesRoundTrip16(length);
  }

  lemma EncodedItems(r: Record, extended: bool, slack: seq<Byte>)
    requires Admissible(r, extended, slack)
    ensures
      var block := Encode(r, extended, slack);
      var parsed := ParseItems(block, |block|);
      |block| >= 4 && parsed.outcome.Accepted? && Describes(parsed.outcome.msg, block, r, ITEMS + 1)
  {
    var block := Encode(r, extended, slack);
    var start := if extended then 5 else 4;
    var fspec1 := FieldSpec(r, extended)[0];
    var fspec2 := if extended then FieldSpec(r, extended)[1] else 0;
    EncodedParts(r, extended, slack);
    PresenceBits(r, extended, fspec1, fspec2);
    WalkEncoded(r, fspec1, fspec2, block, 1, slack, Progress(start, start, CLEARED));
  }

  /**
    Round trip: every encodable message that fits a 16-bit length, with or without a second field
    specification byte where that is optional, with any slack inside its block and any bytes behind it,
    is accepted, and the parser reports exactly its fields; the video block it reports is the last one
    present.
  */
  lemma RoundTrip(r: Record, extended: bool, slack: seq<Byte>, behind: seq<Byte>)
    requires Admissible(r, extended, slack)
    ensures
      var block := Encode(r, extended, slack);
      var outcome := TableParse(block + behind).outcome;
      && block[0] == 240 && BigEndian(block, 1) == |block|
      && outcome.Accepted? && Describes(outcome.msg, block, r, ITEMS + 1)
  {
    var block := Encode(r, extended, slack);
    EncodedParts(r, extended, slack);
    EncodedItems(r, extended, slack);
    assert (block + behind)[..|block|] == block == block[..|block|];
    ItemsSame(block, block + behind, |block|);
    HeaderSame(block, behind);
  }

  lemma HeaderSame(block: seq<Byte>, behind: seq<Byte>)
    requires |block| >= 4 && block[0] == CATEGORY && BigEndian(block, 1) == |block|
    ensures TableParse(block + behind) == ParseItems(block + behind, |block|)
  {
    var data := block + behind;
    assert data[0] == block[0] && data[1] == block[1] && data[2] == block[2];
  }
}
