/**
  Category 240 messages (EUROCONTROL-SPEC-0149-240, section 5) and a parser driven by a table of
  fourteen item descriptors. It is the reference for the unrolled parser. As in the code, the
  lengths of the RE and SP fields do not count the length byte itself, and the number of bytes left
  in the block is a 32-bit counter, which wraps when a block announces three bytes.
*/
module Cat240Table {
  import opened MachineTypes
  import opened Cat240Bytes

  const CATEGORY: Byte := 240
  const ITEMS := 14

  datatype Header = Header(startAz: Word, endAz: Word, startRg: Word32, cellDur: Word32)
  datatype Resolution = Resolution(compression: Byte, reserved: Byte, resolution: Byte)
  datatype Counters = Counters(nbVb: Word, nbCells: Word32)
  datatype Summary = Summary(rep: Byte, text: seq<Byte>)
  datatype BlockKind = Low | Medium | High

  /** The block is kept as a position in the input and a length, not copied. */
  datatype VideoBlock = VideoBlock(kind: BlockKind, rep: Byte, start: nat, size: nat)

  datatype Message = Message(
    sac: Byte, sic: Byte,
    messageType: Byte,
    msgIndex: Option<Word32>,
    summary: Option<Summary>,
    nano: Option<Header>,
    femto: Option<Header>,
    resolution: Option<Resolution>,
    counters: Option<Counters>,
    video: Option<VideoBlock>,
    time: Option<Word32>,
    reLength: Option<Byte>,
    spLength: Option<Byte>)

  const CLEARED := Message(0, 0, 0, None, None, None, None, None, None, None, None, None, None)

  /** `PastInput`: a read went beyond the input. The code goes on with whatever is there; the model stops. */
  datatype Outcome = Accepted(msg: Message) | Rejected | PastInput

  /** The outcome, and where the furthest read ended. */
  datatype Parsed = Parsed(outcome: Outcome, reach: nat)

  // ----- The table

  /** Repeated items begin with their repetition byte. Of their contents only the text of a summary is read. */
  datatype Shape = Fixed(size: nat) | Repeated(unit: nat, copied: bool)

  /** FRN 1..14 of the standard User Application Profile. */
  function ShapeOf(frn: nat): Shape
    requires 1 <= frn <= ITEMS
  {
    [Fixed(2), Fixed(1), Fixed(4), Repeated(1, true), Fixed(12), Fixed(12), Fixed(2), Fixed(5),
     Repeated(4, false), Repeated(64, false), Repeated(256, false), Fixed(3),
     Repeated(1, false), Repeated(1, false)][frn - 1]
  }

  /** `raw` is what the parser reads of an item of type `frn`. */
  ghost predicate IsRead(frn: nat, raw: seq<Byte>) {
    1 <= frn <= ITEMS
    && match ShapeOf(frn)
       case Fixed(size) => |raw| == size
       case Repeated(unit, copied) => raw != [] && |raw| == 1 + if copied then raw[0] * unit else 0
  }

  /** `raw` is a whole item of type `frn`. */
  ghost predicate IsItem(frn: nat, raw: seq<Byte>) {
    1 <= frn <= ITEMS
    && match ShapeOf(frn)
       case Fixed(size) => |raw| == size
       case Repeated(unit, _) => raw != [] && |raw| == 1 + raw[0] * unit
  }

  /** The part of an item that the parser reads. */
  function ReadPart(frn: nat, raw: seq<Byte>): (read: seq<Byte>)
    requires IsItem(frn, raw)
    ensures IsRead(frn, read) && |read| <= |raw|
  {
    match ShapeOf(frn)
    case Repeated(_, false) => raw[..1]
    case _ => raw
  }

  function HeaderOf(raw: seq<Byte>): Header
    requires |raw| == 12
  {
    Header(Value16(raw[..2]), Value16(raw[2..4]), Value32(raw[4..8]), Value32(raw[8..12]))
  }

  /** The 1/7/8-bit split of I240/048. */
  function ResolutionOf(raw: seq<Byte>): Resolution
    requires |raw| == 2
  {
    var v: int := Value16(raw);
    Resolution(v / 0x8000 % 2, v / 0x100 % 0x80, v % 0x100)
  }

  function KindOf(frn: nat): BlockKind {
    if frn == 9 then Low else if frn == 10 then Medium else High
  }

  function UnitOf(kind: BlockKind): (unit: nat)
    ensures unit > 0
  {
    match kind case Low => 4 case Medium => 64 case High => 256
  }

  /** Item `frn`, found at position `at`, enters the message. */
  function Store(frn: nat, at: nat, raw: seq<Byte>, m: Message): Message
    requires IsRead(frn, raw)
  {
    match frn
    case 1 => m.(sac := raw[0], sic := raw[1])
    case 2 => m.(messageType := raw[0])
    case 3 => m.(msgIndex := Some(Value32(raw)))
    case 4 => m.(summary := Some(Summary(raw[0], raw[1..])))
    case 5 => m.(nano := Some(HeaderOf(raw)))
    case 6 => m.(femto := Some(HeaderOf(raw)))
    case 7 => m.(resolution := Some(ResolutionOf(raw)))
    case 8 => m.(counters := Some(Counters(Value16(raw[..2]), Value24(raw[2..]))))
    case 12 => m.(time := Some(Value24(raw)))
    case 13 => m.(reLength := Some(raw[0]))
    case 14 => m.(spLength := Some(raw[0]))
    case _ => m.(video := Some(VideoBlock(KindOf(frn), raw[0], at + 1, raw[0] * UnitOf(KindOf(frn)))))
  }

  // ----- The table-driven parser

  /** The cursor, the end of the furthest read, and the message so far. */
  datatype Progress = Progress(at: nat, reach: nat, msg: Message)

  datatype Taken = Done(next: Progress) | Short(reach: nat) | Beyond(reach: nat)

  /** The presence bit of item `frn` in the two field specification bytes. */
  function Present(fspec1: Byte, fspec2: Byte, frn: nat): bool
    requires 1 <= frn <= ITEMS
  {
    if frn <= 7 then Bit(fspec1, 8 - frn) else Bit(fspec2, 15 - frn)
  }

  /** `n` bytes at the cursor: the block may be too short for them, or the input may end. */
  function Need(data: seq<Byte>, limit: nat, c: Progress, n: nat): Taken {
    if limit - c.at < n then Short(c.reach)
    else if |data| < c.at + n then Beyond(c.at + n)
    else Done(c.(reach := c.at + n))
  }

  /** One present item, when the counter says that the block goes on up to `limit`. */
  function TakeItem(data: seq<Byte>, limit: nat, frn: nat, c: Progress): Taken
    requires 1 <= frn <= ITEMS
  {
    match ShapeOf(frn)
    case Fixed(size) => TakeBytes(data, limit, frn, c, size, size)
    case Repeated(unit, copied) =>
      var repetition := Need(data, limit, c, 1);
      if !repetition.Done? then repetition
      else
        var size := 1 + data[c.at] * unit;
        if limit - c.at < size then Short(c.at + 1)
        else TakeBytes(data, limit, frn, c, size, if copied then size else 1)
  }

  /** An item of `size` bytes, of which the first `read` are read. */
  function TakeBytes(data: seq<Byte>, limit: nat, frn: nat, c: Progress, size: nat, read: nat): Taken
    requires 1 <= frn <= ITEMS && read <= size
    requires c.at + read <= |data| ==> IsRead(frn, data[c.at..c.at + read])
  {
    match Need(data, limit, c, read)
    case Done(next) => Done(Progress(c.at + size, next.reach, Store(frn, c.at, data[c.at..c.at + read], c.msg)))
    case other => other
  }

  /** Items `frn`, `frn + 1`, ... up to but not including `end`. The first two items are mandatory. */
  function Walk(data: seq<Byte>, limit: nat, fspec1: Byte, fspec2: Byte, frn: nat, end: nat, c: Progress): Taken
    requires 1 <= frn <= end <= ITEMS + 1
    decreases end - frn
  {
    if frn == end then Done(c)
    else if Present(fspec1, fspec2, frn) then
      match TakeItem(data, limit, frn, c)
      case Done(next) => Walk(data, limit, fspec1, fspec2, frn + 1, end, next)
      case other => other
    else if frn <= 2 then Short(c.reach)
    else Walk(data, limit, fspec1, fspec2, frn + 1, end, c)
  }

  /** One turn of the walk that gets on. */
  lemma WalkOne(data: seq<Byte>, limit: nat, fspec1: Byte, fspec2: Byte, frn: nat, c: Progress, next: Progress)
    requires 1 <= frn <= ITEMS
    requires if Present(fspec1, fspec2, frn) then TakeItem(data, limit, frn, c) == Done(next) else frn >= 3 && next == c
    ensures Walk(data, limit, fspec1, fspec2, frn, ITEMS + 1, c)
         == Walk(data, limit, fspec1, fspec2, frn + 1, ITEMS + 1, next)
  {
  }

  /** The block at the start of `data`: category, length, field specification and items. */
  function TableParse(data: seq<Byte>): Parsed {
    if |data| < 3 then Parsed(Rejected, 0)
    else if data[0] != CATEGORY then Parsed(Rejected, 1)
    else
      var length := BigEndian(data, 1);
      if length < 3 || length > |data| then Parsed(Rejected, 3)
      else ParseItems(data, Limit(length))
  }

  /** Where the counter of the bytes left says that the block ends, once the first byte is taken from it. */
  function Limit(length: Word): (limit: nat)
    requires length >= 3
  {
    if length == 3 then 3 + TWO32 else length
  }

  function ParseItems(data: seq<Byte>, limit: nat): Parsed
    requires limit >= 4
  {
    if |data| < 4 then Parsed(PastInput, 4)
    else
      var fspec1 := data[3];
      if !Bit(fspec1, 0) then Verdict(Walk(data, limit, fspec1, 0, 1, ITEMS + 1, Progress(4, 4, CLEARED)))
      else if limit == 4 then Parsed(Rejected, 4)
      else if |data| < 5 then Parsed(PastInput, 5)
      else
        var fspec2 := data[4];
        if Bit(fspec2, 0) then Parsed(Rejected, 5)
        else Verdict(Walk(data, limit, fspec1, fspec2, 1, ITEMS + 1, Progress(5, 5, CLEARED)))
  }

  function Verdict(taken: Taken): Parsed {
    match taken
    case Done(c) => Parsed(Accepted(c.msg), c.reach)
    case Short(reach) => Parsed(Rejected, reach)
    case Beyond(reach) => Parsed(PastInput, reach)
  }

  // ----- No read leaves the block

  ghost predicate ReachWithin(taken: Taken, limit: nat) {
    match taken
    case Done(c) => c.reach <= c.at <= limit
    case Short(reach) => reach <= limit
    case Beyond(_) => false
  }

  lemma ItemWithin(data: seq<Byte>, limit: nat, frn: nat, c: Progress)
    requires 1 <= frn <= ITEMS && c.reach <= c.at <= limit <= |data|
    ensures ReachWithin(TakeItem(data, limit, frn, c), limit)
  {
  }

  lemma {:induction false} WalkWithin(
    data: seq<Byte>, limit: nat, fspec1: Byte, fspec2: Byte, frn: nat, end: nat, c: Progress)
    requires 1 <= frn <= end <= ITEMS + 1 && c.reach <= c.at <= limit <= |data|
    ensures ReachWithin(Walk(data, limit, fspec1, fspec2, frn, end, c), limit)
    decreases end - frn
  {
    if frn < end {
      if Present(fspec1, fspec2, frn) {
        ItemWithin(data, limit, frn, c);
        if TakeItem(data, limit, frn, c).Done? {
          WalkWithin(data, limit, fspec1, fspec2, frn + 1, end, TakeItem(data, limit, frn, c).next);
        }
      } else {
        WalkWithin(data, limit, fspec1, fspec2, frn + 1, end, c);
      }
    }
  }

  lemma ItemReach(data: seq<Byte>, limit: nat, frn: nat, c: Progress)
    requires 1 <= frn <= ITEMS && 4 <= c.reach <= c.at
    ensures
      var t := TakeItem(data, limit, frn, c);
      if t.Done? then 4 <= t.next.reach <= t.next.at else t.reach >= 4
  {
  }

  lemma {:induction false} WalkReach(
    data: seq<Byte>, limit: nat, fspec1: Byte, fspec2: Byte, frn: nat, end: nat, c: Progress)
    requires 1 <= frn <= end <= ITEMS + 1 && 4 <= c.reach <= c.at
    ensures Verdict(Walk(data, limit, fspec1, fspec2, frn, end, c)).reach >= 4
    decreases end - frn
  {
    if frn < end {
      if Present(fspec1, fspec2, frn) {
        ItemReach(data, limit, frn, c);
        if TakeItem(data, limit, frn, c).Done? {
          WalkReach(data, limit, fspec1, fspec2, frn + 1, end, TakeItem(data, limit, frn, c).next);
        }
      } else {
        WalkReach(data, limit, fspec1, fspec2, frn + 1, end, c);
      }
    }
  }

  /** A header of category 240 whose announced length passes the check. */
  predicate GoodHeader(data: seq<Byte>) {
    |data| >= 3 && data[0] == 240 && 3 <= BigEndian(data, 1) <= |data|
  }

  /** Without such a header a message is rejected, whatever follows. */
  lemma BadHeaderRejected(data: seq<Byte>)
    ensures !GoodHeader(data) ==> TableParse(data).outcome == Rejected
    ensures TableParse(data).outcome.Accepted? ==> GoodHeader(data)
  {
  }

  /** Every read stays inside the announced block exactly when the block announces more than three bytes. */
  lemma ReadsInsideIff(data: seq<Byte>)
    requires GoodHeader(data)
    ensures TableParse(data).reach <= BigEndian(data, 1) <==> BigEndian(data, 1) != 3
    ensures BigEndian(data, 1) != 3 ==> TableParse(data).outcome != PastInput
  {
    var limit := Limit(BigEndian(data, 1));
    if |data| >= 4 {
      if !Bit(data[3], 0) {
        ItemsWithin(data, limit, data[3], 0, 4);
      } else if limit > 4 && |data| >= 5 && !Bit(data[4], 0) {
        ItemsWithin(data, limit, data[3], data[4], 5);
      }
    }
  }

  lemma ItemsWithin(data: seq<Byte>, limit: nat, fspec1: Byte, fspec2: Byte, at: nat)
    requires 4 <= at <= limit
    ensures
      var parsed := Verdict(Walk(data, limit, fspec1, fspec2, 1, ITEMS + 1, Progress(at, at, CLEARED)));
      parsed.reach >= 4 && (limit <= |data| ==> parsed.reach <= limit && parsed.outcome != PastInput)
  {
    WalkReach(data, limit, fspec1, fspec2, 1, ITEMS + 1, Progress(at, at, CLEARED));
    if limit <= |data| {
      WalkWithin(data, limit, fspec1, fspec2, 1, ITEMS + 1, Progress(at, at, CLEARED));
    }
  }

  // ----- Only the block matters

  /** `other` begins with the first `n` bytes of `data`. */
  predicate SameUpTo(data: seq<Byte>, other: seq<Byte>, n: nat) {
    n <= |data| && n <= |other| && data[..n] == other[..n]
  }

  lemma SamePart(data: seq<Byte>, other: seq<Byte>, n: nat, from: nat, to: nat)
    requires SameUpTo(data, other, n) && from <= to <= n
    ensures data[from..to] == other[from..to]
  {
    assert data[from..to] == data[..n][from..to];
    assert other[from..to] == other[..n][from..to];
  }

  lemma SameByte(data: seq<Byte>, other: seq<Byte>, n: nat, i: nat)
    requires SameUpTo(data, other, n) && i < n
    ensures data[i] == other[i]
  {
    assert data[i] == data[..n][i];
  }

  lemma ItemSame(data: seq<Byte>, other: seq<Byte>, limit: nat, frn: nat, c: Progress)
    requires 1 <= frn <= ITEMS && c.at <= limit && SameUpTo(data, other, limit)
    ensures TakeItem(other, limit, frn, c) == TakeItem(data, limit, frn, c)
  {
    match ShapeOf(frn)
    case Fixed(size) =>
      if c.at + size <= limit { SamePart(data, other, limit, c.at, c.at + size); }
    case Repeated(unit, copied) =>
      if c.at < limit {
        SameByte(data, other, limit, c.at);
        var size := 1 + data[c.at] * unit;
        if c.at + size <= limit { SamePart(data, other, limit, c.at, c.at + if copied then size else 1); }
      }
  }

  lemma {:induction false} WalkSame(
    data: seq<Byte>, other: seq<Byte>, limit: nat, fspec1: Byte, fspec2: Byte, frn: nat, end: nat, c: Progress)
    requires 1 <= frn <= end <= ITEMS + 1 && c.reach <= c.at <= limit && SameUpTo(data, other, limit)
    ensures Walk(other, limit, fspec1, fspec2, frn, end, c) == Walk(data, limit, fspec1, fspec2, frn, end, c)
    decreases end - frn
  {
    if frn < end {
      if Present(fspec1, fspec2, frn) {
        ItemSame(data, other, limit, frn, c);
        ItemWithin(data, limit, frn, c);
        if TakeItem(data, limit, frn, c).Done? {
          WalkSame(data, other, limit, fspec1, fspec2, frn + 1, end, TakeItem(data, limit, frn, c).next);
        }
      } else {
        WalkSame(data, other, limit, fspec1, fspec2, frn + 1, end, c);
      }
    }
  }

  lemma ItemsSame(data: seq<Byte>, other: seq<Byte>, limit: nat)
    requires limit >= 4 && SameUpTo(data, other, limit)
    ensures ParseItems(other, limit) == ParseItems(data, limit)
  {
    SameByte(data, other, limit, 3);
    if !Bit(data[3], 0) {
      WalkSame(data, other, limit, data[3], 0, 1, ITEMS + 1, Progress(4, 4, CLEARED));
    } else if limit > 4 {
      SameByte(data, other, limit, 4);
      WalkSame(data, other, limit, data[3], data[4], 1, ITEMS + 1, Progress(5, 5, CLEARED));
    }
  }

  /** `other` begins with the header and the announced block of `data`. */
  predicate SameBlock(data: seq<Byte>, other: seq<Byte>)
    requires |data| >= 3
  {
    SameUpTo(data, other, Max(3, BigEndian(data, 1)))
  }

  lemma SameBlockSameResult(data: seq<Byte>, other: seq<Byte>)
    requires |data| >= 3 && SameBlock(data, other)
    requires data[0] == CATEGORY ==> BigEndian(data, 1) != 3
    ensures TableParse(other) == TableParse(data)
  {
    var length := BigEndian(data, 1);
    var n := Max(3, length);
    SameByte(data, other, n, 0);
    SameByte(data, other, n, 1);
    SameByte(data, other, n, 2);
    if length > 3 { ItemsSame(data, other, length); }
  }

  const ACCEPTED_BEHIND: seq<Byte> := [240, 0, 3, 0xC0, 1, 2, 3]
  const REJECTED_BEHIND: seq<Byte> := [240, 0, 3, 0]

  /** Two inputs with the same three-byte block: one is accepted, the other is not. */
  lemma ThreeByteBlocks()
    ensures ACCEPTED_BEHIND[..3] == REJECTED_BEHIND[..3] && BigEndian(ACCEPTED_BEHIND, 1) == 3
    ensures TableParse(ACCEPTED_BEHIND) == Parsed(Accepted(CLEARED.(sac := 1, sic := 2, messageType := 3)), 7)
    ensures TableParse(REJECTED_BEHIND) == Parsed(Rejected, 4)
  {
    PresentOnlyFirst();
    var c := Progress(4, 4, CLEARED);
    var limit := Limit(3);
    var afterSource := Progress(6, 6, CLEARED.(sac := 1, sic := 2));
    var afterType := Progress(7, 7, CLEARED.(sac := 1, sic := 2, messageType := 3));
    assert TakeItem(ACCEPTED_BEHIND, limit, 1, c) == Done(afterSource);
    assert TakeItem(ACCEPTED_BEHIND, limit, 2, afterSource) == Done(afterType);
    SkipAbsent(ACCEPTED_BEHIND, limit, 0xC0, 0, 3, afterType);
    assert Walk(ACCEPTED_BEHIND, limit, 0xC0, 0, 1, ITEMS + 1, c) == Done(afterType);
    assert !Present(0, 0, 1);
  }

  lemma PresentOnlyFirst()
    ensures Present(0xC0, 0, 1) && Present(0xC0, 0, 2) && !Bit(0xC0, 0) && !Bit(0, 0)
    ensures forall frn :: 3 <= frn <= ITEMS ==> !Present(0xC0, 0, frn)
    ensures !Bit(0, 7)
  {
    assert Bit(0xC0, 1) == Bit(0x60, 0) && Bit(0xC0, 2) == Bit(0x60, 1) == Bit(0x30, 0);
    assert Bit(0xC0, 3) == Bit(0x60, 2) == Bit(0x30, 1) == Bit(0x18, 0);
    assert Bit(0xC0, 4) == Bit(0x60, 3) == Bit(0x30, 2) == Bit(0x18, 1) == Bit(0xC, 0);
    assert Bit(0xC0, 5) == Bit(0x60, 4) == Bit(0x30, 3) == Bit(0x18, 2) == Bit(0xC, 1) == Bit(6, 0);
    assert Bit(0xC0, 6) == Bit(0x60, 5) == Bit(0x30, 4) == Bit(0x18, 3) == Bit(0xC, 2) == Bit(6, 1) == Bit(3, 0);
    assert Bit(0xC0, 7) == Bit(0x60, 6) == Bit(0x30, 5) == Bit(0x18, 4) == Bit(0xC, 3) == Bit(6, 2) == Bit(3, 1);
    forall k: nat ensures !Bit(0, k) { ZeroBits(k); }
  }

  lemma {:induction false} ZeroBits(k: nat)
    ensures !Bit(0, k)
  {
    if k > 0 { ZeroBits(k - 1); }
  }

  /** Absent items from FRN 3 on are passed over. */
  lemma {:induction false} SkipAbsent(data: seq<Byte>, limit: nat, fspec1: Byte, fspec2: Byte, frn: nat, c: Progress)
    requires 3 <= frn <= ITEMS + 1 && forall k :: frn <= k <= ITEMS ==> !Present(fspec1, fspec2, k)
    ensures Walk(data, limit, fspec1, fspec2, frn, ITEMS + 1, c) == Done(c)
    decreases ITEMS + 1 - frn
  {
    if frn <= ITEMS {
      SkipAbsent(data, limit, fspec1, fspec2, frn + 1, c);
    }
  }

  /**
    Bytes behind the announced length never change the result, unless a category 240 block announces
    three bytes; then they always can.
  */
  lemma OnlyTheBlockMattersIff(data: seq<Byte>)
    requires |data| >= 3 && BigEndian(data, 1) <= |data|
    ensures (forall other: seq<Byte> | SameBlock(data, other) :: TableParse(other) == TableParse(data))
      <==> data[0] != 240 || BigEndian(data, 1) != 3
  {
    if data[0] == CATEGORY && BigEndian(data, 1) == 3 {
      ThreeByteBlocks();
      assert data[1] == 0 && data[2] == 3;
      assert SameBlock(data, ACCEPTED_BEHIND) && SameBlock(data, REJECTED_BEHIND);
    } else {
      forall other: seq<Byte> | SameBlock(data, other) ensures TableParse(other) == TableParse(data) {
        SameBlockSameResult(data, other);
      }
    }
  }

  // ----- The video block

  /** A reported video block begins behind its repetition byte, which gives its length, and ends before `limit`. */
  ghost predicate VideoAt(data: seq<Byte>, limit: nat, m: Message) {
    m.video.Some? ==>
      var v := m.video.value;
      && v.size == v.rep * UnitOf(v.kind)
      && 4 < v.start <= |data| && data[v.start - 1] == v.rep
      && v.start + v.size <= limit
  }

  lemma StoreKeepsVideoAt(data: seq<Byte>, limit: nat, frn: nat, c: Progress)
    requires 1 <= frn <= ITEMS && c.at >= 4 && VideoAt(data, limit, c.msg)
    ensures
      var t := TakeItem(data, limit, frn, c);
      t.Done? ==> VideoAt(data, limit, t.next.msg) && t.next.at >= 4
  {
  }

  lemma {:induction false} WalkKeepsVideoAt(
    data: seq<Byte>, limit: nat, fspec1: Byte, fspec2: Byte, frn: nat, end: nat, c: Progress)
    requires 1 <= frn <= end <= ITEMS + 1 && c.at >= 4 && VideoAt(data, limit, c.msg)
    ensures
      var t := Walk(data, limit, fspec1, fspec2, frn, end, c);
      t.Done? ==> VideoAt(data, limit, t.next.msg)
    decreases end - frn
  {
    if frn < end {
      if Present(fspec1, fspec2, frn) {
        StoreKeepsVideoAt(data, limit, frn, c);
        if TakeItem(data, limit, frn, c).Done? {
          WalkKeepsVideoAt(data, limit, fspec1, fspec2, frn + 1, end, TakeItem(data, limit, frn, c).next);
        }
      } else {
        WalkKeepsVideoAt(data, limit, fspec1, fspec2, frn + 1, end, c);
      }
    }
  }

  /**
    An accepted video block begins behind its repetition byte and is as long as that byte says; it is a
    slice of the announced block exactly when the block announces more than three bytes.
  */
  lemma AcceptedVideoIsSliceIff(data: seq<Byte>)
    requires TableParse(data).outcome.Accepted? && TableParse(data).outcome.msg.video.Some?
    ensures
      var v, length := TableParse(data).outcome.msg.video.value, BigEndian(data, 1);
      && v.size == v.rep * UnitOf(v.kind)
      && 0 < v.start <= |data| && data[v.start - 1] == v.rep
      && length <= |data| && (v.start + v.size <= length <==> length != 3)
  {
    var limit := Limit(BigEndian(data, 1));
    if !Bit(data[3], 0) {
      WalkKeepsVideoAt(data, limit, data[3], 0, 1, ITEMS + 1, Progress(4, 4, CLEARED));
    } else {
      WalkKeepsVideoAt(data, limit, data[3], data[4], 1, ITEMS + 1, Progress(5, 5, CLEARED));
    }
  }
}
