/**
  The unrolled parser: a cursor that moves through the input, a 32-bit counter of the bytes left in
  the block, and a message that is filled in place. Every item method is one row of the table.
*/
module Cat240Parser {
  import opened MachineTypes
  import opened Cat240Bytes
  import opened Cat240Table

  /** How an item ends: taken, refused because the counter is too low, or left because the input ends. */
  datatype Status = Took | TooShort | InputEnds

  class Parser {
    const data: seq<Byte>
    const host: Host
    var p: nat
    var remaining: Word32
    var msg: Message
    ghost var limit: nat  // where the counter says that the block ends
    ghost var reach: nat  // where the furthest read ended

    constructor (data: seq<Byte>, host: Host)
      ensures this.data == data && this.host == host && p == 0 && reach == 0
    {
      this.data, this.host := data, host;
      p, remaining, msg, limit, reach := 0, 0, CLEARED, 0, 0;
    }

    /** Cursor invariant: the cursor and the bytes left together always reach the same end. */
    ghost predicate Inside()
      reads this
    {
      p + remaining == limit
    }

    ghost function Now(): Progress
      reads this
    {
      Progress(p, reach, msg)
    }

    /** The status of an item or of a stretch of items, with the progress made. */
    ghost function Report(status: Status): Taken
      reads this
    {
      match status
      case Took => Done(Now())
      case TooShort => Short(reach)
      case InputEnds => Beyond(reach)
    }

    // ----- Reads: each one needs its bytes to lie inside the input

    method ReadU8() returns (v: Byte)
      requires p + 1 <= |data|
      modifies this`p, this`reach
      ensures p == reach == old(p) + 1 && v == data[old(p)]
    {
      v := data[p];
      p := p + 1;
      reach := p;
    }

    method ReadU16() returns (v: Word)
      requires p + 2 <= |data|
      modifies this`p, this`reach
      ensures p == reach == old(p) + 2 && v == Value16(data[old(p)..p])
    {
      ReadsAreBigEndian(host, data[p..p + 2]);
      v := Ntohs(host, Load16(host, data[p], data[p + 1]));
      p := p + 2;
      reach := p;
    }

    method ReadU24() returns (v: Word32)
      requires p + 3 <= |data|
      modifies this`p, this`reach
      ensures p == reach == old(p) + 3 && v == Value24(data[old(p)..p])
    {
      var x: int, y: int, z: int := data[p], data[p + 1], data[p + 2];
      v := x * 0x1_0000 + y * 0x100 + z;
      p := p + 3;
      reach := p;
    }

    method ReadU32() returns (v: Word32)
      requires p + 4 <= |data|
      modifies this`p, this`reach
      ensures p == reach == old(p) + 4 && v == Value32(data[old(p)..p])
    {
      ReadsAreBigEndian(host, data[p..p + 4]);
      v := Ntohl(host, Load32(host, data[p], data[p + 1], data[p + 2], data[p + 3]));
      p := p + 4;
      reach := p;
    }

    /** The unsigned counter wraps when more is taken than it holds. */
    method Consume(n: nat)
      modifies this`remaining
      ensures remaining == if n <= old(remaining) then old(remaining) - n else (old(remaining) - n) % TWO32
    {
      remaining := (remaining - n) % TWO32;
    }

    /** The check in front of reading `n` bytes; that the input holds them is checked by the model only. */
    method Check(n: nat) returns (status: Status)
      requires Inside()
      modifies this`reach
      ensures Need(data, limit, old(Now()), n) ==
        match status
        case Took => Done(old(Now()).(reach := p + n))
        case TooShort => Short(reach)
        case InputEnds => Beyond(reach)
      ensures status.Took? ==> reach == old(reach)
    {
      if remaining < n { return TooShort; }
      if |data| < p + n {
        reach := p + n;
        return InputEnds;
      }
      return Took;
    }

    /** What an item method reports is what the table says. */
    ghost predicate Follows(status: Status, frn: nat, before: Progress)
      requires 1 <= frn <= ITEMS
      reads this
    {
      TakeItem(data, limit, frn, before) == Report(status)
    }

    // ----- FRN 1..7

    method DataSource() returns (status: Status)
      requires Inside()
      modifies this`p, this`remaining, this`reach, this`msg
      ensures (status.Took? ==> Inside()) && Follows(status, 1, old(Now()))
    {
      status := Check(2);
      if !status.Took? { return; }
      var sac := ReadU8();
      var sic := ReadU8();
      msg := msg.(sac := sac, sic := sic);
      Consume(2);
    }

    method MessageType() returns (status: Status)
      requires Inside()
      modifies this`p, this`remaining, this`reach, this`msg
      ensures (status.Took? ==> Inside()) && Follows(status, 2, old(Now()))
    {
      status := Check(1);
      if !status.Took? { return; }
      var messageType := ReadU8();
      msg := msg.(messageType := messageType);
      Consume(1);
    }

    method VideoRecordHeader() returns (status: Status)
      requires Inside()
      modifies this`p, this`remaining, this`reach, this`msg
      ensures (status.Took? ==> Inside()) && Follows(status, 3, old(Now()))
    {
      status := Check(4);
      if !status.Took? { return; }
      var index := ReadU32();
      msg := msg.(msgIndex := Some(index));
      Consume(4);
    }

    /** The text is copied; the buffer of 256 bytes always holds it. */
    method VideoSummary() returns (status: Status)
      requires Inside()
      modifies this`p, this`remaining, this`reach, this`msg
      ensures (status.Took? ==> Inside()) && Follows(status, 4, old(Now()))
    {
      status := Check(1);
      if !status.Took? { return; }
      var rep := ReadU8();
      Consume(1);
      status := Check(rep);
      if !status.Took? { return; }
      var stored := if rep > 255 then 255 else rep;
      msg := msg.(summary := Some(Summary(rep, data[p..p + stored])));
      p := p + stored;
      reach := p;
      Consume(stored);
      SummaryItem(data, limit, old(Now()));
    }

    method ReadHeader() returns (header: Header)
      requires p + 12 <= |data|
      modifies this`p, this`reach
      ensures p == reach == old(p) + 12 && header == HeaderOf(data[old(p)..p])
    {
      var startAz := ReadU16();
      var endAz := ReadU16();
      var startRg := ReadU32();
      var cellDur := ReadU32();
      HeaderAt(data, old(p));
      return Header(startAz, endAz, startRg, cellDur);
    }

    method VideoHeader(femto: bool) returns (status: Status)
      requires Inside()
      modifies this`p, this`remaining, this`reach, this`msg
      ensures (status.Took? ==> Inside()) && Follows(status, if femto then 6 else 5, old(Now()))
    {
      status := Check(12);
      if !status.Took? { return; }
      var header := ReadHeader();
      msg := if femto then msg.(femto := Some(header)) else msg.(nano := Some(header));
      Consume(12);
      HeaderItem(data, limit, femto, old(Now()));
    }

    method ResolutionIndicator() returns (status: Status)
      requires Inside()
      modifies this`p, this`remaining, this`reach, this`msg
      ensures (status.Took? ==> Inside()) && Follows(status, 7, old(Now()))
    {
      status := Check(2);
      if !status.Took? { return; }
      var v := ReadU16();
      msg := msg.(resolution := Some(Resolution(v / 0x8000 % 2, v / 0x100 % 0x80, v % 0x100)));
      Consume(2);
    }

    // ----- FRN 8..14

    method VideoCounters() returns (status: Status)
      requires Inside()
      modifies this`p, this`remaining, this`reach, this`msg
      ensures (status.Took? ==> Inside()) && Follows(status, 8, old(Now()))
    {
      status := Check(5);
      if !status.Took? { return; }
      var nbVb := ReadU16();
      var nbCells := ReadU24();
      msg := msg.(counters := Some(Counters(nbVb, nbCells)));
      Consume(5);
      SliceOfSlice(data, old(p), p, 0, 2);
      SliceOfSlice(data, old(p), p, 2, 5);
    }

    method VideoBlockItem(frn: nat, unit: nat) returns (status: Status)
      requires Inside() && 9 <= frn <= 11 && ShapeOf(frn) == Repeated(unit, false)
      modifies this`p, this`remaining, this`reach, this`msg
      ensures (status.Took? ==> Inside()) && Follows(status, frn, old(Now()))
    {
      status := Check(1);
      if !status.Took? { return; }
      var rep := ReadU8();
      Consume(1);
      var size: nat := rep * unit;
      if remaining < size { return TooShort; }
      msg := msg.(video := Some(VideoBlock(KindOf(frn), rep, p, size)));
      p := p + size;
      Consume(size);
    }

    method TimeOfDay() returns (status: Status)
      requires Inside()
      modifies this`p, this`remaining, this`reach, this`msg
      ensures (status.Took? ==> Inside()) && Follows(status, 12, old(Now()))
    {
      status := Check(3);
      if !status.Took? { return; }
      var time := ReadU24();
      msg := msg.(time := Some(time));
      Consume(3);
    }

    /** RE and SP are skipped; only their length is kept. */
    method OpaqueItem(frn: nat) returns (status: Status)
      requires Inside() && 13 <= frn <= 14
      modifies this`p, this`remaining, this`reach, this`msg
      ensures (status.Took? ==> Inside()) && Follows(status, frn, old(Now()))
    {
      status := Check(1);
      if !status.Took? { return; }
      var rep := ReadU8();
      Consume(1);
      if remaining < rep { return TooShort; }
      msg := if frn == 13 then msg.(reLength := Some(rep)) else msg.(spLength := Some(rep));
      p := p + rep;
      Consume(rep);
    }

    // ----- The whole message

    /** Items FRN 1 and 2, which every message must have. */
    method MandatoryItems(fspec1: Byte, fspec2: Byte) returns (status: Status)
      requires Inside()
      modifies this`p, this`remaining, this`reach, this`msg
      ensures status.Took? ==> Inside()
      ensures Walk(data, limit, fspec1, fspec2, 1, 3, old(Now())) == Report(status)
    {
      ghost var whole := Walk(data, limit, fspec1, fspec2, 1, 3, Now());
      if !Bit(fspec1, 7) { return TooShort; }
      status := DataSource();
      if !status.Took? { return; }
      assert whole == Walk(data, limit, fspec1, fspec2, 2, 3, Now());
      if !Bit(fspec1, 6) { return TooShort; }
      status := MessageType();
    }

    /** Items FRN 3 and 4. */
    method RecordItems(fspec1: Byte, fspec2: Byte) returns (status: Status)
      requires Inside()
      modifies this`p, this`remaining, this`reach, this`msg
      ensures status.Took? ==> Inside()
      ensures Walk(data, limit, fspec1, fspec2, 3, 5, old(Now())) == Report(status)
    {
      ghost var whole := Walk(data, limit, fspec1, fspec2, 3, 5, Now());
      status := Took;
      if Bit(fspec1, 5) {
        status := VideoRecordHeader();
        if !status.Took? { return; }
      }
      assert whole == Walk(data, limit, fspec1, fspec2, 4, 5, Now());
      if Bit(fspec1, 4) {
        status := VideoSummary();
      }
    }

    /** Items FRN 5..7. */
    method HeaderItems(fspec1: Byte, fspec2: Byte) returns (status: Status)
      requires Inside()
      modifies this`p, this`remaining, this`reach, this`msg
      ensures status.Took? ==> Inside()
      ensures Walk(data, limit, fspec1, fspec2, 5, 8, old(Now())) == Report(status)
    {
      ghost var whole := Walk(data, limit, fspec1, fspec2, 5, 8, Now());
      status := Took;
      if Bit(fspec1, 3) {
        status := VideoHeader(false);
        if !status.Took? { return; }
      }
      assert whole == Walk(data, limit, fspec1, fspec2, 6, 8, Now());
      if Bit(fspec1, 2) {
        status := VideoHeader(true);
        if !status.Took? { return; }
      }
      assert whole == Walk(data, limit, fspec1, fspec2, 7, 8, Now());
      if Bit(fspec1, 1) {
        status := ResolutionIndicator();
      }
    }

    /** Item FRN 8. */
    method CounterItem(fspec1: Byte, fspec2: Byte) returns (status: Status)
      requires Inside()
      modifies this`p, this`remaining, this`reach, this`msg
      ensures status.Took? ==> Inside()
      ensures Walk(data, limit, fspec1, fspec2, 8, 9, old(Now())) == Report(status)
    {
      status := Took;
      if Bit(fspec2, 7) {
        status := VideoCounters();
      }
    }

    /** Items FRN 9..11. */
    method BlockItems(fspec1: Byte, fspec2: Byte) returns (status: Status)
      requires Inside()
      modifies this`p, this`remaining, this`reach, this`msg
      ensures status.Took? ==> Inside()
      ensures Walk(data, limit, fspec1, fspec2, 9, 12, old(Now())) == Report(status)
    {
      ghost var whole := Walk(data, limit, fspec1, fspec2, 9, 12, Now());
      status := Took;
      if Bit(fspec2, 6) {
        status := VideoBlockItem(9, 4);
        if !status.Took? { return; }
      }
      assert whole == Walk(data, limit, fspec1, fspec2, 10, 12, Now());
      if Bit(fspec2, 5) {
        status := VideoBlockItem(10, 64);
        if !status.Took? { return; }
      }
      assert whole == Walk(data, limit, fspec1, fspec2, 11, 12, Now());
      if Bit(fspec2, 4) {
        status := VideoBlockItem(11, 256);
      }
    }

    /** Items FRN 12..14. */
    method TrailingItems(fspec1: Byte, fspec2: Byte) returns (status: Status)
      requires Inside()
      modifies this`p, this`remaining, this`reach, this`msg
      ensures status.Took? ==> Inside()
      ensures Walk(data, limit, fspec1, fspec2, 12, 15, old(Now())) == Report(status)
    {
      ghost var whole := Walk(data, limit, fspec1, fspec2, 12, 15, Now());
      status := Took;
      if Bit(fspec2, 3) {
        status := TimeOfDay();
        if !status.Took? { return; }
      }
      assert whole == Walk(data, limit, fspec1, fspec2, 13, 15, Now());
      if Bit(fspec2, 2) {
        status := OpaqueItem(13);
        if !status.Took? { return; }
      }
      assert whole == Walk(data, limit, fspec1, fspec2, 14, 15, Now());
      if Bit(fspec2, 1) {
        status := OpaqueItem(14);
      }
    }

    /** All items, the second group only behind a second field specification byte. */
    method Items(fspec1: Byte, fspec2: Byte) returns (status: Status)
      requires Inside() && (!Bit(fspec1, 0) ==> fspec2 == 0)
      modifies this`p, this`remaining, this`reach, this`msg
      ensures status.Took? ==> Inside()
      ensures Walk(data, limit, fspec1, fspec2, 1, 15, old(Now())) == Report(status)
    {
      WalkSplit(data, limit, fspec1, fspec2, 1, 3, 15, Now());
      status := MandatoryItems(fspec1, fspec2);
      if !status.Took? { return; }
      WalkSplit(data, limit, fspec1, fspec2, 3, 5, 15, Now());
      status := RecordItems(fspec1, fspec2);
      if !status.Took? { return; }
      WalkSplit(data, limit, fspec1, fspec2, 5, 8, 15, Now());
      status := HeaderItems(fspec1, fspec2);
      if !status.Took? { return; }
      if Bit(fspec1, 0) {
        status := SecondItems(fspec1, fspec2);
      } else {
        NothingBehind(data, limit, fspec1, Now());
      }
    }

    /** Items FRN 8..14. */
    method SecondItems(fspec1: Byte, fspec2: Byte) returns (status: Status)
      requires Inside()
      modifies this`p, this`remaining, this`reach, this`msg
      ensures status.Took? ==> Inside()
      ensures Walk(data, limit, fspec1, fspec2, 8, 15, old(Now())) == Report(status)
    {
      WalkSplit(data, limit, fspec1, fspec2, 8, 9, 15, Now());
      status := CounterItem(fspec1, fspec2);
      if !status.Took? { return; }
      WalkSplit(data, limit, fspec1, fspec2, 9, 12, 15, Now());
      status := BlockItems(fspec1, fspec2);
      if !status.Took? { return; }
      status := TrailingItems(fspec1, fspec2);
    }

    /**
      The parser: on either host, for every input, it has the result of the table-driven parser, fills in
      the same message and reads as far.
    */
    method Parse() returns (outcome: Outcome)
      requires p == 0 && reach == 0
      modifies this
      ensures Parsed(outcome, reach) == TableParse(data)
      ensures outcome.Accepted? ==> Inside() && msg == outcome.msg
    {
      if |data| < 3 { return Rejected; }
      var category := ReadU8();
      if category != CATEGORY { return Rejected; }
      var length := ReadU16();
      assert length == BigEndian(data, 1) by { assert data[1..3] == [data[1], data[2]]; }
      if length < 3 || length > |data| { return Rejected; }
      remaining := length - 3;
      limit := Limit(length);
      outcome := FieldSpecAndItems(length);
    }

    /** From the field specification on. The counter wraps when it is taken down from zero. */
    method FieldSpecAndItems(length: Word) returns (outcome: Outcome)
      requires p == reach == 3 <= length && remaining == length - 3 && limit == Limit(length)
      modifies this`p, this`remaining, this`reach, this`msg
      ensures Parsed(outcome, reach) == ParseItems(data, limit)
      ensures outcome.Accepted? ==> Inside() && msg == outcome.msg
    {
      if |data| < 4 {
        reach := 4;
        return PastInput;
      }
      var fspec1 := ReadU8();
      Consume(1);
      var extended := Bit(fspec1, 0);
      var fspec2: Byte := 0;
      if extended {
        if remaining == 0 { return Rejected; }
        if |data| < 5 {
          reach := 5;
          return PastInput;
        }
        fspec2 := ReadU8();
        Consume(1);
        if Bit(fspec2, 0) { return Rejected; }
      }
      msg := CLEARED;
      var status := Items(fspec1, fspec2);
      match status
      case Took => return Accepted(msg);
      case TooShort => return Rejected;
      case InputEnds => return PastInput;
    }
  }

  /** Walking in two stretches is walking at once. */
  lemma {:induction false} WalkSplit(
    data: seq<Byte>, limit: nat, fspec1: Byte, fspec2: Byte, frn: nat, middle: nat, end: nat, c: Progress)
    requires 1 <= frn <= middle <= end <= ITEMS + 1
    ensures
      var t := Walk(data, limit, fspec1, fspec2, frn, middle, c);
      Walk(data, limit, fspec1, fspec2, frn, end, c)
      == if t.Done? then Walk(data, limit, fspec1, fspec2, middle, end, t.next) else t
    decreases middle - frn
  {
    if frn < middle {
      if Present(fspec1, fspec2, frn) {
        if TakeItem(data, limit, frn, c).Done? {
          WalkSplit(data, limit, fspec1, fspec2, frn + 1, middle, end, TakeItem(data, limit, frn, c).next);
        }
      } else {
        WalkSplit(data, limit, fspec1, fspec2, frn + 1, middle, end, c);
      }
    }
  }

  /** Without a second field specification byte there are no items from FRN 8 on. */
  lemma NothingBehind(data: seq<Byte>, limit: nat, fspec1: Byte, c: Progress)
    ensures Walk(data, limit, fspec1, 0, 8, ITEMS + 1, c) == Done(c)
  {
    forall k: nat ensures !Bit(0, k) { ZeroBits(k); }
    SkipAbsent(data, limit, fspec1, 0, 8, c);
  }

  lemma SliceOfSlice(s: seq<Byte>, from: nat, to: nat, i: nat, j: nat)
    requires from <= to <= |s| && i <= j <= to - from
    ensures s[from..to][i..j] == s[from + i..from + j]
    ensures j == to - from ==> s[from..to][i..] == s[from + i..from + j]
    ensures i == 0 ==> s[from..to][..j] == s[from + i..from + j]
  {
    var whole, a, b := s[from..to], s[from..to][i..j], s[from + i..from + j];
    assert forall k :: 0 <= k < j - i ==> a[k] == whole[i + k] == b[k];
  }

  lemma HeaderItem(data: seq<Byte>, limit: nat, femto: bool, c: Progress)
    requires c.at + 12 <= limit && c.at + 12 <= |data|
    ensures
      var at, header := c.at, HeaderOf(data[c.at..c.at + 12]);
      TakeItem(data, limit, if femto then 6 else 5, c)
      == Done(Progress(at + 12, at + 12, if femto then c.msg.(femto := Some(header)) else c.msg.(nano := Some(header))))
  {
  }

  lemma HeaderAt(data: seq<Byte>, at: nat)
    requires at + 12 <= |data|
    ensures HeaderOf(data[at..at + 12])
         == Header(Value16(data[at..at + 2]), Value16(data[at + 2..at + 4]),
                   Value32(data[at + 4..at + 8]), Value32(data[at + 8..at + 12]))
  {
    SliceOfSlice(data, at, at + 12, 0, 2);
    SliceOfSlice(data, at, at + 12, 2, 4);
    SliceOfSlice(data, at, at + 12, 4, 8);
    SliceOfSlice(data, at, at + 12, 8, 12);
  }

  lemma SummaryItem(data: seq<Byte>, limit: nat, c: Progress)
    requires c.at + 1 <= |data| && c.at + 1 + data[c.at] <= limit && c.at + 1 + data[c.at] <= |data|
    ensures
      var rep := data[c.at];
      var end := c.at + 1 + rep;
      TakeItem(data, limit, 4, c)
      == Done(Progress(end, end, c.msg.(summary := Some(Summary(rep, data[c.at + 1..end])))))
  {
    var end := c.at + 1 + data[c.at];
    SliceOfSlice(data, c.at, end, 1, end - c.at);
  }
}
