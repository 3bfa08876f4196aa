/**
  The gain task as it runs: the table, the static variables and the accumulators are updated in
  place, one radar line at a time. Every method is tied to the functions of GainRing and LineScan.
*/
module GainControl {
  import opened MachineTypes
  import opened GainCell
  import opened GainRing
  import opened LineScan

  const ACCOUNTING_LINE := 98

  /** The three revolution slots, their mean, and the slot in use. */
  datatype Accounts = Accounts(slots: seq<Word32>, mean: Word32, slot: nat)

  ghost predicate ValidAccounts(a: Accounts) { |a.slots| == 3 && a.slot <= 2 }

  /** The slot in use, after the sum of lines 0..98 joined it and was divided by 98. */
  function CloseSlot(a: Accounts, averages: seq<Word32>): (slots: seq<Word32>)
    requires |a.slots| == 3 && a.slot <= 2 && |averages| == LINES
    ensures |slots| == 3
  {
    a.slots[a.slot := (a.slots[a.slot] + Sum(averages[..ACCOUNTING_LINE + 1])) % TWO32 / 98]
  }

  /** The first two revolutions fill the first two slots, later ones shift the slots and renew the mean. */
  function NextSlot(a: Accounts, joined: seq<Word32>): (r: Accounts)
    requires |joined| == 3 && a.slot <= 2
    ensures ValidAccounts(r)
  {
    if a.slot != 2 then Accounts(joined, a.mean, a.slot + 1)
    else Accounts([joined[1], joined[2], joined[2]], Sum(joined) % TWO32 / 3, 2)
  }

  /** One revolution ends. */
  function CloseRevolution(a: Accounts, averages: seq<Word32>): (r: Accounts)
    requires |a.slots| == 3 && a.slot <= 2 && |averages| == LINES
    ensures ValidAccounts(r)
  {
    NextSlot(a, CloseSlot(a, averages))
  }

  /** Adding to the 32-bit accumulator of one line. */
  function Added(averages: seq<Word32>, index: nat, amount: int): (r: seq<Word32>)
    requires index < |averages|
    ensures |r| == |averages|
  {
    averages[index := (averages[index] + amount) % TWO32]
  }

  lemma AddedTwice(averages: seq<Word32>, index: nat, a: int, b: int)
    requires index < |averages|
    ensures Added(Added(averages, index, a), index, b) == Added(averages, index, a + b)
  {
    assert Added(Added(averages, index, a), index, b)[index] == Added(averages, index, a + b)[index];
  }

  /** What is stored for a line after one of its frames. */
  function StoredAverage(average: Word32, samples: seq<Word>, n: nat): Word32
    requires n > 0
  {
    (average + ScanTotal(samples)) % TWO32 / n
  }

  /** One call of the fill routine: the line index, the samples per segment and all samples in scan order. */
  datatype Input = Input(index: nat, n: nat, samples: seq<Word>)

  ghost predicate ValidInput(i: Input) { i.index < LINES && i.n > 0 }

  function InputOf(frame: Frame): (i: Input)
    requires Processable(frame)
    ensures ValidInput(i) && i.index == LineOf(frame).index && Saturated(i.samples) == LineOf(frame).saturated
  {
    Input(LineIndex(frame[0]), SampleCount(frame[0]), SamplesOf(frame))
  }

  /** Everything the gain task keeps between two lines. */
  datatype TaskState = TaskState(table: Table, averages: seq<Word32>, accounts: Accounts)

  ghost predicate ValidState(s: TaskState) {
    |s.table.cells| == LINES && |s.averages| == LINES && ValidAccounts(s.accounts)
  }

  ghost function TaskNext(s: TaskState, i: Input): (r: TaskState)
    requires ValidState(s) && ValidInput(i)
    ensures ValidState(r)
  {
    var averages := s.averages[i.index := StoredAverage(s.averages[i.index], i.samples, i.n)];
    TaskState(
      Step(LINES, ZONE, s.table, Line(i.index, Saturated(i.samples))),
      averages,
      if i.index == ACCOUNTING_LINE then CloseRevolution(s.accounts, averages) else s.accounts)
  }

  ghost function TaskStart(): TaskState {
    TaskState(Initial(LINES), seq(LINES, _ => 0), Accounts([0, 0, 0], 0, 0))
  }

  /** The line index that the header bytes give. */
  function IndexInBytes(first: seq<Byte>): nat
    requires |first| >= 74
  {
    var high: int, low: int := first[54], first[55];
    (high * 256 + low) / 54
  }

  /** The sample count that the header bytes give, in 16 bits. */
  function CountInBytes(first: seq<Byte>): nat
    requires |first| >= 74
  {
    var middle: int, low: int := first[71], first[72];
    middle * 256 + low
  }

  /** A frame can be processed exactly when its header gives a cell and a sample, and its segments are long enough. */
  lemma ProcessableIff(frame: Frame)
    ensures Processable(frame)
      <==> && frame != [] && |frame[0]| >= 74
           && IndexInBytes(frame[0]) < 1200 && CountInBytes(frame[0]) > 0
           && forall k :: 0 <= k < |frame| ==> HoldsOrEnded(frame, CountInBytes(frame[0]), 0, k)
  {
    if frame != [] && |frame[0]| >= 74 {
      CountIs(frame[0]);
      ReadableIff(frame, CountInBytes(frame[0]), 0);
    }
  }

  /** The highest byte of the count leaves no trace in 16 bits. */
  lemma CountIs(first: seq<Byte>)
    requires |first| >= 74
    ensures SampleCount(first) == CountInBytes(first)
  {
  }

  /** What the gain task reads from a frame: index and count of the header, and the samples. */
  lemma HeaderInBytes(frame: Frame)
    requires Processable(frame)
    ensures InputOf(frame)
         == Input(IndexInBytes(frame[0]), CountInBytes(frame[0]), SamplesFrom(frame, CountInBytes(frame[0]), 0))
  {
    CountIs(frame[0]);
  }

  class GainTask {
    const cells: array<Cell>
    const averages: array<Word32>
    const slots: array<Word32>
    var oldGain: Byte
    var firstSample: bool
    var mean: Word32
    var slot: nat
    var sent: seq<seq<Byte>>

    ghost predicate Valid()
      reads this, averages
    {
      && cells.Length == averages.Length == LINES
      && slots.Length == 3
      && slots != averages
      && slot <= 2
      && (firstSample ==> forall i :: 0 <= i < LINES ==> averages[i] == 0)
    }

    ghost function StateNow(): (s: TaskState)
      requires Valid()
      reads this, cells, averages, slots
      ensures ValidState(s)
    {
      TaskState(TableNow(), averages[..], AccountsNow())
    }

    ghost function TableNow(): Table
      reads this, cells
    {
      Table(cells[..], oldGain, sent)
    }

    ghost function AccountsNow(): Accounts
      requires slots.Length == 3
      reads this, slots
    {
      Accounts(slots[..], mean, slot)
    }

    constructor ()
      ensures Valid() && fresh(cells) && fresh(averages) && fresh(slots)
      ensures StateNow() == TaskStart()
    {
      cells := new Cell[LINES](_ => FRESH);
      averages := new Word32[LINES](_ => 0);
      slots := new Word32[3](_ => 0);
      oldGain, firstSample, mean, slot, sent := FULL_GAIN, true, 0, 0, [];
      new;
      assert cells[..] == TaskStart().table.cells;
      assert averages[..] == TaskStart().averages;
      assert slots[..] == TaskStart().accounts.slots;
    }

    method MarkCell(c: nat)
      requires c < cells.Length
      modifies cells
      ensures cells[..] == old(cells[..])[c := Mark(old(cells[c]))]
    {
      if !cells[c].changed {
        cells[c] := cells[c].(counter := (cells[c].counter + 1) % 0x100);
        if cells[c].counter > PERMISSIBLE_REVOLUTIONS {
          if cells[c].gain - 10 <= MINIMAL_GAIN {
            cells[c] := cells[c].(gain := MINIMAL_GAIN);
          } else {
            cells[c] := cells[c].(gain := cells[c].gain - 10);
          }
        }
        cells[c] := cells[c].(changed := true);
      }
    }

    /** The window loop: the eleven cells around `index`, through the end of the table. */
    method MarkWindow(index: nat)
      requires cells.Length == LINES && index < LINES
      modifies cells
      ensures cells[..] == MarkZone(LINES, ZONE, old(cells[..]), index)
    {
      for d := -ZONE to ZONE + 1
        invariant cells[..] == MarkedUpTo(old(cells[..]), index, d + ZONE)
      {
        MarkCell((index + LINES + d) % LINES);
      }
      WindowIsZone(old(cells[..]), index);
    }

    method CleanCell(boundary: nat)
      requires boundary < cells.Length
      modifies cells
      ensures cells[..] == old(cells[..])[boundary := Clean(old(cells[boundary]))]
    {
      if !cells[boundary].changed {
        cells[boundary] := cells[boundary].(counter := 0);
        cells[boundary] := cells[boundary].(gain := 127);
      }
      cells[boundary] := cells[boundary].(changed := false);
    }

    method SendGain(next: nat)
      requires next < cells.Length
      modifies this`oldGain, this`sent
      ensures TableNow() == UpdateGain(old(TableNow()), cells[next].gain)
    {
      if cells[next].gain != oldGain {
        oldGain := cells[next].gain;
        sent := sent + [GainMessage(oldGain)];
      }
    }

    /** The first sample ever is stored, every other one is added; the stored value is 32 bits wide. */
    method AddSample(index: nat, value: Word)
      requires Valid() && index < LINES
      modifies this`firstSample, averages
      ensures Valid()
      ensures averages[..] == Added(old(averages[..]), index, value)
    {
      if firstSample {
        averages[index] := value;
        firstSample := false;
      } else {
        averages[index] := (averages[index] + value) % TWO32;
      }
    }

    /** The samples of one segment, up to the first saturated one, which marks the window. */
    method ScanSegment(segment: seq<Byte>, start: nat, n: nat, index: nat) returns (stop: bool)
      requires Valid() && index < LINES
      requires Available(segment, start, n) == n || Saturated(SegmentSamples(segment, start, n))
      modifies this`firstSample, cells, averages
      ensures Valid()
      ensures stop == Saturated(SegmentSamples(segment, start, n))
      ensures averages[..] == Added(old(averages[..]), index, ScanTotal(SegmentSamples(segment, start, n)))
      ensures cells[..] == if stop then MarkZone(LINES, ZONE, old(cells[..]), index) else old(cells[..])
    {
      ghost var samples := SegmentSamples(segment, start, n);
      ghost var goal := Added(averages[..], index, ScanTotal(samples));
      var j := 0;
      assert samples[0..] == samples;
      while j < n
        invariant 0 <= j <= |samples|
        invariant Saturated(samples) == Saturated(samples[j..])
        invariant Valid() && cells[..] == old(cells[..])
        invariant Added(averages[..], index, ScanTotal(samples[j..])) == goal
      {
        assert j < |samples| by { assert !Saturated([]); }
        var value := BigEndian(segment, start + 2 * j);
        FirstSample(samples, j);
        StillToAdd(averages[..], index, value, if value > SATURATION then 0 else ScanTotal(samples[j + 1..]));
        AddSample(index, value);
        if value > SATURATION {
          MarkWindow(index);
          return true;
        }
        j := j + 1;
      }
      assert averages[..] == goal by { NothingToAdd(averages[..], index); }
      return false;
    }

    /** The scan of one frame: segment after segment, until the first saturated sample. */
    method Scan(frame: Frame, n: nat, index: nat)
      requires Valid() && index < LINES && Readable(frame, n, 0)
      modifies this`firstSample, cells, averages
      ensures Valid()
      ensures averages[..] == Added(old(averages[..]), index, ScanTotal(SamplesFrom(frame, n, 0)))
      ensures cells[..] ==
        if Saturated(SamplesFrom(frame, n, 0)) then MarkZone(LINES, ZONE, old(cells[..]), index) else old(cells[..])
    {
      ghost var goal := ScanResult(Added(averages[..], index, ScanTotal(SamplesFrom(frame, n, 0))),
                                   Saturated(SamplesFrom(frame, n, 0)));
      var start, k := HEADER_LENGTH, 0;
      while k < |frame|
        invariant 0 <= k <= |frame| && start == SampleStart(k)
        invariant Valid() && cells[..] == old(cells[..])
        invariant StillToScan(frame, n, k, averages[..], index, goal)
      {
        ScanOneSegment(frame, n, k, averages[..], index, goal);
        var stop := ScanSegment(frame[k], start, n, index);
        if stop {
          return;
        }
        start, k := 0, k + 1;
      }
      NothingToAdd(averages[..], index);
    }

    /** The sum over lines 0..98 joins the slot in use. */
    method AddRevolution()
      requires Valid()
      modifies slots
      ensures Valid()
      ensures slots[..] == Added(old(slots[..]), slot, Sum(averages[..ACCOUNTING_LINE + 1]))
    {
      ghost var included := averages[..ACCOUNTING_LINE + 1];
      for i := 0 to ACCOUNTING_LINE + 1
        invariant Valid()
        invariant slots[..] == Added(old(slots[..]), slot, Sum(included[..i]))
      {
        AddedTwice(old(slots[..]), slot, Sum(included[..i]), averages[i]);
        assert included[..i + 1][..i] == included[..i];
        slots[slot] := (slots[slot] + averages[i]) % TWO32;
      }
      assert included[..ACCOUNTING_LINE + 1] == included;
    }

    /** Closing the revolution: divide, and move on to the next slot or shift the slots. */
    method Account()
      requires Valid()
      modifies this`mean, this`slot, slots
      ensures Valid()
      ensures AccountsNow() == CloseRevolution(old(AccountsNow()), averages[..])
    {
      AddRevolution();
      slots[slot] := slots[slot] / 98;
      ghost var joined := slots[..];
      assert joined == CloseSlot(old(AccountsNow()), averages[..]);
      if slot != 2 {
        slot := slot + 1;
      } else {
        var total: int := slots[0] as int + slots[1] as int + slots[2] as int;
        SumOfThree(joined);
        mean := total % TWO32 / 3;
        slots[0] := slots[1];
        slots[1] := slots[2];
        assert slots[..] == [joined[1], joined[2], joined[2]];
      }
    }

    method DivideSum(index: nat, n: nat)
      requires Valid() && index < LINES && n > 0
      modifies averages
      ensures Valid()
      ensures averages[..] == Divided(old(averages[..]), index, n)
    {
      averages[index] := averages[index] / n;
    }

    /** The scan, and the division of what it accumulated. */
    method ScanAndDivide(frame: Frame, n: nat, index: nat)
      requires Valid() && index < LINES && n > 0 && Readable(frame, n, 0)
      modifies this`firstSample, cells, averages
      ensures Valid()
      ensures averages[..] ==
        old(averages[..])[index := StoredAverage(old(averages[index]), SamplesFrom(frame, n, 0), n)]
      ensures cells[..] ==
        if Saturated(SamplesFrom(frame, n, 0)) then MarkZone(LINES, ZONE, old(cells[..]), index) else old(cells[..])
    {
      ghost var before, samples := averages[..], SamplesFrom(frame, n, 0);
      Scan(frame, n, index);
      DivideSum(index, n);
      DividedSum(before, index, samples, n);
    }

    /** The cell behind the window is cleaned, and the gain of the next line is commanded. */
    method FinishLine(index: nat)
      requires cells.Length == LINES && index < LINES
      modifies this`oldGain, this`sent, cells
      ensures
        var c := CleanedIndex(LINES, ZONE, index);
        var cleaned := old(cells[..])[c := Clean(old(cells[c]))];
        TableNow() == UpdateGain(old(TableNow()).(cells := cleaned), NextGain(LINES, cleaned, index))
    {
      CleanCell((index + LINES - (ZONE + 1)) % LINES);
      SendGain((index + 1) % LINES);
    }

    /** One line: scan, divide, account at line 98, clean the cell behind the window, command the next gain. */
    method Fill(frame: Frame, n: Word, index: nat)
      requires Valid() && index < LINES && n > 0 && Readable(frame, n, 0)
      modifies this, cells, averages, slots
      ensures Valid()
      ensures TableNow() == Step(LINES, ZONE, old(TableNow()), Line(index, Saturated(SamplesFrom(frame, n, 0))))
      ensures averages[..] ==
        old(averages[..])[index := StoredAverage(old(averages[index]), SamplesFrom(frame, n, 0), n)]
      ensures AccountsNow() ==
        if index == ACCOUNTING_LINE then CloseRevolution(old(AccountsNow()), averages[..]) else old(AccountsNow())
    {
      ScanAndDivide(frame, n, index);
      if index == ACCOUNTING_LINE {
        Account();
      }
      firstSample := false;
      FinishLine(index);
    }

    /** The entry point of the gain task: the header names the line and the sample count. */
    method ProcessFrame(frame: Frame)
      requires Valid() && Processable(frame)
      modifies this, cells, averages, slots
      ensures Valid()
      ensures StateNow() == TaskNext(old(StateNow()), InputOf(frame))
      ensures
        var index, n := IndexInBytes(frame[0]), CountInBytes(frame[0]);
        averages[index] == (old(averages[index]) + ScanTotal(SamplesFrom(frame, n, 0))) % 0x1_0000_0000 / n
    {
      HeaderInBytes(frame);
      var index := BigEndian(frame[0], 54) / ANGULAR_STEP;
      var high: int, middle: int, low: int := frame[0][70], frame[0][71], frame[0][72];
      Fill(frame, (high * 0x1_0000 + middle * 0x100 + low) % 0x1_0000, index);
    }
  }

  lemma SumOfThree(values: seq<int>)
    requires |values| == 3
    ensures Sum(values) == values[0] + values[1] + values[2]
  {
    assert Sum(values[..2]) == Sum(values[..2][..1]) + values[1];
    assert Sum(values[..2][..1]) == Sum(values[..2][..1][..0]) + values[0];
  }

  /** The table after the first `m` turns of the window loop. */
  ghost function MarkedUpTo(cells: seq<Cell>, index: nat, m: nat): (r: seq<Cell>)
    requires |cells| == LINES && index < LINES
    ensures |r| == LINES
  {
    if m == 0 then cells
    else
      var before := MarkedUpTo(cells, index, m - 1);
      var c := (index + LINES + m - 1 - ZONE) % LINES;
      before[c := Mark(before[c])]
  }

  lemma {:induction false} MarkedUpToAt(cells: seq<Cell>, index: nat, m: nat, c: nat)
    requires |cells| == LINES && index < LINES && c < LINES && m <= 2 * ZONE + 1
    ensures MarkedUpTo(cells, index, m)[c] == if (c - index + ZONE) % LINES < m then Mark(cells[c]) else cells[c]
  {
    if m > 0 {
      MarkedUpToAt(cells, index, m - 1, c);
      WindowPosition(index, m - 1, c);
    }
  }

  /** Turn `m` of the window loop visits the cell that is `m` cells behind the start of the window. */
  lemma WindowPosition(index: nat, m: nat, c: nat)
    requires index < LINES && c < LINES && m <= 2 * ZONE
    ensures c == (index + LINES + m - ZONE) % LINES <==> (c - index + ZONE) % LINES == m
  {
  }

  lemma WindowIsZone(cells: seq<Cell>, index: nat)
    requires |cells| == LINES && index < LINES
    ensures MarkedUpTo(cells, index, 2 * ZONE + 1) == MarkZone(LINES, ZONE, cells, index)
  {
    var all := MarkedUpTo(cells, index, 2 * ZONE + 1);
    forall c: nat | c < LINES
      ensures all[c] == MarkZone(LINES, ZONE, cells, index)[c]
    {
      WindowCell(cells, index, c);
    }
  }

  lemma WindowCell(cells: seq<Cell>, index: nat, c: nat)
    requires |cells| == LINES && index < LINES && c < LINES
    ensures MarkedUpTo(cells, index, 2 * ZONE + 1)[c]
         == if Near(LINES, ZONE, c, index) then Mark(cells[c]) else cells[c]
  {
    MarkedUpToAt(cells, index, 2 * ZONE + 1, c);
    NearOffset(c, index);
  }

  lemma NearOffset(c: nat, index: nat)
    requires index < LINES && c < LINES
    ensures Near(LINES, ZONE, c, index) <==> (c - index + ZONE) % LINES < 2 * ZONE + 1
  {
  }

  /**
    What one line does to the table of the firmware: a saturated line marks the eleven cells from
    `index + 1195` to `index + 1205` and no others; every line cleans cell `index + 1194`; all modulo 1200.
  */
  lemma LineInTheTable(cells: seq<Cell>, line: Line, c: nat)
    requires |cells| == 1200 && line.index < 1200 && c < 1200
    ensures
      var after := StepCells(LINES, ZONE, cells, line)[c];
      var marked := line.saturated && exists d :: 0 <= d <= 10 && c == WindowPlace(line.index, d);
      var now := if marked then Mark(cells[c]) else cells[c];
      after == if c == (line.index + 1194) % 1200 then Clean(now) else now
  {
    StepCellsAt(LINES, ZONE, cells, line, c);
    ElevenCells(line.index, c);
  }

  /** The eleven cells of the window of a line, in table order. */
  function WindowPlace(index: nat, d: int): int { (index + 1195 + d) % 1200 }

  lemma ElevenCells(index: nat, c: nat)
    requires index < 1200 && c < 1200
    ensures Near(LINES, ZONE, c, index) <==> exists d :: 0 <= d <= 10 && c == WindowPlace(index, d)
  {
    NearOffset(c, index);
    var place := (c - index + 5) % 1200;
    if place <= 10 {
      WindowPosition(index, place, c);
      assert c == WindowPlace(index, place);
    }
    if d :| 0 <= d <= 10 && c == WindowPlace(index, d) {
      WindowPosition(index, d, c);
    }
  }

  /** A marked cell counts one pass more, modulo 256, and from the fourth on loses 10 of its gain, down to 100. */
  lemma MarkInLiterals(cell: Cell)
    ensures Mark(cell).changed
    ensures cell.changed ==> Mark(cell) == cell
    ensures !cell.changed ==>
      && Mark(cell).counter == (if cell.counter == 255 then 0 else cell.counter + 1)
      && Mark(cell).gain ==
           (if cell.counter in {0, 1, 2, 255} then cell.gain else if cell.gain <= 110 then 100 else cell.gain - 10)
    ensures Clean(cell) == if cell.changed then Cell(cell.counter, false, cell.gain) else Cell(0, false, 127)
  {
  }

  /** What is added now need not be added later. */
  lemma StillToAdd(averages: seq<Word32>, index: nat, now: int, rest: int)
    requires index < |averages|
    ensures Added(averages, index, now + rest) == Added(Added(averages, index, now), index, rest)
    ensures rest == 0 ==> Added(averages, index, now + rest) == Added(averages, index, now)
  {
    AddedTwice(averages, index, now, rest);
  }

  function Divided(averages: seq<Word32>, index: nat, n: nat): (r: seq<Word32>)
    requires index < |averages| && n > 0
    ensures |r| == |averages|
  {
    averages[index := averages[index] / n]
  }

  lemma DividedSum(averages: seq<Word32>, index: nat, samples: seq<Word>, n: nat)
    requires index < |averages| && n > 0
    ensures Divided(Added(averages, index, ScanTotal(samples)), index, n)
         == averages[index := StoredAverage(averages[index], samples, n)]
  {
  }

  lemma NothingToAdd(averages: seq<Word32>, index: nat)
    requires index < |averages|
    ensures Added(averages, index, 0) == averages
  {
  }

  lemma FirstSample(samples: seq<Word>, j: nat)
    requires j < |samples|
    ensures ScanTotal(samples[j..]) ==
      samples[j] + if samples[j] > SATURATION then 0 else ScanTotal(samples[j + 1..])
    ensures Saturated(samples[j..]) <==> samples[j] > SATURATION || Saturated(samples[j + 1..])
  {
    assert samples[j..][1..] == samples[j + 1..];
    assert samples[j..] == [samples[j]] + samples[j + 1..];
    SaturatedConcat([samples[j]], samples[j + 1..]);
    assert [samples[j]][0] == samples[j];
  }

  /** One segment more: the scan either stops in it or goes on behind it. */
  lemma SegmentSplit(frame: Frame, n: nat, k: nat)
    requires k < |frame| && Readable(frame, n, k)
    ensures
      var here, rest := SegmentSamples(frame[k], SampleStart(k), n), SamplesFrom(frame, n, k + 1);
      && (|here| == n || Saturated(here))
      && (Saturated(SamplesFrom(frame, n, k)) <==> Saturated(here) || Saturated(rest))
      && ScanTotal(SamplesFrom(frame, n, k)) == ScanTotal(here) + (if Saturated(here) then 0 else ScanTotal(rest))
      && (!Saturated(here) ==> Readable(frame, n, k + 1))
  {
    var here, rest := SegmentSamples(frame[k], SampleStart(k), n), SamplesFrom(frame, n, k + 1);
    ScanConcat(here, rest);
    SaturatedConcat(here, rest);
  }

  /** What a scan leaves: the line averages, and whether it ended at a saturated sample. */
  datatype ScanResult = ScanResult(averages: seq<Word32>, saturated: bool)

  /** The scan from segment `k` on, with the averages so far, leads to `goal`. */
  ghost predicate StillToScan(frame: Frame, n: nat, k: nat, averages: seq<Word32>, index: nat, goal: ScanResult)
    requires k <= |frame| && index < |averages|
  {
    && Readable(frame, n, k)
    && var samples := SamplesFrom(frame, n, k);
       goal == ScanResult(Added(averages, index, ScanTotal(samples)), Saturated(samples))
  }

  lemma ScanOneSegment(frame: Frame, n: nat, k: nat, averages: seq<Word32>, index: nat, goal: ScanResult)
    requires k < |frame| && index < |averages| && StillToScan(frame, n, k, averages, index, goal)
    ensures
      var here := SegmentSamples(frame[k], SampleStart(k), n);
      var next := Added(averages, index, ScanTotal(here));
      && (Available(frame[k], SampleStart(k), n) == n || Saturated(here))
      && if Saturated(here) then goal == ScanResult(next, true) else StillToScan(frame, n, k + 1, next, index, goal)
  {
    SegmentSplit(frame, n, k);
    SegmentAdvance(frame, n, k, averages, index);
  }

  /** The samples of segment `k` are added first, then the rest of what is to be added. */
  lemma SegmentAdvance(frame: Frame, n: nat, k: nat, averages: seq<Word32>, index: nat)
    requires k < |frame| && Readable(frame, n, k) && index < |averages|
    ensures
      var here, rest := SegmentSamples(frame[k], SampleStart(k), n), SamplesFrom(frame, n, k + 1);
      var now: int := ScanTotal(here);
      Added(averages, index, ScanTotal(SamplesFrom(frame, n, k)))
      == if Saturated(here) then Added(averages, index, now)
         else Added(Added(averages, index, now), index, ScanTotal(rest))
  {
    SegmentSplit(frame, n, k);
    var here, rest := SegmentSamples(frame[k], SampleStart(k), n), SamplesFrom(frame, n, k + 1);
    var now: int, later: int := ScanTotal(here), if Saturated(here) then 0 else ScanTotal(rest);
    StillToAdd(averages, index, now, later);
  }
}
