/** From received packets to commanded gains: peak-hold, send, scan and ring in one statement. */
module EndToEnd {
  import opened MachineTypes
  import opened GainCell
  import opened GainRing
  import opened LineScan
  import opened GainControl
  import opened PeakHold
  import opened Batch
  import opened Averages
  import opened Composition

  ghost function LinesOf(inputs: seq<Input>): (history: seq<Line>)
    requires ValidInputs(inputs)
    ensures |history| == |inputs| && ValidHistory(LINES, history)
  {
    seq(|inputs|, t requires 0 <= t < |inputs| => Line(inputs[t].index, Saturated(inputs[t].samples)))
  }

  /** The table of the gain task is the ring, whatever the accumulators do. */
  lemma {:induction false} TaskRunsTheRing(inputs: seq<Input>, t: nat)
    requires ValidInputs(inputs) && t <= |inputs|
    ensures RunTask(inputs, t).table == Run(LINES, ZONE, LinesOf(inputs), t)
  {
    if t > 0 {
      var history, s := LinesOf(inputs), t - 1;
      TaskRunsTheRing(inputs, s);
      var before := Run(LINES, ZONE, history, s);
      assert RunTask(inputs, t).table == Step(LINES, ZONE, before, history[s]) by { TaskStep(inputs, s); }
      assert Run(LINES, ZONE, history, t) == Step(LINES, ZONE, before, history[s]) by { RingStep(history, s); }
    }
  }

  lemma RingStep(history: seq<Line>, t: nat)
    requires ValidHistory(LINES, history) && t < |history|
    ensures Run(LINES, ZONE, history, t + 1) == Step(LINES, ZONE, Run(LINES, ZONE, history, t), history[t])
  {
  }

  lemma TaskStep(inputs: seq<Input>, t: nat)
    requires ValidInputs(inputs) && t < |inputs|
    ensures RunTask(inputs, t + 1).table == Step(LINES, ZONE, RunTask(inputs, t).table, LinesOf(inputs)[t])
  {
  }

  /** Aligned batches, each with the headers that sending its held frame put in front of it. */
  ghost predicate AlignedBatches(headers: seq<seq<Byte>>, batches: seq<seq<Packet>>) {
    && |headers| == |batches|
    && forall t :: 0 <= t < |batches| ==> Aligned(headers[t], batches[t])
  }

  /** What the gain task is given: one held frame for each batch, after it was sent. */
  ghost function HeldInputs(headers: seq<seq<Byte>>, batches: seq<seq<Packet>>): (inputs: seq<Input>)
    requires AlignedBatches(headers, batches)
    ensures |inputs| == |batches| && ValidInputs(inputs)
  {
    seq(|batches|, t requires 0 <= t < |batches| =>
      HeldProcessable(headers[t], batches[t]);
      InputOf(WithHeaders(headers[t], Hold(batches[t]))))
  }

  function GreatestIndex(headers: seq<Byte>, packets: seq<Packet>): nat
    requires packets != []
  {
    var last := |packets| - 1;
    var index := ScanIndex(headers, packets[last].segments);
    if last == 0 then index else Max(GreatestIndex(headers, packets[..last]), index)
  }

  /** The line of a batch, read directly off its packets: the greatest index, or that of the first packet. */
  function BatchIndex(headers: seq<Byte>, packets: seq<Packet>): nat
    requires packets != []
  {
    if 54 - |headers| >= FIRST_CURSOR then GreatestIndex(headers, packets) else ScanIndex(headers, packets[0].segments)
  }

  lemma {:induction false} GreatestIsGreatest(headers: seq<Byte>, packets: seq<Packet>, m: nat) returns (holder: nat)
    requires packets != [] && m < |packets|
    ensures ScanIndex(headers, packets[m].segments) <= GreatestIndex(headers, packets)
    ensures holder < |packets| && ScanIndex(headers, packets[holder].segments) == GreatestIndex(headers, packets)
  {
    var last := |packets| - 1;
    holder := last;
    if last > 0 {
      var before := GreatestIsGreatest(headers, packets[..last], if m < last then m else 0);
      if GreatestIndex(headers, packets[..last]) > ScanIndex(headers, packets[last].segments) { holder := before; }
    }
  }

  /** The index found in the held frame is that of its batch. */
  lemma HeldIndexIsBatchIndex(headers: seq<Byte>, packets: seq<Packet>, index: nat)
    requires packets != [] && HeldIndexIs(headers, packets, index)
    ensures index == BatchIndex(headers, packets)
  {
    if 54 - |headers| >= FIRST_CURSOR {
      var m :| 0 <= m < |packets| && ScanIndex(headers, packets[m].segments) == index;
      var holder := GreatestIsGreatest(headers, packets, m);
    }
  }

  /** The line of each batch, and whether it is saturated, read directly off the packets: some packet is. */
  ghost function PacketHistory(headers: seq<seq<Byte>>, batches: seq<seq<Packet>>): (history: seq<Line>)
    requires AlignedBatches(headers, batches)
    ensures |history| == |batches|
  {
    seq(|batches|, t requires 0 <= t < |batches| =>
      Line(BatchIndex(headers[t], batches[t]),
           exists m :: 0 <= m < |batches[t]| && SaturatedPacket(headers[t], batches[t], m)))
  }

  lemma HeldInputsFollowPackets(headers: seq<seq<Byte>>, batches: seq<seq<Packet>>)
    requires AlignedBatches(headers, batches)
    ensures LinesOf(HeldInputs(headers, batches)) == PacketHistory(headers, batches)
    ensures ValidHistory(LINES, PacketHistory(headers, batches))
  {
    forall t | 0 <= t < |batches|
      ensures LinesOf(HeldInputs(headers, batches))[t] == PacketHistory(headers, batches)[t]
    {
      HeldLine(headers[t], batches[t]);
      HeldIndexIsBatchIndex(headers[t], batches[t], LineOf(WithHeaders(headers[t], Hold(batches[t]))).index);
    }
  }

  /** What the reference definition gives for cell `c` after the first `t` lines. */
  ghost function ReferenceCell(history: seq<Line>, t: nat, c: nat): Cell
    requires ValidHistory(LINES, history) && t <= |history| && c < LINES
  {
    var own := CellHistory(LINES, ZONE, history, t, c);
    Representing(HitPasses(own), CurrentPass(own))
  }

  /**
    From packets to cells, in any order of lines: each cell is the reference cell of its own passes, as
    read off the packets.
  */
  lemma PacketsToCells(headers: seq<seq<Byte>>, batches: seq<seq<Packet>>, t: nat, c: nat)
    requires AlignedBatches(headers, batches) && t <= |batches| && c < LINES
    ensures ValidHistory(LINES, PacketHistory(headers, batches))
    ensures RunTask(HeldInputs(headers, batches), t).table.cells[c]
         == ReferenceCell(PacketHistory(headers, batches), t, c)
  {
    HeldInputsFollowPackets(headers, batches);
    TaskRunsTheRing(HeldInputs(headers, batches), t);
    CellsFollowTheirHistory(LINES, ZONE, PacketHistory(headers, batches), t, c);
  }

  /** The gain law on the previous streak of line `x`, plus one if one of the five lines before it was saturated. */
  ghost function ClosedForm(history: seq<Line>, x: nat): Byte {
    GainLaw(Streak(LINES, ZONE, history, x - LINES) + if Hit(history, x - ZONE, x - 1) then 1 else 0)
  }

  /**
    End to end: for any number of batches in azimuth order, from any first line, the gain in force for
    line `x` is the law applied to the number of consecutive revolutions in which some packet of some
    batch within five lines of `x` was saturated, and the present revolution as far as it has come.
  */
  lemma PacketsToGain(headers: seq<seq<Byte>>, batches: seq<seq<Packet>>, start: nat, x: nat)
    requires AlignedBatches(headers, batches) && 0 < x <= |batches|
    requires InOrder(LINES, start, PacketHistory(headers, batches))
    ensures RunTask(HeldInputs(headers, batches), x).table.gain == ClosedForm(PacketHistory(headers, batches), x)
  {
    HeldInputsFollowPackets(headers, batches);
    TaskGain(HeldInputs(headers, batches), PacketHistory(headers, batches), start, x);
  }

  /** A gain that is the closed form is below 127 exactly when the window was hit often enough. */
  lemma BelowWhenAttenuated(gain: Byte, history: seq<Line>, x: nat)
    requires gain == ClosedForm(history, x)
    ensures gain < 127 <==> Attenuated(history, x)
  {
    LawInLiterals(history, x);
  }

  lemma TaskGain(inputs: seq<Input>, history: seq<Line>, start: nat, x: nat)
    requires ValidInputs(inputs) && LinesOf(inputs) == history
    requires ValidHistory(LINES, history) && InOrder(LINES, start, history) && 0 < x <= |history|
    ensures RunTask(inputs, x).table.gain == ClosedForm(history, x)
  {
    var table := Run(LINES, ZONE, history, x);
    assert RunTask(inputs, x).table == table by { TaskRunsTheRing(inputs, x); }
    RingGain(history, start, x);
  }

  lemma RingGain(history: seq<Line>, start: nat, x: nat)
    requires ValidHistory(LINES, history) && InOrder(LINES, start, history) && 0 < x <= |history|
    ensures Run(LINES, ZONE, history, x).gain == ClosedForm(history, x)
  {
    OutputClosedForm(LINES, ZONE, start, history, x - 1);
  }
}
