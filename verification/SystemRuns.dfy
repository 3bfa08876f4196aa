/**
  Statements about every run of the whole system, for any interleaving of its tasks. Ownership holds
  throughout a run exactly when every hand-off ends in the mode in which it began; what the buffers
  contain is stated for these runs.
*/
module SystemRuns {
  import opened MachineTypes
  import opened GainRing
  import opened LineScan
  import opened GainControl
  import opened PeakHold
  import opened Batch
  import opened Averages
  import opened Composition
  import opened EndToEnd
  import opened Commands
  import opened Pipeline
  import opened PipelineContents

  // ----- Every run

  ghost predicate Regular(s: State) { Bounded(s) && s.suspended == ModeAfter(s.commands) }

  lemma RegularStep(s: State, step: Step)
    requires Regular(s) && Enabled(s, step)
    ensures Regular(Next(s, step))
  {
    BoundedStep(s, step);
    if step.Command? {
      assert (s.commands + [step.m])[..|s.commands|] == s.commands;
    }
  }

  lemma RegularStart()
    ensures Regular(START)
  {
  }

  lemma RegularTransition(s: State, s': State)
    requires Regular(s) && Transition(s, s')
    ensures Regular(s')
  {
    var step :| Enabled(s, step) && s' == Next(s, step);
    RegularStep(s, step);
  }

  /** The step that leads from one state of a run to the next. */
  lemma StepAt(run: seq<State>, i: nat) returns (step: Step)
    requires IsRun(run) && i + 1 < |run|
    ensures Enabled(run[i], step) && run[i + 1] == Next(run[i], step)
  {
    assert Transition(run[i], run[i + 1]);
    step :| Enabled(run[i], step) && run[i + 1] == Next(run[i], step);
  }

  lemma TransitionAt(run: seq<State>, i: nat)
    requires IsRun(run) && i + 1 < |run|
    ensures Transition(run[i], run[i + 1])
  {
  }

  /** In every run queues and batch counter stay in range, and the mode is that of the commands. */
  lemma {:induction false} RunRegular(run: seq<State>, i: nat)
    requires IsRun(run) && i < |run|
    ensures Regular(run[i])
  {
    if i > 0 {
      RunRegular(run, i - 1);
      TransitionAt(run, i - 1);
      RegularTransition(run[i - 1], run[i]);
    } else {
      RegularStart();
    }
  }

  lemma OwnedTransition(s: State, s': State)
    requires Owned(s) && Bounded(s) && Transition(s, s')
    ensures Owned(s') <==> !Switched(s, s')
  {
    var step :| Enabled(s, step) && s' == Next(s, step);
    OwnershipStepIff(s, step);
  }

  lemma OwnedStart()
    ensures Owned(START)
  {
  }

  lemma {:induction false} OwnedSoFar(run: seq<State>, i: nat)
    requires IsRun(run) && i < |run|
    requires forall j :: 0 <= j < i ==> !Switched(run[j], run[j + 1])
    ensures Owned(run[i])
  {
    if i > 0 {
      OwnedSoFar(run, i - 1);
      RunRegular(run, i - 1);
      TransitionAt(run, i - 1);
      OwnedTransition(run[i - 1], run[i - 1 + 1]);
    } else {
      OwnedStart();
    }
  }

  /**
    Ownership over all interleavings: every buffer has exactly one owner at every moment of a run exactly
    when each hand-off of the run ends in the mode in which it began.
  */
  lemma OwnershipIffUndisturbed(run: seq<State>)
    requires IsRun(run)
    ensures (forall i :: 0 <= i < |run| ==> Owned(run[i])) <==> Undisturbed(run)
  {
    if Undisturbed(run) {
      forall i | 0 <= i < |run| ensures Owned(run[i]) {
        OwnedSoFar(run, i);
      }
    }
    if i :| 0 <= i < |run| - 1 && Switched(run[i], run[i + 1]) {
      RunRegular(run, i);
      TransitionAt(run, i);
      if Owned(run[i]) { OwnedTransition(run[i], run[i + 1]); }
    }
  }

  /** The step after state `j` is a command that changes the mode, in the hand-off that is open at state `i`. */
  ghost predicate CommandInside(run: seq<State>, j: nat, i: nat)
    requires j < i < |run|
  {
    && (forall k :: j <= k <= i ==> run[k].phase == run[i].phase)
    && |run[j + 1].commands| == |run[j].commands| + 1
    && run[j + 1].suspended != run[j].suspended
  }

  lemma ModeChangeIsCommand(s: State, step: Step)
    requires Enabled(s, step) && Next(s, step).phase.Begun?
    ensures Next(s, step).suspended != s.suspended ==> |Next(s, step).commands| == |s.commands| + 1
    ensures Next(s, step).phase == s.phase || Next(s, step).phase.suspended == s.suspended == Next(s, step).suspended
  {
  }

  lemma ModeChangeInRun(run: seq<State>, j: nat)
    requires IsRun(run) && j + 1 < |run| && run[j + 1].phase.Begun?
    ensures run[j + 1].phase == run[j].phase || run[j + 1].phase.suspended == run[j].suspended == run[j + 1].suspended
    ensures run[j + 1].suspended != run[j].suspended ==> CommandInside(run, j, j + 1)
  {
    var step := StepAt(run, j);
    ModeChangeIsCommand(run[j], step);
  }

  lemma BegunIsLater(run: seq<State>, i: nat)
    requires IsRun(run) && i < |run| && run[i].phase.Begun?
    ensures i > 0
  {
  }

  /** A hand-off can only end in another mode than it began in if an effective command came inside it. */
  lemma {:induction false} SwitchNeedsCommand(run: seq<State>, i: nat) returns (j: nat)
    requires IsRun(run) && i < |run| && run[i].phase.Begun? && run[i].phase.suspended != run[i].suspended
    ensures j < i && CommandInside(run, j, i)
  {
    BegunIsLater(run, i);
    var before := i - 1;
    ModeChangeInRun(run, before);
    if run[before].suspended != run[i].suspended {
      j := before;
    } else {
      j := SwitchNeedsCommand(run, before);
      StillInside(run, j, before);
    }
  }

  lemma StillInside(run: seq<State>, j: nat, i: nat)
    requires j < i && i + 1 < |run| && CommandInside(run, j, i) && run[i + 1].phase == run[i].phase
    ensures CommandInside(run, j, i + 1)
  {
  }

  /** No step of the run inside a hand-off is a command. */
  ghost predicate NoCommandInside(run: seq<State>) {
    forall i :: 0 <= i < |run| - 1 && run[i].phase.Begun? ==> run[i + 1].commands == run[i].commands
  }

  lemma InsideIsCommand(run: seq<State>, j: nat, i: nat)
    requires j < i < |run| && run[i].phase.Begun? && CommandInside(run, j, i)
    ensures !NoCommandInside(run)
  {
    assert run[j].phase == run[i].phase;
    assert run[j + 1].commands != run[j].commands;
  }

  /** A run without commands inside its hand-offs is undisturbed. */
  lemma NoCommandNoSwitch(run: seq<State>)
    requires IsRun(run) && NoCommandInside(run)
    ensures Undisturbed(run)
  {
    if i :| 0 <= i < |run| - 1 && Switched(run[i], run[i + 1]) {
      var j := SwitchNeedsCommand(run, i);
      InsideIsCommand(run, j, i);
    }
  }

  /**
    Mode over command histories: a frame enters the gain queue only when a batch ends while the latest
    effective amplitude command is not a manual one, and such a batch enters it exactly when there is
    room; the other batches leave the queue alone.
  */
  lemma QueuedOnlyInAutomatic(run: seq<State>, i: nat)
    requires IsRun(run) && i + 1 < |run|
    ensures run[i + 1].outcomes == run[i].outcomes || run[i + 1].outcomes == run[i].outcomes + [OutcomeOf(run[i])]
    ensures OutcomeOf(run[i]) == ManualMode <==> ModeAfter(run[i].commands)
    ensures |run[i + 1].gainQueue| > |run[i].gainQueue| <==>
      && run[i + 1].outcomes != run[i].outcomes
      && !ModeAfter(run[i].commands)
      && |run[i].gainQueue| < 200
  {
    RunRegular(run, i);
    var step := StepAt(run, i);
    OutcomeStep(run[i], step);
  }

  /**
    Reception: at every step of every run exactly the packets that meet fewer than 200 waiting ones are
    accepted; the others are freed at once.
  */
  lemma AcceptedWhenRoom(run: seq<State>, i: nat) returns (step: Step)
    requires IsRun(run) && i + 1 < |run|
    ensures Enabled(run[i], step) && run[i + 1] == Next(run[i], step) && Received(run[i], step, run[i + 1])
    ensures run[i + 1].accepted != run[i].accepted <==> step.Receive? && |run[i].receiveQueue| < 200
  {
    step := StepAt(run, i);
    ReceptionStep(run[i], step);
  }

  /**
    From a manual command on and until the next automatic one the gain task neither takes nor finishes a
    frame, and none is queued for it.
  */
  lemma {:induction false} SuspendedTaskWaits(run: seq<State>, i: nat, j: nat)
    requires IsRun(run) && i <= j < |run|
    requires forall k :: i <= k < j ==> ModeAfter(run[k].commands)
    ensures GainWaits(run[i], run[j])
    decreases j
  {
    if i < j {
      var before := j - 1;
      SuspendedTaskWaits(run, i, before);
      assert ModeAfter(run[before].commands);
      SuspendedAt(run, before);
    }
  }

  ghost predicate GainWaits(s: State, s': State) {
    s'.processed == s.processed && s'.gainTask == s.gainTask && s'.gainQueue == s.gainQueue
  }

  lemma SuspendedAt(run: seq<State>, k: nat)
    requires IsRun(run) && k + 1 < |run| && ModeAfter(run[k].commands)
    ensures GainWaits(run[k], run[k + 1])
  {
    RunRegular(run, k);
    TransitionAt(run, k);
    SuspendedTransition(run[k], run[k + 1]);
  }

  lemma SuspendedTransition(s: State, s': State)
    requires Transition(s, s') && s.suspended
    ensures GainWaits(s, s')
  {
    var step :| Enabled(s, step) && s' == Next(s, step);
    SuspendedStep(s, step);
  }

  lemma SuspendedStep(s: State, step: Step)
    requires Enabled(s, step) && s.suspended
    ensures GainWaits(s, Next(s, step))
  {
  }

  lemma OutcomeStep(s: State, step: Step)
    requires Enabled(s, step)
    ensures
      var s' := Next(s, step);
      if (step.Begin? && !s.suspended) || (step.Conclude? && s.suspended) then
        && s'.outcomes == s.outcomes + [OutcomeOf(s)]
        && (|s'.gainQueue| > |s.gainQueue| <==> OutcomeOf(s) == Queued)
      else s'.outcomes == s.outcomes && |s'.gainQueue| <= |s.gainQueue|
  {
  }

  // ----- Runs that do break ownership, under a scheduler that lets commands come inside a hand-off

  const TINY := Packet(0, [])
  const TO_MANUAL: Message := [0x40, AMPLITUDE]
  const TO_AUTOMATIC: Message := [AUTOMATIC, AMPLITUDE]

  /** `k` packets of the first batch are handled, and nothing else is under way. */
  ghost predicate Filled(s: State, k: nat) {
    && 0 <= k <= BATCH
    && s.receiveQueue == [] && s.inHand.None? && s.gainQueue == [] && s.phase.Idle?
    && s.finished == (k == BATCH) && s.counter == (if k == BATCH then BATCH else k + 1)
    && (forall id :: id in s.memory ==> id < k)
    && (k > 0 ==> s.held.Some? && s.held.value in s.memory && s.memory[s.held.value].segments == [])
  }

  lemma Extend(run: seq<State>, step: Step) returns (longer: seq<State>)
    requires IsRun(run) && Enabled(run[|run| - 1], step)
    ensures IsRun(longer) && longer == run + [Next(run[|run| - 1], step)]
  {
    var s := run[|run| - 1];
    longer := run + [Next(s, step)];
    assert Transition(s, Next(s, step));
    forall i | 0 <= i < |longer| - 1 ensures Transition(longer[i], longer[i + 1]) {
      if i < |run| - 1 { assert longer[i] == run[i] && longer[i + 1] == run[i + 1]; }
    }
  }

  ghost predicate AllIdle(run: seq<State>) { forall i :: 0 <= i < |run| ==> run[i].phase.Idle? }

  lemma {:induction false} FillBatch(k: nat, manual: bool) returns (run: seq<State>)
    requires k <= BATCH
    ensures IsRun(run) && AllIdle(run) && Filled(run[|run| - 1], k) && run[|run| - 1].suspended == manual
  {
    if k == 0 {
      var m := if manual then TO_MANUAL else TO_AUTOMATIC;
      assert ModeEffect(m) == if manual then Manual else Automatic;
      run := Extend([START], Command(m));
    } else {
      run := FillBatch(k - 1, manual);
      run := OnePacket(run, k - 1);
    }
  }

  lemma OnePacket(run: seq<State>, k: nat) returns (longer: seq<State>)
    requires IsRun(run) && AllIdle(run) && k < BATCH && Filled(run[|run| - 1], k)
    ensures IsRun(longer) && AllIdle(longer) && Filled(longer[|longer| - 1], k + 1)
    ensures longer[|longer| - 1].suspended == run[|run| - 1].suspended
  {
    longer := Extend(run, Receive(k, TINY));
    longer := Extend(longer, Take);
    longer := Extend(longer, Handle);
  }

  /** A full batch, the first step of its hand-off, a command, and the second step. */
  lemma SwitchedRun(manual: bool) returns (run: seq<State>)
    ensures IsRun(run) && |run| >= 2 && Switched(run[|run| - 2], run[|run| - 1])
    ensures forall i :: 0 <= i < |run| - 2 ==> !Switched(run[i], run[i + 1])
    ensures run[|run| - 2].suspended == !manual
  {
    var m := if manual then TO_AUTOMATIC else TO_MANUAL;
    assert ModeEffect(m) == if manual then Automatic else Manual;
    run := FillBatch(BATCH, manual);
    run := Extend(run, Begin([]));
    run := Extend(run, Command(m));
    run := Extend(run, Conclude([]));
  }

  lemma BrokenRun(manual: bool) returns (run: seq<State>, i: nat, id: Id)
    ensures IsRun(run) && i < |run| && id in run[i].memory && Owners(run[i], id) == if manual then 0 else 2
  {
    run := SwitchedRun(manual);
    i := |run| - 1;
    OwnedSoFar(run, i - 1);
    RunRegular(run, i - 1);
    var step := StepAt(run, i - 1);
    OwnershipStepIff(run[i - 1], step);
    id := run[i - 1].held.value;
  }

  /** A manual command inside a hand-off frees a buffer that is owned elsewhere; an automatic one loses a buffer. */
  lemma SwitchesBreakOwnership()
    ensures exists run: seq<State>, i: nat, id: Id ::
      IsRun(run) && i < |run| && id in run[i].memory && Owners(run[i], id) == 2
    ensures exists run: seq<State>, i: nat, id: Id ::
      IsRun(run) && i < |run| && id in run[i].memory && Owners(run[i], id) == 0
  {
    var twice, i, id := BrokenRun(false);
    var lost, j, id' := BrokenRun(true);
  }

  // ----- Undisturbed runs: what the buffers contain

  ghost predicate Invariant(s: State) {
    && Owned(s) && Bounded(s) && Counted(s)
    && ReceiveContents(s) && HeldContents(s) && SentContents(s) && GainContents(s)
  }

  lemma InvariantStep(s: State, step: Step)
    requires Invariant(s) && Enabled(s, step) && !Switched(s, Next(s, step))
    ensures Invariant(Next(s, step))
  {
    OwnershipStepIff(s, step);
    BoundedStep(s, step);
    CountedStep(s, step);
    OwnedWritesApart(s, step);
    ReceiveContentsStep(s, step);
    HeldContentsStep(s, step);
    SentContentsStep(s, step);
    GainContentsStep(s, step);
  }

  lemma InvariantStart()
    ensures Invariant(START)
  {
  }

  lemma InvariantTransition(s: State, s': State)
    requires Invariant(s) && Transition(s, s') && !Switched(s, s')
    ensures Invariant(s')
  {
    var step :| Enabled(s, step) && s' == Next(s, step);
    InvariantStep(s, step);
  }

  lemma {:induction false} RunInvariant(run: seq<State>, i: nat)
    requires IsRun(run) && Undisturbed(run) && i < |run|
    ensures Invariant(run[i])
  {
    if i > 0 {
      RunInvariant(run, i - 1);
      TransitionAt(run, i - 1);
      assert !Switched(run[i - 1], run[i - 1 + 1]);
      InvariantTransition(run[i - 1], run[i]);
    } else {
      InvariantStart();
    }
  }

  /**
    Buffer ownership: at every moment of an undisturbed run each received buffer has exactly one owner; it
    is freed at most once and is then nowhere else. The queues never exceed 200 entries.
  */
  lemma BuffersOwned(run: seq<State>, i: nat, id: Id)
    requires IsRun(run) && Undisturbed(run) && i < |run|
    ensures Owners(run[i], id) == if id in run[i].memory then 1 else 0
    ensures run[i].freed[id] <= 1
    ensures id in run[i].freed ==> Apart(run[i], id) && HeldOwned(run[i]) != Some(id)
    ensures |run[i].receiveQueue| <= 200 && |run[i].gainQueue| <= 200
    ensures 1 <= run[i].counter <= 10
  {
    RunInvariant(run, i);
    var s := run[i];
    assert id in s.receiveQueue ==> In(s.receiveQueue, id) >= 1;
    assert id in s.gainQueue ==> In(s.gainQueue, id) >= 1;
    assert Owners(s, id) <= 1;
  }

  /**
    Frames: one frame for each ten packets handled, once the finished batch is handed off, and the k-th one
    is the peak-hold of the k-th ten packets the callback accepted.
  */
  lemma FramesArePeaks(run: seq<State>, i: nat)
    requires IsRun(run) && Undisturbed(run) && i < |run|
    ensures !run[i].finished || run[i].phase == Begun(false) ==> |run[i].sent| == Handled(run[i]) / 10
    ensures forall k :: 0 <= k < |run[i].sent| ==>
      && 10 * k + 10 <= |run[i].accepted|
      && Mergeable(run[i].accepted[10 * k..10 * k + 10])
      && run[i].sent[k] == Hold(run[i].accepted[10 * k..10 * k + 10])
  {
    RunInvariant(run, i);
    var s := run[i];
    forall k | 0 <= k < |s.sent|
      ensures BATCH * k + BATCH <= |s.taken| && BatchAt(s.accepted, k) == BatchAt(s.taken, k)
    {
      assert s.taken <= s.accepted;
    }
  }

  /** The gain task processes the queued frames in the order in which they were sent, none lost, none twice. */
  lemma GainTaskInOrder(run: seq<State>, i: nat)
    requires IsRun(run) && Undisturbed(run) && i < |run|
    ensures |run[i].sent| == |run[i].headers| == |run[i].outcomes|
    ensures run[i].processed <= QueuedFrames(run[i])
    ensures |QueuedFrames(run[i])| == |run[i].processed| + |InTask(run[i])| + |run[i].gainQueue|
  {
    RunInvariant(run, i);
  }

  // ----- The gain the system commands

  /** The accepted packets of the batches that were queued for the gain task, the first `n` of them. */
  ghost function QueuedBatches(s: State, n: nat): (batches: seq<seq<Packet>>)
    requires n <= |QueuedIndices(s.outcomes)| && BATCH * |s.outcomes| <= |s.accepted|
    ensures |batches| == n
  {
    var indices := QueuedIndices(s.outcomes);
    seq(n, k requires 0 <= k < n => BatchAt(s.accepted, indices[k]))
  }

  /** What sending their frames put in front of them. */
  ghost function QueuedHeaders(s: State, n: nat): (headers: seq<seq<Byte>>)
    requires n <= |QueuedIndices(s.outcomes)| && |s.headers| == |s.outcomes|
    ensures |headers| == n
  {
    var indices := QueuedIndices(s.outcomes);
    seq(n, k requires 0 <= k < n => s.headers[indices[k]])
  }

  /**
    The frames the gain task has processed are, in order, the peak-holds of the queued batches of
    accepted packets, each behind the headers of its transmission.
  */
  lemma ProcessedAreBatches(run: seq<State>, i: nat)
    requires IsRun(run) && Undisturbed(run) && i < |run|
    ensures
      var s := run[i];
      var n := |s.processed|;
      && n <= |QueuedIndices(s.outcomes)| && BATCH * |s.outcomes| <= |s.accepted| && |s.headers| == |s.outcomes|
      && forall k :: 0 <= k < n ==>
           && Mergeable(QueuedBatches(s, n)[k])
           && s.processed[k] == WithHeaders(QueuedHeaders(s, n)[k], Hold(QueuedBatches(s, n)[k]))
  {
    var s := run[i];
    GainTaskInOrder(run, i);
    FramesArePeaks(run, i);
    if s.sent != [] { assert BATCH * (|s.sent| - 1) + BATCH <= |s.accepted|; }
    forall k | 0 <= k < |s.processed| ensures s.processed[k] == QueuedFrames(s)[k] {
    }
  }

  ghost function FrameInputs(frames: seq<Frame>): (inputs: seq<Input>)
    requires forall k :: 0 <= k < |frames| ==> Processable(frames[k])
    ensures |inputs| == |frames| && ValidInputs(inputs)
  {
    seq(|frames|, k requires 0 <= k < |frames| => InputOf(frames[k]))
  }

  lemma FramesOfBatches(frames: seq<Frame>, headers: seq<seq<Byte>>, batches: seq<seq<Packet>>)
    requires AlignedBatches(headers, batches) && |frames| == |batches|
    requires forall k :: 0 <= k < |frames| ==> frames[k] == WithHeaders(headers[k], Hold(batches[k]))
    ensures forall k :: 0 <= k < |frames| ==> Processable(frames[k])
    ensures FrameInputs(frames) == HeldInputs(headers, batches)
  {
    forall k | 0 <= k < |frames| ensures Processable(frames[k]) {
      HeldProcessable(headers[k], batches[k]);
    }
  }

  /** The batches behind the processed frames are aligned. */
  ghost predicate QueuedAligned(s: State) {
    var n := |s.processed|;
    && n <= |QueuedIndices(s.outcomes)| && BATCH * |s.outcomes| <= |s.accepted| && |s.headers| == |s.outcomes|
    && AlignedBatches(QueuedHeaders(s, n), QueuedBatches(s, n))
  }

  /** The lines of the processed frames, read directly off the packets that the receive callback accepted. */
  ghost function QueuedHistory(s: State): (history: seq<Line>)
    requires QueuedAligned(s)
    ensures |history| == |s.processed| && ValidHistory(LINES, history)
  {
    var headers, batches := QueuedHeaders(s, |s.processed|), QueuedBatches(s, |s.processed|);
    HeldInputsFollowPackets(headers, batches);
    PacketHistory(headers, batches)
  }

  lemma ProcessedInputs(run: seq<State>, i: nat)
    requires IsRun(run) && Undisturbed(run) && i < |run| && QueuedAligned(run[i])
    ensures forall k :: 0 <= k < |run[i].processed| ==> Processable(run[i].processed[k])
    ensures FrameInputs(run[i].processed)
         == HeldInputs(QueuedHeaders(run[i], |run[i].processed|), QueuedBatches(run[i], |run[i].processed|))
  {
    var n := |run[i].processed|;
    ProcessedAreBatches(run, i);
    FramesOfBatches(run[i].processed, QueuedHeaders(run[i], n), QueuedBatches(run[i], n));
  }

  /**
    The whole system, in any order of lines: in any undisturbed run, whichever batches were refused, if
    the queued ones are aligned then after the `t`-th processed frame each cell of the gain table is the
    reference cell of its own passes, as read off the accepted packets.
  */
  lemma SystemCells(run: seq<State>, i: nat, t: nat, c: nat)
    requires IsRun(run) && Undisturbed(run) && i < |run| && QueuedAligned(run[i])
    requires t <= |run[i].processed| && c < LINES
    ensures forall k :: 0 <= k < |run[i].processed| ==> Processable(run[i].processed[k])
    ensures RunTask(FrameInputs(run[i].processed), t).table.cells[c] == ReferenceCell(QueuedHistory(run[i]), t, c)
  {
    var n := |run[i].processed|;
    ProcessedInputs(run, i);
    PacketsToCells(QueuedHeaders(run[i], n), QueuedBatches(run[i], n), t, c);
  }

  /**
    The whole system in azimuth order: in any undisturbed run, whichever batches were refused, if the
    queued ones are aligned and follow each other in azimuth order from any first line, then the gain in force after the
    `x`-th processed frame is the closed form read off the accepted packets.
  */
  lemma SystemGain(run: seq<State>, i: nat, start: nat, x: nat)
    requires IsRun(run) && Undisturbed(run) && i < |run| && QueuedAligned(run[i])
    requires InOrder(LINES, start, QueuedHistory(run[i])) && 0 < x <= |run[i].processed|
    ensures forall k :: 0 <= k < |run[i].processed| ==> Processable(run[i].processed[k])
    ensures RunTask(FrameInputs(run[i].processed), x).table.gain == ClosedForm(QueuedHistory(run[i]), x)
  {
    var n := |run[i].processed|;
    ProcessedInputs(run, i);
    PacketsToGain(QueuedHeaders(run[i], n), QueuedBatches(run[i], n), start, x);
  }
}
