/**
  The tasks under their priorities. Messages and packets come in from the input thread, which has the
  lowest priority; the TCP task has the highest, then the parse task, then the gain task. A switch of
  tasks goes to the ready task of the highest priority. The running task may go on for a while although a
  higher one is ready: what the input thread queues takes effect with the next interrupt.
*/
module Scheduling {
  import opened GainRing
  import opened LineScan
  import opened PeakHold
  import opened Averages
  import opened EndToEnd
  import opened Commands
  import opened Pipeline
  import opened PipelineContents
  import opened SystemRuns

  datatype Task = InputThread | Gain | Parse | Tcp

  function Priority(t: Task): nat {
    match t case InputThread => 0 case Gain => 1 case Parse => 2 case Tcp => 3
  }

  /** The tasks and buffers, the messages that wait for the TCP task, and the task that runs. */
  datatype Schedule = Schedule(system: State, messages: seq<Message>, running: Task)

  const IDLE_START := Schedule(START, [], InputThread)

  /** A task is ready when it has something to do; the input thread always is. */
  predicate Ready(c: Schedule, t: Task) {
    match t
    case InputThread => true
    case Gain => !c.system.suspended && (c.system.gainTask.Some? || c.system.gainQueue != [])
    case Parse => c.system.receiveQueue != [] || c.system.inHand.Some? || c.system.finished
    case Tcp => c.messages != []
  }

  function TaskOf(step: Step): Task {
    match step
    case Receive(_, _) => InputThread
    case Take => Parse
    case Handle => Parse
    case Begin(_) => Parse
    case Conclude(_) => Parse
    case GainTake => Gain
    case GainFinish => Gain
    case Command(_) => Tcp
  }

  /** Another task is dispatched, a message arrives, or the running task makes a step. */
  datatype Action = Dispatch(task: Task) | Arrive(m: Message) | Work(step: Step)

  ghost predicate Allowed(c: Schedule, action: Action) {
    match action
    case Dispatch(task) =>
      Ready(c, task) && forall other :: Ready(c, other) ==> Priority(other) <= Priority(task)
    case Arrive(_) => c.running == InputThread
    case Work(step) =>
      && c.running == TaskOf(step) && Enabled(c.system, step)
      && (step.Command? ==> c.messages != [] && c.messages[0] == step.m)
  }

  ghost function After(c: Schedule, action: Action): Schedule
    requires Allowed(c, action)
  {
    match action
    case Dispatch(task) => c.(running := task)
    case Arrive(m) => if |c.messages| < QUEUE_LENGTH then c.(messages := c.messages + [m]) else c
    case Work(step) =>
      c.(system := Next(c.system, step), messages := if step.Command? then c.messages[1..] else c.messages)
  }

  ghost predicate Follows(c: Schedule, c': Schedule) {
    exists action :: Allowed(c, action) && c' == After(c, action)
  }

  /** A run of the firmware under its priorities. */
  ghost predicate IsScheduledRun(run: seq<Schedule>) {
    run != [] && run[0] == IDLE_START && forall i :: 0 <= i < |run| - 1 ==> Follows(run[i], run[i + 1])
  }

  // ----- What the priorities keep

  ghost predicate GainIdle(s: State) { s.gainQueue == [] && s.gainTask.None? }

  ghost predicate ParseIdle(s: State) { s.inHand.None? && !s.finished }

  /** Everything on its way to the gain task, counted in packets. */
  function InFlight(s: State): int {
    BATCH * |s.gainQueue| + Pending(s) + (if s.inHand.Some? then 1 else 0) + |s.receiveQueue|
  }

  /**
    Messages wait only while the input thread or the TCP task runs; then the gain task has no frame and no
    queue, and unless the parse task runs, no batch is complete and no hand-off begun.
  */
  ghost predicate Prioritized(c: Schedule) {
    var s := c.system;
    && Regular(s)
    && (c.running in {Gain, Parse} ==> c.messages == [])
    && (c.running in {InputThread, Tcp} || s.suspended ==> GainIdle(s))
    && (c.running != Parse ==> ParseIdle(s))
    && (c.running == Gain ==> s.receiveQueue == [])
    && (s.phase.Begun? ==> s.phase.suspended == s.suspended)
    && InFlight(s) <= QUEUE_LENGTH + BATCH - 1
  }

  lemma PrioritizedStart()
    ensures Prioritized(IDLE_START)
  {
    RegularStart();
  }

  lemma DispatchKeeps(c: Schedule, task: Task)
    requires Prioritized(c) && Allowed(c, Dispatch(task))
    ensures Prioritized(After(c, Dispatch(task)))
  {
    assert Ready(c, Tcp) ==> Priority(Tcp) <= Priority(task);
    assert Ready(c, Parse) ==> Priority(Parse) <= Priority(task);
    assert Ready(c, Gain) ==> Priority(Gain) <= Priority(task);
  }

  lemma ArriveKeeps(c: Schedule, m: Message)
    requires Prioritized(c) && Allowed(c, Arrive(m))
    ensures Prioritized(After(c, Arrive(m)))
  {
  }

  lemma CommandKeeps(c: Schedule, m: Message)
    requires Prioritized(c) && Allowed(c, Work(Command(m)))
    ensures Prioritized(After(c, Work(Command(m))))
  {
    RegularStep(c.system, Command(m));
  }

  lemma ReceiveKeeps(c: Schedule, id: Id, packet: Packet)
    requires Prioritized(c) && Allowed(c, Work(Receive(id, packet)))
    ensures Prioritized(After(c, Work(Receive(id, packet))))
  {
    RegularStep(c.system, Receive(id, packet));
  }

  lemma GainKeeps(c: Schedule, step: Step)
    requires Prioritized(c) && Allowed(c, Work(step)) && TaskOf(step) == Gain
    ensures Prioritized(After(c, Work(step)))
  {
    RegularStep(c.system, step);
  }

  lemma ParseKeeps(c: Schedule, step: Step)
    requires Prioritized(c) && Allowed(c, Work(step)) && TaskOf(step) == Parse
    ensures Prioritized(After(c, Work(step)))
  {
    RegularStep(c.system, step);
    ParseKeepsInFlight(c.system, step);
  }

  /** The parse task only moves what is in flight; a frame in the gain queue stands for its ten packets. */
  lemma ParseKeepsInFlight(s: State, step: Step)
    requires Bounded(s) && Enabled(s, step) && TaskOf(step) == Parse
    requires s.phase.Begun? ==> s.phase.suspended == s.suspended
    ensures InFlight(Next(s, step)) <= InFlight(s)
  {
  }

  lemma PrioritizedStep(c: Schedule, action: Action)
    requires Prioritized(c) && Allowed(c, action)
    ensures Prioritized(After(c, action))
  {
    match action
    case Dispatch(task) => DispatchKeeps(c, task);
    case Arrive(m) => ArriveKeeps(c, m);
    case Work(step) =>
      match step
      case Receive(id, packet) => ReceiveKeeps(c, id, packet);
      case Command(m) => CommandKeeps(c, m);
      case GainTake => GainKeeps(c, step);
      case GainFinish => GainKeeps(c, step);
      case _ => ParseKeeps(c, step);
  }

  lemma SystemMoves(c: Schedule, action: Action)
    requires Prioritized(c) && Allowed(c, action)
    ensures !Switched(c.system, After(c, action).system)
    ensures After(c, action).system == c.system || Transition(c.system, After(c, action).system)
  {
    if action.Work? {
      assert Enabled(c.system, action.step);
    }
  }

  lemma FollowsKeeps(c: Schedule, c': Schedule)
    requires Prioritized(c) && Follows(c, c')
    ensures Prioritized(c') && !Switched(c.system, c'.system)
    ensures c'.system == c.system || Transition(c.system, c'.system)
  {
    var action :| Allowed(c, action) && c' == After(c, action);
    PrioritizedStep(c, action);
    SystemMoves(c, action);
  }

  lemma FollowsAt(run: seq<Schedule>, i: nat)
    requires IsScheduledRun(run) && i + 1 < |run|
    ensures Follows(run[i], run[i + 1])
  {
  }

  /** The invariant holds at every moment of every run under the priorities. */
  lemma {:induction false} RunPrioritized(run: seq<Schedule>, i: nat)
    requires IsScheduledRun(run) && i < |run|
    ensures Prioritized(run[i])
  {
    if i > 0 {
      RunPrioritized(run, i - 1);
      FollowsAt(run, i - 1);
      FollowsKeeps(run[i - 1], run[i]);
    } else {
      PrioritizedStart();
    }
  }

  // ----- What follows for the firmware

  /**
    Every state of the firmware is reached by an undisturbed run: under the priorities no command, and no
    step of the gain task, comes inside a hand-off. All that holds of undisturbed runs holds of it.
  */
  lemma {:induction false} FirmwareIsUndisturbed(run: seq<Schedule>, i: nat) returns (plain: seq<State>)
    requires IsScheduledRun(run) && i < |run|
    ensures IsRun(plain) && Undisturbed(plain) && plain[|plain| - 1] == run[i].system
  {
    if i == 0 {
      plain := [START];
    } else {
      plain := FirmwareIsUndisturbed(run, i - 1);
      RunPrioritized(run, i - 1);
      FollowsAt(run, i - 1);
      FollowsKeeps(run[i - 1], run[i]);
      if run[i].system != run[i - 1].system {
        plain := Prolong(plain, run[i].system);
      }
    }
  }

  lemma Prolong(run: seq<State>, s: State) returns (longer: seq<State>)
    requires IsRun(run) && Undisturbed(run)
    requires Transition(run[|run| - 1], s) && !Switched(run[|run| - 1], s)
    ensures IsRun(longer) && Undisturbed(longer) && longer[|longer| - 1] == s
  {
    longer := run + [s];
    forall i | 0 <= i < |longer| - 1
      ensures Transition(longer[i], longer[i + 1]) && !Switched(longer[i], longer[i + 1])
    {
      if i < |run| - 1 { assert longer[i] == run[i] && longer[i + 1] == run[i + 1]; }
    }
  }

  /** Inside a hand-off only the parse task makes steps, and the step it makes ends the hand-off. */
  lemma OnlyConcludeInside(run: seq<Schedule>, i: nat, step: Step)
    requires IsScheduledRun(run) && i < |run| && run[i].system.phase.Begun? && Allowed(run[i], Work(step))
    ensures step.Conclude?
  {
    RunPrioritized(run, i);
  }

  /** At every moment of every run of the firmware each received buffer has one owner. */
  lemma FirmwareOwnsBuffers(run: seq<Schedule>, i: nat)
    requires IsScheduledRun(run) && i < |run|
    ensures Owned(run[i].system)
  {
    var plain := FirmwareIsUndisturbed(run, i);
    RunInvariant(plain, |plain| - 1);
  }

  /**
    A command finds the gain task without a frame and without a queue, so that it is never suspended in the
    middle of a line, and no frame waits in the queue while it is suspended.
  */
  lemma CommandsFindGainTaskIdle(run: seq<Schedule>, i: nat, m: Message)
    requires IsScheduledRun(run) && i < |run|
    ensures Allowed(run[i], Work(Command(m))) || run[i].system.suspended ==> GainIdle(run[i].system)
  {
    RunPrioritized(run, i);
  }

  /** The messages handled so far and those that wait, in the order in which they came in. */
  function MessagesIn(c: Schedule): seq<Message> { c.system.commands + c.messages }

  /** A message that finds fewer than 200 waiting is queued behind them; handling one takes the first. */
  lemma MessagesConserved(c: Schedule, action: Action)
    requires Allowed(c, action)
    ensures MessagesIn(After(c, action))
         == MessagesIn(c) + if action.Arrive? && |c.messages| < 200 then [action.m] else []
  {
    if action.Work? && action.step.Command? {
      assert c.messages == [c.messages[0]] + c.messages[1..];
    }
  }

  /** No message that found room is lost, handled twice or overtaken by a later one. */
  lemma {:induction false} MessagesInOrder(run: seq<Schedule>, i: nat, j: nat)
    requires IsScheduledRun(run) && i <= j < |run|
    ensures MessagesIn(run[i]) <= MessagesIn(run[j])
    decreases j
  {
    if i < j {
      var before := j - 1;
      MessagesInOrder(run, i, before);
      MessagesAt(run, before);
      PrefixOfPrefix(MessagesIn(run[i]), MessagesIn(run[before]), MessagesIn(run[j]));
    }
  }

  lemma PrefixOfPrefix(a: seq<Message>, b: seq<Message>, c: seq<Message>)
    requires a <= b <= c
    ensures a <= c
  {
    assert a == b[..|a|] == c[..|a|];
  }

  lemma MessagesAt(run: seq<Schedule>, k: nat)
    requires IsScheduledRun(run) && k + 1 < |run|
    ensures MessagesIn(run[k]) <= MessagesIn(run[k + 1])
  {
    FollowsAt(run, k);
    MessagesGrow(run[k], run[k + 1]);
  }

  lemma MessagesGrow(c: Schedule, c': Schedule)
    requires Follows(c, c')
    ensures MessagesIn(c) <= MessagesIn(c')
  {
    var action :| Allowed(c, action) && c' == After(c, action);
    MessagesConserved(c, action);
  }

  /** The gain queue, which has room for 200 frames, never holds more than 20. */
  lemma GainQueueHasRoom(run: seq<Schedule>, i: nat)
    requires IsScheduledRun(run) && i < |run|
    ensures |run[i].system.gainQueue| <= (QUEUE_LENGTH + BATCH - 1) / BATCH == 20
  {
    RunPrioritized(run, i);
    assert BATCH * |run[i].system.gainQueue| <= InFlight(run[i].system);
  }

  lemma OutcomesStep(c: Schedule, c': Schedule)
    requires Prioritized(c) && Follows(c, c')
    ensures c'.system.outcomes == c.system.outcomes
         || c'.system.outcomes == c.system.outcomes + [if c.system.suspended then ManualMode else Queued]
  {
    var action :| Allowed(c, action) && c' == After(c, action);
    assert BATCH * |c.system.gainQueue| <= InFlight(c.system);
    if action.Work? {
      OutcomeStep(c.system, action.step);
    }
  }

  /** No batch is ever refused for a full gain queue: each one is queued, or ends in manual mode. */
  lemma {:induction false} NoBatchRefused(run: seq<Schedule>, i: nat, k: nat)
    requires IsScheduledRun(run) && i < |run| && k < |run[i].system.outcomes|
    ensures run[i].system.outcomes[k] != Full
    decreases i
  {
    if i > 0 {
      RunPrioritized(run, i - 1);
      FollowsAt(run, i - 1);
      OutcomesStep(run[i - 1], run[i - 1 + 1]);
      if k < |run[i - 1].system.outcomes| {
        NoBatchRefused(run, i - 1, k);
      }
    }
  }

  /**
    The firmware in any order of lines: if the queued batches are aligned, each cell of the gain table is
    the reference cell of its own passes, as read off the accepted packets.
  */
  lemma FirmwareCells(run: seq<Schedule>, i: nat, t: nat, c: nat)
    requires IsScheduledRun(run) && i < |run| && QueuedAligned(run[i].system)
    requires t <= |run[i].system.processed| && c < LINES
    ensures forall k :: 0 <= k < |run[i].system.processed| ==> Processable(run[i].system.processed[k])
    ensures RunTask(FrameInputs(run[i].system.processed), t).table.cells[c]
         == ReferenceCell(QueuedHistory(run[i].system), t, c)
  {
    var plain := FirmwareIsUndisturbed(run, i);
    SystemCells(plain, |plain| - 1, t, c);
  }

  /** The firmware in azimuth order: the gain in force is the closed form read off the accepted packets. */
  lemma FirmwareGain(run: seq<Schedule>, i: nat, start: nat, x: nat)
    requires IsScheduledRun(run) && i < |run| && QueuedAligned(run[i].system)
    requires InOrder(LINES, start, QueuedHistory(run[i].system)) && 0 < x <= |run[i].system.processed|
    ensures forall k :: 0 <= k < |run[i].system.processed| ==> Processable(run[i].system.processed[k])
    ensures RunTask(FrameInputs(run[i].system.processed), x).table.gain
         == ClosedForm(QueuedHistory(run[i].system), x)
  {
    var plain := FirmwareIsUndisturbed(run, i);
    SystemGain(plain, |plain| - 1, start, x);
  }

  /** In the firmware the gain in force for line `x` is below 127 exactly when its window was hit often enough. */
  lemma FirmwareAttenuation(run: seq<Schedule>, i: nat, start: nat, x: nat)
    requires IsScheduledRun(run) && i < |run| && QueuedAligned(run[i].system)
    requires InOrder(1200, start, QueuedHistory(run[i].system)) && 0 < x <= |run[i].system.processed|
    ensures forall k :: 0 <= k < |run[i].system.processed| ==> Processable(run[i].system.processed[k])
    ensures RunTask(FrameInputs(run[i].system.processed), x).table.gain < 127
      <==> Attenuated(QueuedHistory(run[i].system), x)
  {
    FirmwareGain(run, i, start, x);
    BelowWhenAttenuated(RunTask(FrameInputs(run[i].system.processed), x).table.gain, QueuedHistory(run[i].system), x);
  }

  // ----- No task is stuck

  /** The packet in hand can be handled: it is the first of its batch, or the held chain can take it. */
  ghost predicate CanMerge(s: State) {
    s.inHand.Some? && s.counter != 1 ==>
      && s.held.Some? && s.held.value in s.memory && s.inHand.value in s.memory
      && PeakHold.Fits(s.memory[s.held.value].segments, s.memory[s.inHand.value])
  }

  lemma OwnedInMemory(s: State, id: Id)
    requires Owned(s) && Owners(s, id) > 0
    ensures id in s.memory
  {
  }

  lemma ParseCanStep(s: State) returns (step: Step)
    requires Owned(s) && Bounded(s) && CanMerge(s)
    requires s.receiveQueue != [] || s.inHand.Some? || s.finished
    requires s.phase == Begun(false) ==> s.held.Some? && s.held.value in s.memory
    ensures TaskOf(step) == Parse && Enabled(s, step)
  {
    if s.finished {
      step := if s.phase.Idle? then Begin([]) else Conclude([]);
      if s.phase != Begun(false) { OwnedInMemory(s, s.held.value); }
    } else if s.inHand.Some? {
      step := Handle;
      OwnedInMemory(s, s.inHand.value);
    } else {
      step := Take;
      InWithoutFirst(s.receiveQueue, s.receiveQueue[0]);
      OwnedInMemory(s, s.receiveQueue[0]);
    }
  }

  /** The buffer that is handed over stays in memory until the hand-off ends. */
  ghost predicate HandedOver(s: State) {
    s.phase == Begun(false) ==> s.held.Some? && s.held.value in s.memory
  }

  lemma HandedOverStep(s: State, step: Step)
    requires HandedOver(s) && Enabled(s, step)
    ensures HandedOver(Next(s, step))
  {
  }

  lemma HandedOverFollows(c: Schedule, c': Schedule)
    requires HandedOver(c.system) && Follows(c, c')
    ensures HandedOver(c'.system)
  {
    var action :| Allowed(c, action) && c' == After(c, action);
    if action.Work? { HandedOverStep(c.system, action.step); }
  }

  lemma {:induction false} RunHandedOver(run: seq<Schedule>, i: nat)
    requires IsScheduledRun(run) && i < |run|
    ensures HandedOver(run[i].system)
  {
    if i > 0 {
      RunHandedOver(run, i - 1);
      FollowsAt(run, i - 1);
      HandedOverFollows(run[i - 1], run[i]);
    }
  }

  /**
    At every moment of every run each task that is ready has a step that it can make as soon as it runs; for
    the parse task, if its packet fits the held chain.
  */
  lemma ReadyTaskCanStep(run: seq<Schedule>, i: nat, task: Task) returns (step: Step)
    requires IsScheduledRun(run) && i < |run| && CanMerge(run[i].system)
    requires Ready(run[i], task) && !task.InputThread?
    ensures TaskOf(step) == task && Allowed(run[i].(running := task), Work(step))
  {
    var s := run[i].system;
    RunPrioritized(run, i);
    FirmwareOwnsBuffers(run, i);
    match task
    case Gain =>
      if s.gainTask.Some? {
        step := GainFinish;
        OwnedInMemory(s, s.gainTask.value);
      } else {
        step := GainTake;
      }
    case Parse =>
      RunHandedOver(run, i);
      step := ParseCanStep(s);
    case Tcp =>
      step := Command(run[i].messages[0]);
  }

  /** Some task can always be dispatched, and when the input thread runs any new packet or message can arrive. */
  lemma NeverStuck(c: Schedule, id: Id, packet: Packet, m: Message)
    ensures exists task :: Allowed(c, Dispatch(task))
    ensures c.running == InputThread && id !in c.system.memory ==>
      Allowed(c, Work(Receive(id, packet))) && Allowed(c, Arrive(m))
  {
    var task := if Ready(c, Tcp) then Tcp else if Ready(c, Parse) then Parse else if Ready(c, Gain) then Gain
                else InputThread;
    assert Allowed(c, Dispatch(task));
  }
}
