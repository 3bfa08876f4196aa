/**
  The tasks and the buffers they pass on: receive callback, parse task, gain task and commands, in
  any interleaving of their steps. The hand-off of a finished frame is two steps, one for each time the
  parse task reads the mode, so that under some scheduler commands and the gain task may come in between.
  Module Scheduling shows that they do not under the priorities of the firmware.
*/
module Pipeline {
  import opened MachineTypes
  import opened LineScan
  import opened PeakHold
  import opened Commands

  const QUEUE_LENGTH := 200
  const BATCH := 10

  type Id = nat

  // ----- States and steps

  /** How a batch ended: its frame was queued for the gain task, dropped at a full queue, or not offered. */
  datatype Outcome = Queued | Full | ManualMode

  /** The hand-off: not begun, or begun, with the mode that the first reading found. */
  datatype Phase = Idle | Begun(suspended: bool)

  datatype State = State(
    memory: map<Id, Packet>,        // every buffer ever received, with its present bytes
    receiveQueue: seq<Id>,
    inHand: Option<Id>,             // taken by the parse task, not yet handled
    counter: nat,
    held: Option<Id>,               // the reference of the batch
    finished: bool,                 // the batch is complete and its hand-off is not concluded
    phase: Phase,
    gainQueue: seq<Id>,
    gainTask: Option<Id>,
    freed: multiset<Id>,
    suspended: bool,
    // what has been observed so far
    accepted: seq<Packet>,          // packets that found room in the receive queue
    taken: seq<Packet>,             // packets taken from it
    sent: seq<Frame>,               // frames sent by UDP
    headers: seq<seq<Byte>>,        // what each transmission put in front of its frame
    outcomes: seq<Outcome>,         // how each batch ended
    processed: seq<Frame>,          // frames the gain task finished
    commands: seq<Message>)

  const START :=
    State(map[], [], None, 1, None, false, Idle, [], None, multiset{}, false, [], [], [], [], [], [], [])

  datatype Step =
    | Receive(id: Id, packet: Packet)
    | Take
    | Handle
    | Begin(headers: seq<Byte>)
    | Conclude(headers: seq<Byte>)
    | GainTake
    | GainFinish
    | Command(m: Message)

  /** When a step can happen. Merging needs a held chain that can take the packet, as the code does. */
  ghost predicate Enabled(s: State, step: Step) {
    match step
    case Receive(id, _) => id !in s.memory
    case Take => s.inHand.None? && !s.finished && s.receiveQueue != [] && s.receiveQueue[0] in s.memory
    case Handle =>
      && s.inHand.Some? && s.inHand.value in s.memory
      && (s.counter != 1 ==>
            && s.held.Some? && s.held.value in s.memory
            && Fits(s.memory[s.held.value].segments, s.memory[s.inHand.value]))
    case Begin(_) => s.finished && s.phase.Idle? && s.held.Some? && s.held.value in s.memory
    case Conclude(_) => s.finished && s.phase.Begun? && s.held.Some? && s.held.value in s.memory
    case GainTake => !s.suspended && s.gainTask.None? && s.gainQueue != []
    case GainFinish => !s.suspended && s.gainTask.Some? && s.gainTask.value in s.memory
    case Command(_) => true
  }

  /** The receive callback: queue the buffer, or free it when the queue is full. */
  function ReceiveStep(s: State, id: Id, packet: Packet): State {
    var s := s.(memory := s.memory[id := packet]);
    if |s.receiveQueue| < QUEUE_LENGTH then
      s.(receiveQueue := s.receiveQueue + [id], accepted := s.accepted + [packet])
    else s.(freed := s.freed + multiset{id})
  }

  function TakeStep(s: State): State
    requires s.receiveQueue != [] && s.receiveQueue[0] in s.memory
  {
    var id := s.receiveQueue[0];
    s.(receiveQueue := s.receiveQueue[1..], inHand := Some(id), taken := s.taken + [s.memory[id]])
  }

  /** The first packet of a batch is held; the others are merged into it and freed. */
  function HandleStep(s: State): State
    requires Enabled(s, Handle)
  {
    var id := s.inHand.value;
    if s.counter == 1 then s.(held := Some(id), inHand := None, counter := 2)
    else
      var held := s.held.value;
      var merged := MergePacket(s.memory[held].segments, s.memory[id]);
      var s := s.(memory := s.memory[held := s.memory[held].(segments := merged)],
                  inHand := None, freed := s.freed + multiset{id});
      if s.counter >= BATCH then s.(finished := true) else s.(counter := s.counter + 1)
  }

  function OutcomeOf(s: State): Outcome {
    if s.suspended then ManualMode else if |s.gainQueue| < QUEUE_LENGTH then Queued else Full
  }

  /** Sending the held frame, which leaves its headers in the buffer. */
  function Transmit(s: State, headers: seq<Byte>): State
    requires s.held.Some? && s.held.value in s.memory
  {
    var id := s.held.value;
    var frame := s.memory[id].segments;
    s.(memory := s.memory[id := s.memory[id].(segments := WithHeaders(headers, frame))],
       sent := s.sent + [frame], headers := s.headers + [headers], outcomes := s.outcomes + [OutcomeOf(s)])
  }

  /**
    First reading: unless the gain task is suspended, queue the buffer, or free it when the queue is full,
    and send. This is one step, because the parse task outranks the gain task, which therefore does not
    read a queued buffer before it was sent.
  */
  function BeginStep(s: State, headers: seq<Byte>): State
    requires Enabled(s, Begin(headers))
  {
    if s.suspended then s.(phase := Begun(true))
    else
      var id := s.held.value;
      var s' := Transmit(s, headers).(phase := Begun(false));
      if |s.gainQueue| < QUEUE_LENGTH then s'.(gainQueue := s.gainQueue + [id])
      else s'.(freed := s.freed + multiset{id})
  }

  /** Second reading: if the gain task is suspended, send and free the buffer; then begin the next batch. */
  function ConcludeStep(s: State, headers: seq<Byte>): State
    requires Enabled(s, Conclude(headers))
  {
    var s' := if s.suspended then Transmit(s, headers).(freed := s.freed + multiset{s.held.value}) else s;
    s'.(held := None, finished := false, phase := Idle, counter := 1)
  }

  function GainTakeStep(s: State): State
    requires s.gainQueue != []
  {
    s.(gainQueue := s.gainQueue[1..], gainTask := Some(s.gainQueue[0]))
  }

  function GainFinishStep(s: State): State
    requires s.gainTask.Some? && s.gainTask.value in s.memory
  {
    s.(gainTask := None, freed := s.freed + multiset{s.gainTask.value},
       processed := s.processed + [s.memory[s.gainTask.value].segments])
  }

  ghost function Next(s: State, step: Step): State
    requires Enabled(s, step)
  {
    match step
    case Receive(id, packet) => ReceiveStep(s, id, packet)
    case Take => TakeStep(s)
    case Handle => HandleStep(s)
    case Begin(headers) => BeginStep(s, headers)
    case Conclude(headers) => ConcludeStep(s, headers)
    case GainTake => GainTakeStep(s)
    case GainFinish => GainFinishStep(s)
    case Command(m) => s.(suspended := NextMode(s.suspended, m), commands := s.commands + [m])
  }

  ghost predicate Transition(s: State, s': State) {
    exists step :: Enabled(s, step) && s' == Next(s, step)
  }

  /** `run` is a run of the system: it begins at the start and each state follows from the one before by some step. */
  ghost predicate IsRun(run: seq<State>) {
    run != [] && run[0] == START && forall i :: 0 <= i < |run| - 1 ==> Transition(run[i], run[i + 1])
  }

  /** The step from `s` to `s'` ends a hand-off that began in the other mode. */
  predicate Switched(s: State, s': State) {
    s.phase.Begun? && s'.phase.Idle? && s.phase.suspended != s.suspended
  }

  /** Every hand-off of the run ends in the mode in which it began. */
  ghost predicate Undisturbed(run: seq<State>) {
    forall i :: 0 <= i < |run| - 1 ==> !Switched(run[i], run[i + 1])
  }

  // ----- Ownership

  function In(ids: seq<Id>, id: Id): nat { multiset(ids)[id] }

  function Is(place: Option<Id>, id: Id): nat { if place == Some(id) then 1 else 0 }

  /** The parse task owns the held buffer until it passes it on in a hand-off that begins in automatic mode. */
  function HeldOwned(s: State): Option<Id> { if s.phase == Begun(false) then None else s.held }

  /** How many owners a buffer has; being free counts as one, each time it is freed. */
  function Owners(s: State, id: Id): nat {
    In(s.receiveQueue, id) + Is(s.inHand, id) + Is(HeldOwned(s), id) + In(s.gainQueue, id) + Is(s.gainTask, id)
    + s.freed[id]
  }

  /** Every received buffer has exactly one owner, and nothing else has any. */
  ghost predicate Owned(s: State) {
    forall id: Id :: Owners(s, id) == if id in s.memory then 1 else 0
  }

  ghost predicate Bounded(s: State) {
    && |s.receiveQueue| <= QUEUE_LENGTH && |s.gainQueue| <= QUEUE_LENGTH
    && 1 <= s.counter <= BATCH
    && (s.held.None? <==> s.counter == 1)
    && (s.finished ==> s.counter == BATCH && s.inHand.None?)
    && (s.phase.Begun? ==> s.finished)
    && |s.sent| == |s.headers| == |s.outcomes|
  }

  lemma InAppended(ids: seq<Id>, last: Id, id: Id)
    ensures In(ids + [last], id) == In(ids, id) + if last == id then 1 else 0
  {
  }

  lemma InWithoutFirst(ids: seq<Id>, id: Id)
    requires ids != []
    ensures In(ids, id) == In(ids[1..], id) + if ids[0] == id then 1 else 0
  {
    assert ids == [ids[0]] + ids[1..];
  }

  lemma BeginKeepsOwners(s: State, headers: seq<Byte>, id: Id)
    requires Enabled(s, Begin(headers))
    ensures Owners(BeginStep(s, headers), id) == Owners(s, id)
  {
    if s.suspended {
      assert HeldOwned(BeginStep(s, headers)) == HeldOwned(s);
    } else {
      PassedOn(s, BeginStep(s, headers), id);
    }
  }

  /** The held buffer leaves the parse task and is queued or freed. */
  lemma PassedOn(s: State, s': State, id: Id)
    requires s.held.Some? && HeldOwned(s) == s.held && HeldOwned(s').None?
    requires s'.receiveQueue == s.receiveQueue && s'.inHand == s.inHand && s'.gainTask == s.gainTask
    requires
      || (s'.gainQueue == s.gainQueue + [s.held.value] && s'.freed == s.freed)
      || (s'.gainQueue == s.gainQueue && s'.freed == s.freed + multiset{s.held.value})
    ensures Owners(s', id) == Owners(s, id)
  {
    InAppended(s.gainQueue, s.held.value, id);
  }

  /**
    Concluding a hand-off in the mode of its beginning moves the buffer; in manual mode instead it frees a
    buffer that has another owner, in automatic mode it forgets one that has no other.
  */
  lemma ConcludeOwners(s: State, headers: seq<Byte>, id: Id)
    requires Enabled(s, Conclude(headers))
    ensures Owners(ConcludeStep(s, headers), id) == Owners(s, id) +
      if s.held != Some(id) || s.phase.suspended == s.suspended then 0 else if s.suspended then 1 else -1
  {
  }

  lemma ReceiveOwners(s: State, received: Id, packet: Packet, id: Id)
    ensures Owners(ReceiveStep(s, received, packet), id) == Owners(s, id) + if received == id then 1 else 0
  {
    var s' := ReceiveStep(s, received, packet);
    assert HeldOwned(s') == HeldOwned(s);
    if |s.receiveQueue| < QUEUE_LENGTH {
      InAppended(s.receiveQueue, received, id);
    } else {
      assert s'.freed[id] == s.freed[id] + if received == id then 1 else 0;
    }
  }

  /** The steps that only move buffers, or change none. */
  lemma MovesKeepOwners(s: State, step: Step, id: Id)
    requires Bounded(s) && Enabled(s, step)
    requires !step.Receive? && !step.Begin? && !step.Conclude?
    ensures Owners(Next(s, step), id) == Owners(s, id)
  {
    match step
    case Take => InWithoutFirst(s.receiveQueue, id);
    case GainTake => InWithoutFirst(s.gainQueue, id);
    case _ =>
  }

  /** Buffers are conserved: a step moves them, and only a reception adds one. */
  lemma OwnersConserved(s: State, step: Step, id: Id)
    requires Bounded(s) && Enabled(s, step) && !Switched(s, Next(s, step))
    ensures Owners(Next(s, step), id) == Owners(s, id) + if step.Receive? && step.id == id then 1 else 0
  {
    match step
    case Receive(received, packet) => ReceiveOwners(s, received, packet, id);
    case Begin(headers) => BeginKeepsOwners(s, headers, id);
    case Conclude(headers) => ConcludeOwners(s, headers, id);
    case _ => MovesKeepOwners(s, step, id);
  }

  lemma MemoryStep(s: State, step: Step)
    requires Enabled(s, step)
    ensures Next(s, step).memory.Keys == s.memory.Keys + if step.Receive? then {step.id} else {}
  {
  }

  /** Only concluding a hand-off ends it. */
  lemma SwitchedConcludes(s: State, step: Step)
    requires Bounded(s) && Enabled(s, step) && Switched(s, Next(s, step))
    ensures step.Conclude?
  {
  }

  /**
    Every step of every task keeps ownership, unless it ends a hand-off that began in the other mode:
    that one always breaks it, by leaving the finished buffer with two owners or none.
  */
  lemma OwnershipStepIff(s: State, step: Step)
    requires Owned(s) && Bounded(s) && Enabled(s, step)
    ensures Owned(Next(s, step)) <==> !Switched(s, Next(s, step))
    ensures Switched(s, Next(s, step)) ==>
      && s.held.Some? && s.held.value in Next(s, step).memory
      && Owners(Next(s, step), s.held.value) == if s.suspended then 2 else 0
  {
    var s' := Next(s, step);
    MemoryStep(s, step);
    if Switched(s, s') {
      SwitchedConcludes(s, step);
      ConcludeOwners(s, step.headers, s.held.value);
    } else {
      forall id: Id ensures Owners(s', id) == if id in s'.memory then 1 else 0 {
        OwnersConserved(s, step, id);
        assert id in s'.memory.Keys <==> id in s.memory.Keys || (step.Receive? && step.id == id);
      }
    }
  }

  lemma BoundedStep(s: State, step: Step)
    requires Bounded(s) && Enabled(s, step)
    ensures Bounded(Next(s, step))
  {
  }

  /**
    What a step does to the receive queue: a received packet is accepted, and its buffer queued, exactly
    when fewer than 200 are waiting; with 200 waiting its buffer is freed at once. No other step accepts
    anything, and only the parse task takes from the queue.
  */
  ghost predicate Received(s: State, step: Step, s': State) {
    match step
    case Receive(id, packet) =>
      && s'.memory == s.memory[id := packet]
      && if |s.receiveQueue| < 200 then
           s'.receiveQueue == s.receiveQueue + [id] && s'.accepted == s.accepted + [packet] && s'.freed == s.freed
         else
           s'.receiveQueue == s.receiveQueue && s'.accepted == s.accepted && s'.freed == s.freed + multiset{id}
    case Take => s.receiveQueue != [] && s'.receiveQueue == s.receiveQueue[1..] && s'.accepted == s.accepted
    case _ => s'.receiveQueue == s.receiveQueue && s'.accepted == s.accepted
  }

  lemma ReceptionStep(s: State, step: Step)
    requires Enabled(s, step)
    ensures Received(s, step, Next(s, step))
  {
  }

  function Transmissions(s: State, s': State): int { |s'.sent| - |s.sent| }

  /** How often a step queues the buffer for the gain task or frees it. */
  function Disposals(s: State, s': State, id: Id): int {
    In(s'.gainQueue, id) - In(s.gainQueue, id) + s'.freed[id] - s.freed[id]
  }

  /**
    Over a whole hand-off, whatever happened between its two steps, the frame is sent exactly once, and its
    buffer queued or freed exactly once, exactly when it ends in the mode in which it began; otherwise
    both happen twice or not at all.
  */
  lemma HandOffExactIff(first: State, headers: seq<Byte>, second: State, headers': seq<Byte>)
    requires Enabled(first, Begin(headers)) && Enabled(second, Conclude(headers'))
    requires second.phase == BeginStep(first, headers).phase && second.held == first.held
    ensures
      var id, begun, concluded := first.held.value, BeginStep(first, headers), ConcludeStep(second, headers');
      var sent := Transmissions(first, begun) + Transmissions(second, concluded);
      var disposed := Disposals(first, begun, id) + Disposals(second, concluded, id);
      && (sent == 1 && disposed == 1 <==> first.suspended == second.suspended)
      && (!first.suspended && second.suspended ==> sent == 2 && disposed == 2)
      && (first.suspended && !second.suspended ==> sent == 0 && disposed == 0)
  {
    InAppended(first.gainQueue, first.held.value, first.held.value);
  }
}
