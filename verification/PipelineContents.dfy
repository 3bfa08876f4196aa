/**
  What the buffers hold: the k-th frame sent is the peak-hold of the k-th ten packets accepted, and the
  gain task gets the queued frames in order, each behind the headers that sending it left in its buffer.
*/
module PipelineContents {
  import opened MachineTypes
  import opened LineScan
  import opened PeakHold
  import opened Batch
  import opened Pipeline

  /** Packets that the parse task has taken and handled. */
  function Handled(s: State): int { |s.taken| - if s.inHand.Some? then 1 else 0 }

  /** Packets handled for a frame that is not sent yet. */
  function Pending(s: State): int {
    if !s.finished then s.counter - 1 else if s.phase == Begun(false) then 0 else BATCH
  }

  /** The parse task has handled ten packets for each frame sent, and those of the current batch. */
  ghost predicate Counted(s: State) {
    Handled(s) == BATCH * |s.sent| + Pending(s)
  }

  lemma CountedStep(s: State, step: Step)
    requires Bounded(s) && Counted(s) && Enabled(s, step) && !Switched(s, Next(s, step))
    ensures Counted(Next(s, step))
  {
  }

  /** The bytes of a buffer; every buffer that a queue holds is in memory. */
  function Bytes(memory: map<Id, Packet>, id: Id): Packet {
    if id in memory then memory[id] else Packet(0, [])
  }

  function AllBytes(memory: map<Id, Packet>, ids: seq<Id>): (r: seq<Packet>)
    ensures |r| == |ids|
  {
    seq(|ids|, i requires 0 <= i < |ids| => Bytes(memory, ids[i]))
  }

  function AllFrames(memory: map<Id, Packet>, ids: seq<Id>): (r: seq<Frame>)
    ensures |r| == |ids|
  {
    seq(|ids|, i requires 0 <= i < |ids| => Bytes(memory, ids[i]).segments)
  }

  // ----- Where a buffer is not

  ghost predicate Apart(s: State, id: Id) {
    id !in s.receiveQueue && id !in s.gainQueue && s.gainTask != Some(id) && s.inHand != Some(id)
  }

  /** The buffer that a step writes to is in no queue and in no other hands. */
  ghost predicate WritesApart(s: State, step: Step) {
    && (step.Receive? ==> Apart(s, step.id) && HeldOwned(s) != Some(step.id))
    && ((step.Handle? || step.Begin? || (step.Conclude? && s.suspended)) && s.held.Some? ==> Apart(s, s.held.value))
  }

  lemma OwnedElsewhere(s: State, id: Id)
    requires Owned(s)
    requires id !in s.memory || HeldOwned(s) == Some(id)
    ensures Apart(s, id) && (id !in s.memory ==> HeldOwned(s) != Some(id))
  {
    assert Owners(s, id) <= 1;
    assert id in s.receiveQueue ==> In(s.receiveQueue, id) >= 1;
    assert id in s.gainQueue ==> In(s.gainQueue, id) >= 1;
  }

  lemma OwnedWritesApart(s: State, step: Step)
    requires Owned(s) && Bounded(s) && Enabled(s, step) && !Switched(s, Next(s, step))
    ensures WritesApart(s, step)
  {
    if step.Receive? {
      OwnedElsewhere(s, step.id);
    } else if (step.Handle? || step.Begin? || (step.Conclude? && s.suspended)) && s.held.Some? {
      assert HeldOwned(s) == s.held by { HeldIsOwned(s, step); }
      OwnedElsewhere(s, s.held.value);
    }
  }

  lemma HeldIsOwned(s: State, step: Step)
    requires Bounded(s) && Enabled(s, step) && !Switched(s, Next(s, step))
    requires step.Handle? || step.Begin? || (step.Conclude? && s.suspended)
    ensures s.phase != Begun(false)
  {
  }

  // ----- The receive queue

  ghost predicate ReceiveContents(s: State) {
    && s.accepted == s.taken + AllBytes(s.memory, s.receiveQueue)
    && (s.inHand.Some? ==> s.taken != [] && Bytes(s.memory, s.inHand.value) == s.taken[|s.taken| - 1])
  }

  lemma OtherBytes(memory: map<Id, Packet>, id: Id, p: Packet, ids: seq<Id>)
    requires id !in ids
    ensures AllBytes(memory[id := p], ids) == AllBytes(memory, ids)
    ensures AllFrames(memory[id := p], ids) == AllFrames(memory, ids)
  {
  }

  lemma ReceiveContentsReceive(s: State, id: Id, packet: Packet)
    requires Apart(s, id) && ReceiveContents(s)
    ensures ReceiveContents(ReceiveStep(s, id, packet))
  {
    OtherBytes(s.memory, id, packet, s.receiveQueue);
    var queue := s.receiveQueue + [id];
    assert AllBytes(s.memory[id := packet], queue) == AllBytes(s.memory, s.receiveQueue) + [packet];
  }

  lemma ReceiveContentsTake(s: State)
    requires Enabled(s, Take) && ReceiveContents(s)
    ensures ReceiveContents(TakeStep(s))
  {
    var id := s.receiveQueue[0];
    assert AllBytes(s.memory, s.receiveQueue) == [s.memory[id]] + AllBytes(s.memory, s.receiveQueue[1..]);
  }

  /** Writing to a buffer that is in no queue and no other hands changes nothing that is read elsewhere. */
  lemma ApartWrite(s: State, id: Id, p: Packet)
    requires Apart(s, id)
    ensures AllBytes(s.memory[id := p], s.receiveQueue) == AllBytes(s.memory, s.receiveQueue)
    ensures AllFrames(s.memory[id := p], s.gainQueue) == AllFrames(s.memory, s.gainQueue)
    ensures s.gainTask.Some? ==> Bytes(s.memory[id := p], s.gainTask.value) == Bytes(s.memory, s.gainTask.value)
    ensures s.inHand.Some? ==> Bytes(s.memory[id := p], s.inHand.value) == Bytes(s.memory, s.inHand.value)
  {
    OtherBytes(s.memory, id, p, s.receiveQueue);
    OtherBytes(s.memory, id, p, s.gainQueue);
  }

  /** What a step of the parse task writes: the held buffer, or nothing. */
  lemma HeldWrite(s: State, step: Step)
    requires WritesApart(s, step) && Enabled(s, step) && (step.Handle? || step.Begin? || step.Conclude?)
    ensures
      var s' := Next(s, step);
      && AllBytes(s'.memory, s.receiveQueue) == AllBytes(s.memory, s.receiveQueue)
      && AllFrames(s'.memory, s.gainQueue) == AllFrames(s.memory, s.gainQueue)
      && (s.gainTask.Some? ==> Bytes(s'.memory, s.gainTask.value) == Bytes(s.memory, s.gainTask.value))
      && (s.inHand.Some? ==> Bytes(s'.memory, s.inHand.value) == Bytes(s.memory, s.inHand.value))
  {
    var s' := Next(s, step);
    if s'.memory != s.memory {
      assert s'.memory == s.memory[s.held.value := s'.memory[s.held.value]];
      ApartWrite(s, s.held.value, s'.memory[s.held.value]);
    }
  }

  lemma ReceiveContentsStep(s: State, step: Step)
    requires WritesApart(s, step) && Enabled(s, step) && ReceiveContents(s)
    ensures ReceiveContents(Next(s, step))
  {
    match step
    case Receive(id, packet) => ReceiveContentsReceive(s, id, packet);
    case Take => ReceiveContentsTake(s);
    case Handle => HeldWrite(s, step);
    case Begin(_) => HeldWrite(s, step);
    case Conclude(_) => HeldWrite(s, step);
    case _ =>
  }

  // ----- The batch

  /** The packets of batch `k`. */
  function BatchAt(packets: seq<Packet>, k: nat): seq<Packet>
    requires BATCH * k + BATCH <= |packets|
  {
    packets[BATCH * k..BATCH * k + BATCH]
  }

  /** The packets of the batch whose frame is not sent yet. */
  function CurrentBatch(s: State): seq<Packet>
    requires 0 <= BATCH * |s.sent| <= Handled(s)
  {
    s.taken[BATCH * |s.sent|..Handled(s)]
  }

  ghost predicate HeldContents(s: State)
    requires Counted(s) && Bounded(s)
  {
    HeldOwned(s).Some? ==>
      && s.held.value in s.memory
      && Mergeable(CurrentBatch(s))
      && s.memory[s.held.value].segments == Hold(CurrentBatch(s))
  }

  ghost predicate SentContents(s: State)
    requires Counted(s) && Bounded(s)
  {
    forall k :: 0 <= k < |s.sent| ==>
      Mergeable(BatchAt(s.taken, k)) && s.sent[k] == Hold(BatchAt(s.taken, k))
  }

  lemma HeldContentsHandle(s: State)
    requires WritesApart(s, Handle) && Bounded(s) && Counted(s) && Enabled(s, Handle) && s.phase.Idle?
    requires ReceiveContents(s) && HeldContents(s)
    ensures Bounded(HandleStep(s)) && Counted(HandleStep(s)) && HeldContents(HandleStep(s))
  {
    var s' := HandleStep(s);
    var packet := s.memory[s.inHand.value];
    assert packet == s.taken[|s.taken| - 1];
    if s.counter == 1 {
      assert CurrentBatch(s') == [packet];
    } else {
      assert CurrentBatch(s') == CurrentBatch(s) + [packet];
      HoldExtends(CurrentBatch(s), packet);
    }
  }

  lemma HeldContentsReceive(s: State, id: Id, packet: Packet)
    requires HeldOwned(s) != Some(id) && Bounded(s) && Counted(s) && HeldContents(s)
    requires Bounded(ReceiveStep(s, id, packet)) && Counted(ReceiveStep(s, id, packet))
    ensures HeldContents(ReceiveStep(s, id, packet))
  {
    var s' := ReceiveStep(s, id, packet);
    assert CurrentBatch(s') == CurrentBatch(s);
    assert HeldOwned(s') == HeldOwned(s) && s'.held == s.held;
  }

  lemma HeldContentsTake(s: State)
    requires Enabled(s, Take) && Bounded(s) && Counted(s) && HeldContents(s)
    requires Bounded(TakeStep(s)) && Counted(TakeStep(s))
    ensures HeldContents(TakeStep(s))
  {
    assert CurrentBatch(TakeStep(s)) == CurrentBatch(s);
  }

  lemma HeldContentsStep(s: State, step: Step)
    requires WritesApart(s, step) && Bounded(s) && Counted(s) && Enabled(s, step) && !Switched(s, Next(s, step))
    requires ReceiveContents(s) && HeldContents(s)
    ensures Bounded(Next(s, step)) && Counted(Next(s, step)) && HeldContents(Next(s, step))
  {
    BoundedStep(s, step);
    CountedStep(s, step);
    match step
    case Receive(id, packet) => HeldContentsReceive(s, id, packet);
    case Take => HeldContentsTake(s);
    case Handle =>
      assert s.phase.Idle?;
      HeldContentsHandle(s);
    case _ =>
  }

  /** A step that sends nothing leaves the frames sent and the packets they came from alone. */
  lemma SentContentsKept(s: State, s': State)
    requires Bounded(s) && Counted(s) && SentContents(s) && Bounded(s') && Counted(s')
    requires s'.sent == s.sent && s.taken <= s'.taken
    ensures SentContents(s')
  {
    forall k | 0 <= k < |s'.sent|
      ensures Mergeable(BatchAt(s'.taken, k)) && s'.sent[k] == Hold(BatchAt(s'.taken, k))
    {
      assert BatchAt(s'.taken, k) == BatchAt(s.taken, k);
    }
  }

  /** A step that sends a frame sends the peak-hold of the current batch. */
  lemma SentContentsAdded(s: State, s': State)
    requires Bounded(s) && Counted(s) && SentContents(s) && Bounded(s') && Counted(s')
    requires s'.taken == s.taken && Handled(s) == BATCH * |s.sent| + BATCH
    requires Mergeable(CurrentBatch(s)) && s'.sent == s.sent + [Hold(CurrentBatch(s))]
    ensures SentContents(s')
  {
    forall k | 0 <= k < |s'.sent|
      ensures Mergeable(BatchAt(s'.taken, k)) && s'.sent[k] == Hold(BatchAt(s'.taken, k))
    {
      if k == |s.sent| {
        assert BatchAt(s'.taken, k) == CurrentBatch(s);
      }
    }
  }

  lemma SendingStep(s: State, step: Step)
    requires Bounded(s) && Counted(s) && Enabled(s, step) && !Switched(s, Next(s, step))
    ensures
      var s' := Next(s, step);
      if (step.Begin? && !s.suspended) || (step.Conclude? && s.suspended) then
        && HeldOwned(s).Some? && s.held.value in s.memory
        && s'.taken == s.taken && Handled(s) == BATCH * |s.sent| + BATCH
        && s'.sent == s.sent + [s.memory[s.held.value].segments]
      else s'.sent == s.sent && s.taken <= s'.taken
  {
  }

  lemma SentContentsStep(s: State, step: Step)
    requires Bounded(s) && Counted(s) && Enabled(s, step) && !Switched(s, Next(s, step))
    requires HeldContents(s) && SentContents(s)
    ensures Bounded(Next(s, step)) && Counted(Next(s, step)) && SentContents(Next(s, step))
  {
    BoundedStep(s, step);
    CountedStep(s, step);
    SendingStep(s, step);
    if (step.Begin? && !s.suspended) || (step.Conclude? && s.suspended) {
      SentContentsAdded(s, Next(s, step));
    } else {
      SentContentsKept(s, Next(s, step));
    }
  }

  // ----- The gain queue

  /** Which batches were queued for the gain task. */
  function QueuedIndices(outcomes: seq<Outcome>): (indices: seq<nat>)
    ensures |indices| <= |outcomes| && forall k :: 0 <= k < |indices| ==> indices[k] < |outcomes|
  {
    if outcomes == [] then []
    else
      var last := |outcomes| - 1;
      QueuedIndices(outcomes[..last]) + if outcomes[last].Queued? then [last] else []
  }

  /** The frames of these batches, each as sending it left it in its buffer. */
  function QueuedFrames(s: State): (frames: seq<Frame>)
    requires |s.sent| == |s.headers| == |s.outcomes|
    ensures |frames| == |QueuedIndices(s.outcomes)|
  {
    var indices := QueuedIndices(s.outcomes);
    seq(|indices|, k requires 0 <= k < |indices| => WithHeaders(s.headers[indices[k]], s.sent[indices[k]]))
  }

  function InTask(s: State): seq<Frame> {
    match s.gainTask case None => [] case Some(id) => [Bytes(s.memory, id).segments]
  }

  /** Finished frames, the frame in the gain task and the frames in the queue are all that was queued, in order. */
  ghost predicate GainContents(s: State)
    requires Bounded(s)
  {
    QueuedFrames(s) == s.processed + InTask(s) + AllFrames(s.memory, s.gainQueue)
  }

  lemma GainContentsReceive(s: State, id: Id, packet: Packet)
    requires Bounded(s) && Bounded(ReceiveStep(s, id, packet)) && Apart(s, id) && GainContents(s)
    ensures GainContents(ReceiveStep(s, id, packet))
  {
    OtherBytes(s.memory, id, packet, s.gainQueue);
  }

  lemma GainContentsTake(s: State)
    requires Enabled(s, GainTake) && Bounded(s) && Bounded(GainTakeStep(s)) && GainContents(s)
    ensures GainContents(GainTakeStep(s))
  {
    var id := s.gainQueue[0];
    assert AllFrames(s.memory, s.gainQueue) == [Bytes(s.memory, id).segments] + AllFrames(s.memory, s.gainQueue[1..]);
  }

  /** One more batch. */
  lemma QueuedFramesAppend(s: State, s': State, headers: seq<Byte>, frame: Frame, outcome: Outcome)
    requires |s.sent| == |s.headers| == |s.outcomes|
    requires s'.sent == s.sent + [frame] && s'.headers == s.headers + [headers] && s'.outcomes == s.outcomes + [outcome]
    ensures QueuedFrames(s') == QueuedFrames(s) + if outcome.Queued? then [WithHeaders(headers, frame)] else []
  {
    assert s'.outcomes[..|s.outcomes|] == s.outcomes;
  }

  lemma GainContentsBegin(s: State, headers: seq<Byte>)
    requires Enabled(s, Begin(headers)) && WritesApart(s, Begin(headers))
    requires Bounded(s) && Bounded(BeginStep(s, headers)) && GainContents(s)
    ensures GainContents(BeginStep(s, headers))
  {
    HeldWrite(s, Begin(headers));
    if !s.suspended {
      var s', id := BeginStep(s, headers), s.held.value;
      assert InTask(s') == InTask(s);
      QueuedFramesAppend(s, s', headers, s.memory[id].segments, OutcomeOf(s));
      if |s.gainQueue| < QUEUE_LENGTH {
        FramesAppend(s'.memory, s.gainQueue, id);
      }
    }
  }

  lemma FramesAppend(memory: map<Id, Packet>, ids: seq<Id>, id: Id)
    ensures AllFrames(memory, ids + [id]) == AllFrames(memory, ids) + [Bytes(memory, id).segments]
  {
  }

  lemma GainContentsConclude(s: State, headers: seq<Byte>)
    requires Enabled(s, Conclude(headers)) && WritesApart(s, Conclude(headers))
    requires Bounded(s) && Bounded(ConcludeStep(s, headers)) && GainContents(s)
    ensures GainContents(ConcludeStep(s, headers))
  {
    var s' := ConcludeStep(s, headers);
    HeldWrite(s, Conclude(headers));
    if s.suspended {
      QueuedFramesAppend(s, s', headers, s.memory[s.held.value].segments, ManualMode);
    }
  }

  lemma GainContentsStep(s: State, step: Step)
    requires Bounded(s) && WritesApart(s, step) && Enabled(s, step) && GainContents(s)
    ensures Bounded(Next(s, step)) && GainContents(Next(s, step))
  {
    BoundedStep(s, step);
    match step
    case Receive(id, packet) => GainContentsReceive(s, id, packet);
    case Handle => HeldWrite(s, step);
    case Begin(headers) => GainContentsBegin(s, headers);
    case Conclude(headers) => GainContentsConclude(s, headers);
    case GainTake => GainContentsTake(s);
    case _ =>
  }
}
