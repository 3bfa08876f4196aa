/**
  The timer interrupt and the input thread that serves its two flags, in any interleaving. The thread
  tests a flag, calls the timer routine and clears the flag in separate steps.
*/
module TimerFlags {

  /** What the input thread does next. */
  datatype Place = TestFast | CallFast | ClearFast | TestSlow | CallSlow | ClearSlow

  /** One flag: interrupts that wanted it, those that found it already set, and calls made for it. */
  datatype Flag = Flag(up: bool, requests: nat, merged: nat, calls: nat)

  datatype State = State(led: bool, interrupts: nat, fast: Flag, slow: Flag, place: Place)

  const START := State(false, 0, Flag(false, 0, 0, 0), Flag(false, 0, 0, 0), TestFast)

  function Raise(f: Flag): Flag {
    Flag(true, f.requests + 1, f.merged + if f.up then 1 else 0, f.calls)
  }

  /** The handler: the LED toggles, every second interrupt raises the slow flag, every one the fast flag. */
  function Interrupt(s: State): State {
    var led := !s.led;
    State(led, s.interrupts + 1, Raise(s.fast), if led then Raise(s.slow) else s.slow, s.place)
  }

  function Thread(s: State): State {
    match s.place
    case TestFast => s.(place := if s.fast.up then CallFast else TestSlow)
    case CallFast => s.(fast := s.fast.(calls := s.fast.calls + 1), place := ClearFast)
    case ClearFast => s.(fast := s.fast.(up := false), place := TestSlow)
    case TestSlow => s.(place := if s.slow.up then CallSlow else TestFast)
    case CallSlow => s.(slow := s.slow.(calls := s.slow.calls + 1), place := ClearSlow)
    case ClearSlow => s.(slow := s.slow.(up := false), place := TestFast)
  }

  /** A run, as the sequence of who moves: `true` stands for the interrupt. */
  function RunFrom(s: State, moves: seq<bool>): State {
    if moves == [] then s
    else
      var before := RunFrom(s, moves[..|moves| - 1]);
      if moves[|moves| - 1] then Interrupt(before) else Thread(before)
  }

  function Run(moves: seq<bool>): State { RunFrom(START, moves) }

  /** The flag is set and its call has not been made yet. */
  predicate Pending(f: Flag, served: bool) { f.up && !served }

  /**
    Conservation: each setting of a flag is served by exactly one call, or is still pending; only
    requests that find the flag set are merged into an earlier one.
  */
  predicate ServedOnce(s: State) {
    && s.fast.requests - s.fast.merged == s.fast.calls + (if Pending(s.fast, s.place == ClearFast) then 1 else 0)
    && s.slow.requests - s.slow.merged == s.slow.calls + (if Pending(s.slow, s.place == ClearSlow) then 1 else 0)
    && (s.place == CallFast || s.place == ClearFast ==> s.fast.up)
    && (s.place == CallSlow || s.place == ClearSlow ==> s.slow.up)
  }

  predicate RequestsCounted(s: State) {
    && s.fast.requests == s.interrupts
    && s.slow.requests == (s.interrupts + 1) / 2
    && s.led == (s.interrupts % 2 == 1)
  }

  lemma InterruptKeeps(s: State)
    requires ServedOnce(s) && RequestsCounted(s)
    ensures ServedOnce(Interrupt(s)) && RequestsCounted(Interrupt(s))
  {
    Halves(s.interrupts);
    assert ServedOnce(Interrupt(s)) by { RaiseServed(s); }
  }

  lemma RaiseServed(s: State)
    requires ServedOnce(s)
    ensures ServedOnce(Interrupt(s))
  {
  }

  lemma Halves(n: nat)
    ensures (n + 1 + 1) / 2 == (n + 1) / 2 + if n % 2 == 0 then 1 else 0
    ensures (n + 1) % 2 == 1 - n % 2
  {
  }

  lemma ThreadKeeps(s: State)
    requires ServedOnce(s) && RequestsCounted(s)
    ensures ServedOnce(Thread(s)) && RequestsCounted(Thread(s))
  {
    match s.place
    case TestFast =>
    case CallFast =>
    case ClearFast =>
    case TestSlow =>
    case CallSlow =>
    case ClearSlow =>
  }

  /** At every moment of every run, whatever the interleaving. */
  lemma {:induction false} SettingsAreServedOnce(moves: seq<bool>)
    ensures ServedOnce(Run(moves)) && RequestsCounted(Run(moves))
  {
    if moves != [] {
      SettingsAreServedOnce(moves[..|moves| - 1]);
      InterruptKeeps(Run(moves[..|moves| - 1]));
      ThreadKeeps(Run(moves[..|moves| - 1]));
    }
  }

  /** The timer routines are never called more often than the interrupt asks for. */
  lemma CallsBounded(moves: seq<bool>)
    ensures Run(moves).fast.calls <= Run(moves).interrupts
    ensures Run(moves).slow.calls <= (Run(moves).interrupts + 1) / 2
  {
    SettingsAreServedOnce(moves);
  }

  // ----- A flag that is set is served within one round of the thread

  function ThreadMoves(moves: seq<bool>): nat {
    if moves == [] then 0
    else ThreadMoves(moves[..|moves| - 1]) + if moves[|moves| - 1] then 0 else 1
  }

  /** How many moves of the thread it takes at most until the call for the fast flag is made... */
  function StepsToFast(p: Place): nat {
    match p
    case CallFast => 1
    case TestFast => 2
    case ClearSlow => 3
    case CallSlow => 4
    case TestSlow => 5
    case ClearFast => 6
  }

  /** ...and for the slow flag. */
  function StepsToSlow(p: Place): nat {
    match p
    case CallSlow => 1
    case TestSlow => 2
    case ClearFast => 3
    case CallFast => 4
    case TestFast => 5
    case ClearSlow => 6
  }

  lemma {:induction false} RunConcat(s: State, a: seq<bool>, b: seq<bool>)
    ensures RunFrom(s, a + b) == RunFrom(RunFrom(s, a), b)
  {
    if b == [] {
      assert a + b == a;
    } else {
      var last := |b| - 1;
      assert (a + b)[..|a + b| - 1] == a + b[..last];
      RunConcat(s, a, b[..last]);
    }
  }

  lemma {:induction false} FastProgress(s: State, moves: seq<bool>)
    requires Pending(s.fast, s.place == ClearFast)
    ensures
      var now := RunFrom(s, moves);
      && now.fast.calls >= s.fast.calls
      && (now.fast.calls == s.fast.calls ==>
            && Pending(now.fast, now.place == ClearFast)
            && StepsToFast(now.place) + ThreadMoves(moves) <= StepsToFast(s.place))
  {
    if moves != [] {
      FastProgress(s, moves[..|moves| - 1]);
    }
  }

  lemma {:induction false} SlowProgress(s: State, moves: seq<bool>)
    requires Pending(s.slow, s.place == ClearSlow)
    ensures
      var now := RunFrom(s, moves);
      && now.slow.calls >= s.slow.calls
      && (now.slow.calls == s.slow.calls ==>
            && Pending(now.slow, now.place == ClearSlow)
            && StepsToSlow(now.place) + ThreadMoves(moves) <= StepsToSlow(s.place))
  {
    if moves != [] {
      SlowProgress(s, moves[..|moves| - 1]);
    }
  }

  /**
    Whatever came before and however many interrupts come in between, a flag that is set and not yet served
    is served before the thread has made six moves, the length of its longest round.
  */
  lemma FlagsAreServed(before: seq<bool>, after: seq<bool>)
    requires ThreadMoves(after) >= 5
    ensures Pending(Run(before).fast, Run(before).place == ClearFast) ==>
      Run(before + after).fast.calls > Run(before).fast.calls
    ensures Pending(Run(before).slow, Run(before).place == ClearSlow) ==>
      Run(before + after).slow.calls > Run(before).slow.calls
  {
    RunConcat(START, before, after);
    if Pending(Run(before).fast, Run(before).place == ClearFast) { FastProgress(Run(before), after); }
    if Pending(Run(before).slow, Run(before).place == ClearSlow) { SlowProgress(Run(before), after); }
  }
}
