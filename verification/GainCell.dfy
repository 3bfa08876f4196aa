/**
  One azimuth cell of the gain table: a byte counter, a once-per-pass flag and a gain.
  The reference definition cuts the life of the cell into passes, one for each cleaning, and only
  asks which passes were hit by a saturated line.
*/
module GainCell {
  import opened MachineTypes

  const FULL_GAIN: Byte := 127
  const MINIMAL_GAIN: Byte := 100
  const PERMISSIBLE_REVOLUTIONS: Byte := 3

  datatype Cell = Cell(counter: Byte, changed: bool, gain: Byte)

  const FRESH := Cell(0, false, FULL_GAIN)

  /** The body of the marking loop for one cell. The counter is a byte and wraps. */
  function Mark(c: Cell): Cell {
    if c.changed then c
    else
      var counter := (c.counter + 1) % 0x100;
      var gain :=
        if counter > PERMISSIBLE_REVOLUTIONS then
          if c.gain - 10 <= MINIMAL_GAIN then MINIMAL_GAIN else c.gain - 10
        else c.gain;
      Cell(counter, true, gain)
  }

  /** A cell that was not marked since its last cleaning starts again; the flag is lowered. */
  function Clean(c: Cell): Cell {
    if c.changed then c.(changed := false) else FRESH
  }

  datatype Event = Marked | Cleaned

  function Apply(c: Cell, e: Event): Cell {
    match e
    case Marked => Mark(c)
    case Cleaned => Clean(c)
  }

  function RunFrom(c: Cell, history: seq<Event>): Cell {
    if history == [] then c
    else Apply(RunFrom(c, history[..|history| - 1]), history[|history| - 1])
  }

  // ----- Reference definition: passes

  /** Whether the unfinished pass at the end of `history` was hit. */
  function CurrentPass(history: seq<Event>): bool {
    if history == [] then false
    else
      match history[|history| - 1]
      case Marked => true
      case Cleaned => false
  }

  /** For each finished pass, oldest first, whether it was hit. */
  function FinishedPasses(history: seq<Event>): seq<bool> {
    if history == [] then []
    else
      var before := history[..|history| - 1];
      match history[|history| - 1]
      case Marked => FinishedPasses(before)
      case Cleaned => FinishedPasses(before) + [CurrentPass(before)]
  }

  /** How many passes in a row, up to the last one, were hit. */
  function TrailingHits(passes: seq<bool>): (n: nat)
    ensures n <= |passes|
    ensures forall i :: |passes| - n <= i < |passes| ==> passes[i]
    ensures n < |passes| ==> !passes[|passes| - n - 1]
  {
    if passes == [] || !passes[|passes| - 1] then 0
    else 1 + TrailingHits(passes[..|passes| - 1])
  }

  /** Passes in a row that were hit, the unfinished one included as soon as it is hit. */
  function HitPasses(history: seq<Event>): nat {
    TrailingHits(FinishedPasses(history)) + if CurrentPass(history) then 1 else 0
  }

  /** The attenuation rule: more than three hit revolutions in a row lower the gain, down to 100. */
  function GainLaw(n: nat): Byte {
    if n <= 3 then 127 else if n == 4 then 117 else if n == 5 then 107 else 100
  }

  /** The cell that stands for `n` hit passes. */
  function Representing(n: nat, changed: bool): Cell {
    Cell(n % 0x100, changed, GainLaw(n))
  }

  lemma MarkCounts(n: nat)
    ensures Mark(Representing(n, false)) == Representing(n + 1, true)
    ensures Mark(Representing(n, true)) == Representing(n, true)
  {
    assert n >= 6 ==> GainLaw(n) == MINIMAL_GAIN;
  }

  /**
    Counter, flag and gain of a cell after any history of marks and cleanings: the counter is the
    unbounded number of hit passes modulo 256, and the gain follows the law on the unbounded number.
  */
  lemma {:induction false} GainLawDespiteWrap(history: seq<Event>)
    ensures RunFrom(FRESH, history) == Representing(HitPasses(history), CurrentPass(history))
  {
    if history != [] {
      var before := history[..|history| - 1];
      GainLawDespiteWrap(before);
      MarkCounts(HitPasses(before));
      if history[|history| - 1].Cleaned? {
        assert FinishedPasses(history)[..|FinishedPasses(before)|] == FinishedPasses(before);
      }
    }
  }

  /**
    A cell counts at most one mark for each cleaning, and one more while its flag is up; so the
    minimal gain needs at least five earlier cleanings.
  */
  lemma OncePerPass(history: seq<Event>)
    ensures HitPasses(history) <= |FinishedPasses(history)| + if RunFrom(FRESH, history).changed then 1 else 0
    ensures RunFrom(FRESH, history).gain == 100 ==> |FinishedPasses(history)| >= 5
    ensures |FinishedPasses(history)| == multiset(history)[Cleaned]
  {
    GainLawDespiteWrap(history);
    CountCleanings(history);
  }

  lemma CleaningsAppend(before: seq<Event>, last: Event)
    ensures multiset(before + [last])[Cleaned] == multiset(before)[Cleaned] + if last.Cleaned? then 1 else 0
  {
  }

  lemma {:induction false} CountCleanings(history: seq<Event>)
    ensures |FinishedPasses(history)| == multiset(history)[Cleaned]
  {
    if history != [] {
      var before := history[..|history| - 1];
      CountCleanings(before);
      CleaningsAppend(before, history[|history| - 1]);
      assert history == before + [history[|history| - 1]];
    }
  }
}
