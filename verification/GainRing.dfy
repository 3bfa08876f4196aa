/**
  The circular gain table: what one radar line does to the cells, and what whole runs mean.
  `lines` is the number of cells of the ring and `zone` the half-width of the weakening window; the
  firmware uses 1200 and 5.
*/
module GainRing {
  import opened MachineTypes
  import opened Modular
  import opened GainCell

  const LINES := 1200
  const ZONE := 5
  const AMPLITUDE_COMMAND: Byte := 0xC3

  /** One radar line: its azimuth index and whether one of its scanned samples was saturated. */
  datatype Line = Line(index: nat, saturated: bool)

  /** The cells, the gain commanded last, and the messages sent to the PL. */
  datatype Table = Table(cells: seq<Cell>, gain: Byte, sent: seq<seq<Byte>>)

  ghost predicate ValidHistory(lines: nat, history: seq<Line>) {
    forall t :: 0 <= t < |history| ==> history[t].index < lines
  }

  /** Lines that follow each other round the ring, from any first one. */
  ghost predicate InOrder(lines: nat, start: nat, history: seq<Line>)
    requires lines > 0
  {
    forall t :: 0 <= t < |history| ==> history[t].index == (start + t) % lines
  }

  /** Circular distance at most `zone`. */
  predicate Near(lines: nat, zone: nat, c: int, index: int)
    requires lines > 0
  {
    (c - index) % lines <= zone || (index - c) % lines <= zone
  }

  function MarkZone(lines: nat, zone: nat, cells: seq<Cell>, index: nat): (r: seq<Cell>)
    requires index < lines == |cells|
    ensures |r| == lines
  {
    seq(lines, c requires 0 <= c < lines => if Near(lines, zone, c, index) then Mark(cells[c]) else cells[c])
  }

  /** The cell just behind the window of line `index`. */
  function CleanedIndex(lines: nat, zone: nat, index: nat): (c: nat)
    requires index < lines && zone < lines
    ensures c < lines
  {
    (index + lines - (zone + 1)) % lines
  }

  function StepCells(lines: nat, zone: nat, cells: seq<Cell>, line: Line): (r: seq<Cell>)
    requires line.index < lines == |cells| && zone < lines
    ensures |r| == lines
  {
    var marked := if line.saturated then MarkZone(lines, zone, cells, line.index) else cells;
    var c := CleanedIndex(lines, zone, line.index);
    marked[c := Clean(marked[c])]
  }

  /** One line, seen from one cell. */
  function StepCell(cell: Cell, near: bool, cleaned: bool): Cell {
    var marked := if near then Mark(cell) else cell;
    if cleaned then Clean(marked) else marked
  }

  lemma StepCellsAt(lines: nat, zone: nat, cells: seq<Cell>, line: Line, c: nat)
    requires line.index < lines == |cells| && zone < lines && c < lines
    ensures StepCells(lines, zone, cells, line)[c]
         == StepCell(cells[c], line.saturated && Near(lines, zone, c, line.index),
                     c == CleanedIndex(lines, zone, line.index))
  {
  }

  function NextGain(lines: nat, cells: seq<Cell>, index: nat): Byte
    requires index < lines == |cells|
  {
    cells[(index + 1) % lines].gain
  }

  function GainMessage(gain: Byte): seq<Byte> { [gain, AMPLITUDE_COMMAND] }

  function UpdateGain(table: Table, gain: Byte): Table {
    if gain == table.gain then table
    else table.(gain := gain, sent := table.sent + [GainMessage(gain)])
  }

  function Step(lines: nat, zone: nat, table: Table, line: Line): (r: Table)
    requires line.index < lines == |table.cells| && zone < lines
    ensures |r.cells| == lines
  {
    var cells := StepCells(lines, zone, table.cells, line);
    UpdateGain(table.(cells := cells), NextGain(lines, cells, line.index))
  }

  function Initial(lines: nat): Table {
    Table(seq(lines, _ => FRESH), FULL_GAIN, [])
  }

  /** The table after the first `t` lines of `history`. */
  ghost function Run(lines: nat, zone: nat, history: seq<Line>, t: nat): (r: Table)
    requires ValidHistory(lines, history) && t <= |history| && zone < lines
    ensures |r.cells| == lines
  {
    if t == 0 then Initial(lines)
    else Step(lines, zone, Run(lines, zone, history, t - 1), history[t - 1])
  }

  // ----- Any order of lines

  /** What happened to cell `c` during the first `t` lines. */
  ghost function CellHistory(lines: nat, zone: nat, history: seq<Line>, t: nat, c: nat): seq<Event>
    requires ValidHistory(lines, history) && t <= |history| && zone < lines && c < lines
  {
    if t == 0 then []
    else
      var line := history[t - 1];
      CellHistory(lines, zone, history, t - 1, c)
      + (if line.saturated && Near(lines, zone, c, line.index) then [Marked] else [])
      + (if c == CleanedIndex(lines, zone, line.index) then [Cleaned] else [])
  }

  /**
    For any order of lines, every cell of the ring holds the counter, flag and gain that the
    reference definition gives for its own history of passes.
  */
  lemma {:induction false} CellsFollowTheirHistory(lines: nat, zone: nat, history: seq<Line>, t: nat, c: nat)
    requires ValidHistory(lines, history) && t <= |history| && zone < lines && c < lines
    ensures
      var own := CellHistory(lines, zone, history, t, c);
      Run(lines, zone, history, t).cells[c] == Representing(HitPasses(own), CurrentPass(own))
  {
    CellRuns(lines, zone, history, t, c);
    GainLawDespiteWrap(CellHistory(lines, zone, history, t, c));
  }

  /** Cell `c` of the ring is what running its own events leaves. */
  ghost predicate RunsAlone(lines: nat, zone: nat, history: seq<Line>, t: nat, c: nat)
    requires ValidHistory(lines, history) && t <= |history| && zone < lines && c < lines
  {
    Run(lines, zone, history, t).cells[c] == RunFrom(FRESH, CellHistory(lines, zone, history, t, c))
  }

  lemma {:induction false} CellRuns(lines: nat, zone: nat, history: seq<Line>, t: nat, c: nat)
    requires ValidHistory(lines, history) && t <= |history| && zone < lines && c < lines
    ensures RunsAlone(lines, zone, history, t, c)
  {
    if t == 0 {
      CellRunsStart(lines, zone, history, c);
    } else {
      CellRuns(lines, zone, history, t - 1, c);
      CellRunsStep(lines, zone, history, t, c);
    }
  }

  lemma CellRunsStart(lines: nat, zone: nat, history: seq<Line>, c: nat)
    requires ValidHistory(lines, history) && zone < lines && c < lines
    ensures RunsAlone(lines, zone, history, 0, c)
  {
  }

  lemma CellRunsStep(lines: nat, zone: nat, history: seq<Line>, t: nat, c: nat)
    requires ValidHistory(lines, history) && 0 < t <= |history| && zone < lines && c < lines
    requires RunsAlone(lines, zone, history, t - 1, c)
    ensures RunsAlone(lines, zone, history, t, c)
  {
    var s := t - 1;
    var before := CellHistory(lines, zone, history, s, c);
    var near, cleaned := LineAtCell(lines, zone, history, s, c);
    AppendRuns(before, near, cleaned);
  }

  lemma LineAtCell(lines: nat, zone: nat, history: seq<Line>, s: nat, c: nat) returns (near: bool, cleaned: bool)
    requires ValidHistory(lines, history) && s < |history| && zone < lines && c < lines
    ensures Run(lines, zone, history, s + 1).cells[c]
         == StepCell(Run(lines, zone, history, s).cells[c], near, cleaned)
    ensures CellHistory(lines, zone, history, s + 1, c)
         == CellHistory(lines, zone, history, s, c)
            + (if near then [Marked] else []) + (if cleaned then [Cleaned] else [])
  {
    var line := history[s];
    near := line.saturated && Near(lines, zone, c, line.index);
    cleaned := c == CleanedIndex(lines, zone, line.index);
    StepCellsAt(lines, zone, Run(lines, zone, history, s).cells, line, c);
  }

  lemma AppendRuns(history: seq<Event>, near: bool, cleaned: bool)
    ensures RunFrom(FRESH, history + (if near then [Marked] else []) + (if cleaned then [Cleaned] else []))
         == StepCell(RunFrom(FRESH, history), near, cleaned)
  {
    AppendRun(history, Marked);
    var marked := history + if near then [Marked] else [];
    AppendRun(marked, Cleaned);
  }

  lemma AppendRun(history: seq<Event>, e: Event)
    ensures RunFrom(FRESH, history + [e]) == Apply(RunFrom(FRESH, history), e)
    ensures history + [] == history
  {
    assert (history + [e])[..|history|] == history;
  }

  /** How often one of the first `t` lines cleaned cell `c`. */
  ghost function Cleanings(lines: nat, zone: nat, history: seq<Line>, t: nat, c: nat): nat
    requires ValidHistory(lines, history) && t <= |history| && zone < lines && c < lines
  {
    if t == 0 then 0
    else
      Cleanings(lines, zone, history, t - 1, c)
      + if c == CleanedIndex(lines, zone, history[t - 1].index) then 1 else 0
  }

  lemma {:induction false} CleaningsInHistory(lines: nat, zone: nat, history: seq<Line>, t: nat, c: nat)
    requires ValidHistory(lines, history) && t <= |history| && zone < lines && c < lines
    ensures Cleanings(lines, zone, history, t, c) == multiset(CellHistory(lines, zone, history, t, c))[Cleaned]
  {
    if t > 0 {
      CleaningsInHistory(lines, zone, history, t - 1, c);
      var line := history[t - 1];
      AppendCleanings(CellHistory(lines, zone, history, t - 1, c),
                      line.saturated && Near(lines, zone, c, line.index), c == CleanedIndex(lines, zone, line.index));
    }
  }

  lemma AppendCleanings(history: seq<Event>, near: bool, cleaned: bool)
    ensures multiset(history + (if near then [Marked] else []) + (if cleaned then [Cleaned] else []))[Cleaned]
         == multiset(history)[Cleaned] + if cleaned then 1 else 0
  {
  }

  /**
    For any order of lines, a cell has counted at most one hit pass for each line that cleaned it, and
    one more while its flag is up: the minimal gain needs five earlier cleanings of that very cell.
  */
  lemma MinimalGainNeedsFivePasses(lines: nat, zone: nat, history: seq<Line>, t: nat, c: nat)
    requires ValidHistory(lines, history) && t <= |history| && zone < lines && c < lines
    ensures
      var cell := Run(lines, zone, history, t).cells[c];
      var cleanings := Cleanings(lines, zone, history, t, c);
      && HitPasses(CellHistory(lines, zone, history, t, c)) <= cleanings + (if cell.changed then 1 else 0)
      && (cell.gain == 100 ==> cleanings >= 5)
  {
    CellRuns(lines, zone, history, t, c);
    OncePerPass(CellHistory(lines, zone, history, t, c));
    CleaningsInHistory(lines, zone, history, t, c);
  }

  /** Marking is idempotent, and two windows may be marked in either order. */
  lemma MarksCommute(lines: nat, zone: nat, cells: seq<Cell>, i: nat, j: nat)
    requires i < lines == |cells| && j < lines
    ensures MarkZone(lines, zone, MarkZone(lines, zone, cells, i), j)
         == MarkZone(lines, zone, MarkZone(lines, zone, cells, j), i)
    ensures MarkZone(lines, zone, MarkZone(lines, zone, cells, i), i) == MarkZone(lines, zone, cells, i)
  {
    var ij := MarkZone(lines, zone, MarkZone(lines, zone, cells, i), j);
    assert forall c :: 0 <= c < lines ==> ij[c] == MarkZone(lines, zone, MarkZone(lines, zone, cells, j), i)[c];
  }

  // ----- Lines in order: unwrapped centres

  /** Some line with a number in [from, to] was saturated. Line numbers count from the start of the run. */
  ghost predicate Hit(history: seq<Line>, from: int, to: int) {
    exists s: nat :: from <= s <= to && s < |history| && history[s].saturated
  }

  /**
    The number of consecutive revolutions, ending with the one whose window is centred on line `x`, in
    which some line within `zone` of that centre was saturated.
  */
  ghost function Streak(lines: nat, zone: nat, history: seq<Line>, x: int): nat
    requires lines > 0
    decreases x + zone + 1
  {
    if x + zone < 0 || !Hit(history, x - zone, x + zone) then 0
    else 1 + Streak(lines, zone, history, x - lines)
  }

  /** The window of centre `x` was hit `j` revolutions earlier. */
  ghost predicate HitRevolution(lines: nat, zone: nat, history: seq<Line>, x: int, j: nat) {
    Hit(history, x - j * lines - zone, x - j * lines + zone)
  }

  lemma EarlierRevolution(lines: nat, zone: nat, history: seq<Line>, x: int, j: nat)
    ensures HitRevolution(lines, zone, history, x, j + 1) == HitRevolution(lines, zone, history, x - lines, j)
    ensures HitRevolution(lines, zone, history, x, 0) == Hit(history, x - zone, x + zone)
  {
    assert (j + 1) * lines == j * lines + lines;
  }

  /** `Streak` is at least `k` exactly when the last `k` revolutions were all hit. */
  lemma {:induction false} StreakMeaning(lines: nat, zone: nat, history: seq<Line>, x: int, k: nat)
    requires lines > 0
    ensures k <= Streak(lines, zone, history, x)
       <==> forall j: nat | j < k :: HitRevolution(lines, zone, history, x, j)
  {
    if k > 0 {
      StreakMeaning(lines, zone, history, x, k - 1);
      StreakLonger(lines, zone, history, x, k - 1);
    }
  }

  lemma {:induction false} StreakLonger(lines: nat, zone: nat, history: seq<Line>, x: int, k: nat)
    requires lines > 0
    ensures k < Streak(lines, zone, history, x)
       <==> k <= Streak(lines, zone, history, x) && HitRevolution(lines, zone, history, x, k)
    decreases k
  {
    EarlierRevolution(lines, zone, history, x, 0);
    if k > 0 {
      EarlierRevolution(lines, zone, history, x, k - 1);
      StreakLonger(lines, zone, history, x - lines, k - 1);
    }
  }

  /** Which cells line `s` marks, in terms of unwrapped centres. */
  lemma NearUnwrapped(lines: nat, zone: nat, x: int, s: int)
    requires lines >= 2 * zone + 2
    requires s - zone - 1 <= x < s - zone - 1 + lines
    ensures Near(lines, zone, x % lines, s % lines) <==> s - zone <= x <= s + zone
    ensures x % lines == (s % lines + lines - (zone + 1)) % lines <==> x == s - zone - 1
    ensures (s % lines + 1) % lines == (s + 1) % lines
  {
    ModDifference(x, s, lines);
    ModDifference(s, x, lines);
    ModNearZero(x - s, lines);
    ModNearZero(s - x, lines);
    ModShift(s, lines - (zone + 1), -1, lines);
    ModShift(s, 1, 0, lines);
    if x % lines == (s - zone - 1) % lines { ModInjective(x, s - zone - 1, lines); }
  }

  /** Whether the window centred on `x` has been hit during the first `t` lines. */
  ghost predicate HitBefore(zone: nat, history: seq<Line>, x: int, t: nat) {
    Hit(history, x - zone, if x + zone < t then x + zone else t - 1)
  }

  /** What the cell of centre `x` holds after `t` lines. */
  ghost function CellOfCentre(lines: nat, zone: nat, history: seq<Line>, t: nat, x: int): Cell
    requires lines > 0
  {
    var hit := HitBefore(zone, history, x, t);
    Representing(Streak(lines, zone, history, x - lines) + if hit then 1 else 0, hit)
  }

  /** The cell of centre `x` after `t` lines is what `CellOfCentre` says. */
  ghost predicate CentreHolds(lines: nat, zone: nat, start: nat, history: seq<Line>, t: nat, x: int)
    requires ValidHistory(lines, history) && t <= |history| && zone < lines
  {
    Run(lines, zone, history, t).cells[(start + x) % lines] == CellOfCentre(lines, zone, history, t, x)
  }

  /**
    The ring invariant. After any number of lines in order, from any first one, the cell of every centre
    from the next one to be cleaned to one revolution later holds the streak of its previous revolution,
    plus one if its present window was already hit.
  */
  lemma {:induction false} RingInvariant(lines: nat, zone: nat, start: nat, history: seq<Line>, t: nat, x: int)
    requires lines >= 2 * zone + 2
    requires ValidHistory(lines, history) && InOrder(lines, start, history) && t <= |history|
    requires t - zone - 1 <= x < t - zone - 1 + lines
    ensures CentreHolds(lines, zone, start, history, t, x)
    decreases t
  {
    if t > 0 {
      var s := t - 1;
      if x < s - zone - 1 + lines {
        RingInvariant(lines, zone, start, history, s, x);
        RingInvariantStep(lines, zone, start, history, s, x);
      } else {
        var before := x - lines;
        RingInvariant(lines, zone, start, history, s, before);
        RingInvariantStep(lines, zone, start, history, s, before);
      }
    } else {
      FreshCentre(lines, zone, start, history, x);
    }
  }

  lemma SameCell(lines: nat, x: int)
    requires lines > 0
    ensures (x - lines) % lines == x % lines
  {
    ModAddMultiple(x - lines, 1, lines);
  }

  lemma FreshCentre(lines: nat, zone: nat, start: nat, history: seq<Line>, x: int)
    requires lines >= 2 * zone + 2 && x < lines - zone - 1
    requires ValidHistory(lines, history)
    ensures CentreHolds(lines, zone, start, history, 0, x)
  {
  }

  lemma RingInvariantStep(lines: nat, zone: nat, start: nat, history: seq<Line>, s: nat, before: int)
    requires lines >= 2 * zone + 2
    requires ValidHistory(lines, history) && InOrder(lines, start, history) && s < |history|
    requires s - zone - 1 <= before < s - zone - 1 + lines
    requires CentreHolds(lines, zone, start, history, s, before)
    ensures CentreHolds(lines, zone, start, history, s + 1, if before == s - zone - 1 then before + lines else before)
  {
    LineAtCentre(lines, zone, start, history, s, before);
    InvariantStep(lines, zone, history, s, before);
    SameCell(lines, start + before + lines);
  }

  lemma InvariantStep(lines: nat, zone: nat, history: seq<Line>, s: nat, x: int)
    requires lines >= 2 * zone + 2 && s < |history|
    requires s - zone - 1 <= x < s - zone - 1 + lines
    ensures StepCell(CellOfCentre(lines, zone, history, s, x),
                     history[s].saturated && s - zone <= x <= s + zone, x == s - zone - 1)
         == CellOfCentre(lines, zone, history, s + 1, if x == s - zone - 1 then x + lines else x)
  {
    if x != s - zone - 1 {
      MarkCounts(Streak(lines, zone, history, x - lines));
      HitExtends(zone, history, x, s);
    }
  }

  /** Line `s`, seen from the cell of centre `x`. */
  lemma LineAtCentre(lines: nat, zone: nat, start: nat, history: seq<Line>, s: nat, x: int)
    requires lines >= 2 * zone + 2
    requires ValidHistory(lines, history) && InOrder(lines, start, history) && s < |history|
    requires s - zone - 1 <= x < s - zone - 1 + lines
    ensures Run(lines, zone, history, s + 1).cells[(start + x) % lines]
         == StepCell(Run(lines, zone, history, s).cells[(start + x) % lines],
                     history[s].saturated && s - zone <= x <= s + zone, x == s - zone - 1)
  {
    LineUnwrapped(lines, zone, history, s, start + x, start + s);
  }

  /** The same for a line whose index is that of any number `i`, and the cell of any number `c` near it. */
  lemma LineUnwrapped(lines: nat, zone: nat, history: seq<Line>, s: nat, c: int, i: nat)
    requires lines >= 2 * zone + 2
    requires ValidHistory(lines, history) && s < |history| && history[s].index == i % lines
    requires i - zone - 1 <= c < i - zone - 1 + lines
    ensures Run(lines, zone, history, s + 1).cells[c % lines]
         == StepCell(Run(lines, zone, history, s).cells[c % lines],
                     history[s].saturated && i - zone <= c <= i + zone, c == i - zone - 1)
  {
    assert Near(lines, zone, c % lines, history[s].index) <==> i - zone <= c <= i + zone by {
      NearUnwrapped(lines, zone, c, i);
    }
    assert c % lines == CleanedIndex(lines, zone, history[s].index) <==> c == i - zone - 1 by {
      NearUnwrapped(lines, zone, c, i);
    }
    LineAtIndex(lines, zone, history, s, c % lines);
  }

  lemma LineAtIndex(lines: nat, zone: nat, history: seq<Line>, s: nat, c: nat)
    requires ValidHistory(lines, history) && s < |history| && zone < lines && c < lines
    ensures Run(lines, zone, history, s + 1).cells[c]
         == StepCell(Run(lines, zone, history, s).cells[c],
                     history[s].saturated && Near(lines, zone, c, history[s].index),
                     c == CleanedIndex(lines, zone, history[s].index))
  {
    StepCellsAt(lines, zone, Run(lines, zone, history, s).cells, history[s], c);
  }

  lemma HitExtends(zone: nat, history: seq<Line>, x: int, s: nat)
    requires s < |history|
    ensures HitBefore(zone, history, x, s + 1)
       <==> HitBefore(zone, history, x, s) || (history[s].saturated && x - zone <= s <= x + zone)
  {
  }

  /**
    Ring refinement: right after line `t` the cell it cleaned holds exactly the number of consecutive
    revolutions, ending with the one just closed, that had a saturated line within `zone`.
  */
  lemma CleanedCellHoldsStreak(lines: nat, zone: nat, start: nat, history: seq<Line>, t: nat)
    requires lines >= 2 * zone + 2
    requires ValidHistory(lines, history) && InOrder(lines, start, history) && t < |history|
    ensures
      var x := t - zone - 1;
      Run(lines, zone, history, t + 1).cells[CleanedIndex(lines, zone, history[t].index)]
      == Representing(Streak(lines, zone, history, x), false)
  {
    CleanedCentre(lines, zone, start + t);
    CleanedCell(lines, zone, start, history, t, CleanedIndex(lines, zone, history[t].index));
  }

  lemma CleanedCell(lines: nat, zone: nat, start: nat, history: seq<Line>, t: nat, c: nat)
    requires lines >= 2 * zone + 2
    requires ValidHistory(lines, history) && InOrder(lines, start, history) && t < |history|
    requires c < lines && c == (start + t - zone - 1 + lines) % lines
    ensures Run(lines, zone, history, t + 1).cells[c] == Representing(Streak(lines, zone, history, t - zone - 1), false)
  {
    RingInvariant(lines, zone, start, history, t + 1, t - zone - 1 + lines);
    NewCentre(lines, zone, history, t);
  }

  /** Right after its cleaning a cell belongs to a window that no line has reached yet. */
  lemma NewCentre(lines: nat, zone: nat, history: seq<Line>, t: nat)
    requires lines >= 2 * zone + 2 && t < |history|
    ensures CellOfCentre(lines, zone, history, t + 1, t - zone - 1 + lines)
         == Representing(Streak(lines, zone, history, t - zone - 1), false)
  {
  }

  lemma CleanedCentre(lines: nat, zone: nat, t: nat)
    requires lines >= 2 * zone + 2
    ensures CleanedIndex(lines, zone, t % lines) == (t - zone - 1 + lines) % lines
  {
    ModShift(t, lines - (zone + 1), 0, lines);
  }

  /**
    Output closed form: the gain in force after line `t`, which line `t + 1` will use, is the law
    applied to the previous streak of that line's cell, plus one if any of the `zone` lines up to `t`
    was saturated.
  */
  lemma OutputClosedForm(lines: nat, zone: nat, start: nat, history: seq<Line>, t: nat)
    requires lines >= 2 * zone + 2
    requires ValidHistory(lines, history) && InOrder(lines, start, history) && t < |history|
    ensures Run(lines, zone, history, t + 1).gain
         == GainLaw(Streak(lines, zone, history, t + 1 - lines)
                    + if Hit(history, t + 1 - zone, t) then 1 else 0)
  {
    RingInvariant(lines, zone, start, history, t + 1, t + 1);
    NearUnwrapped(lines, zone, start + t, start + t);
    GainAfterLine(lines, zone, history, t);
    NextCentre(lines, zone, history, t);
  }

  lemma GainAfterLine(lines: nat, zone: nat, history: seq<Line>, t: nat)
    requires ValidHistory(lines, history) && zone < lines && t < |history|
    ensures Run(lines, zone, history, t + 1).gain
         == Run(lines, zone, history, t + 1).cells[(history[t].index + 1) % lines].gain
  {
  }

  lemma NextCentre(lines: nat, zone: nat, history: seq<Line>, t: nat)
    requires lines >= 2 * zone + 2 && t < |history|
    ensures CellOfCentre(lines, zone, history, t + 1, t + 1).gain
         == GainLaw(Streak(lines, zone, history, t + 1 - lines) + if Hit(history, t + 1 - zone, t) then 1 else 0)
  {
    assert HitBefore(zone, history, t + 1, t + 1) <==> Hit(history, t + 1 - zone, t);
  }

  /**
    The rule of the firmware, for its 1200 lines and its window of five lines to either side: the gain in
    force for line `x` is below 127 exactly when its window was hit in each of the last three revolutions,
    and then either in the one before those or, in the present revolution, by one of the five lines
    before `x`.
  */
  lemma AttenuationRule(start: nat, history: seq<Line>, x: nat)
    requires ValidHistory(1200, history) && InOrder(1200, start, history) && 0 < x <= |history|
    ensures Run(LINES, ZONE, history, x).gain < 127 <==> Attenuated(history, x)
  {
    OutputClosedForm(LINES, ZONE, start, history, x - 1);
    LawInLiterals(history, x);
  }

  /** Some line with a number in [from, to] was saturated. */
  ghost predicate SomeSaturated(history: seq<Line>, from: int, to: int) {
    exists s: nat :: s < |history| && from <= s <= to && history[s].saturated
  }

  ghost predicate Attenuated(history: seq<Line>, x: int) {
    && SomeSaturated(history, x - 1205, x - 1195)
    && SomeSaturated(history, x - 2405, x - 2395)
    && SomeSaturated(history, x - 3605, x - 3595)
    && (SomeSaturated(history, x - 4805, x - 4795) || SomeSaturated(history, x - 5, x - 1))
  }

  /** The closed form of the gain is below 127 exactly in that case. */
  lemma LawInLiterals(history: seq<Line>, x: int)
    ensures GainLaw(Streak(LINES, ZONE, history, x - LINES) + if Hit(history, x - ZONE, x - 1) then 1 else 0) < 127
      <==> Attenuated(history, x)
  {
    FourRevolutions(history, x);
    assert HitRevolution(LINES, ZONE, history, x, 1) <==> SomeSaturated(history, x - 1205, x - 1195);
    assert HitRevolution(LINES, ZONE, history, x, 2) <==> SomeSaturated(history, x - 2405, x - 2395);
    assert HitRevolution(LINES, ZONE, history, x, 3) <==> SomeSaturated(history, x - 3605, x - 3595);
    assert HitRevolution(LINES, ZONE, history, x, 4) <==> SomeSaturated(history, x - 4805, x - 4795);
    assert Hit(history, x - ZONE, x - 1) <==> SomeSaturated(history, x - 5, x - 1);
  }

  lemma FourRevolutions(history: seq<Line>, x: int)
    ensures
      var streak := Streak(LINES, ZONE, history, x - LINES);
      && (streak >= 3 <==> HitRevolution(LINES, ZONE, history, x, 1)
                           && HitRevolution(LINES, ZONE, history, x, 2)
                           && HitRevolution(LINES, ZONE, history, x, 3))
      && (streak >= 4 <==> streak >= 3 && HitRevolution(LINES, ZONE, history, x, 4))
  {
    EarlierRevolution(LINES, ZONE, history, x, 0);
    EarlierRevolution(LINES, ZONE, history, x, 1);
    EarlierRevolution(LINES, ZONE, history, x, 2);
    EarlierRevolution(LINES, ZONE, history, x, 3);
    StreakLonger(LINES, ZONE, history, x - LINES, 0);
    StreakLonger(LINES, ZONE, history, x - LINES, 1);
    StreakLonger(LINES, ZONE, history, x - LINES, 2);
    StreakLonger(LINES, ZONE, history, x - LINES, 3);
  }

  // ----- Messages to the PL

  /** The gain that replaying `sent` from 127 leaves in force. */
  function Replay(sent: seq<seq<Byte>>): Byte
    requires forall m <- sent :: m != []
  {
    if sent == [] then FULL_GAIN
    else
      assert sent[|sent| - 1] in sent;
      sent[|sent| - 1][0]
  }

  /**
    Every message is one of the four gains followed by 0xC3, no two in a row are equal, the first
    does not repeat the initial 127, and replaying all of them gives `gain`.
  */
  ghost predicate ChangesOnly(sent: seq<seq<Byte>>, gain: Byte) {
    && (forall m <- sent :: m in {[100, 0xC3], [107, 0xC3], [117, 0xC3], [127, 0xC3]})
    && (forall i :: 0 < i < |sent| ==> sent[i] != sent[i - 1])
    && (sent != [] ==> sent[0] != [127, 0xC3])
    && Replay(sent) == gain
  }

  lemma UpdateKeepsChangesOnly(table: Table, gain: Byte)
    requires ChangesOnly(table.sent, table.gain)
    requires gain in {100, 107, 117, 127}
    ensures
      var after := UpdateGain(table, gain);
      && ChangesOnly(after.sent, after.gain) && after.gain == gain
      && after.sent == table.sent + if gain != table.gain then [[gain, 0xC3]] else []
  {
    if gain != table.gain {
      var sent := table.sent + [GainMessage(gain)];
      assert forall i :: 0 <= i < |table.sent| ==> sent[i] == table.sent[i];
    }
  }

  /** For any order of lines the messages carry changes only. */
  lemma {:induction false} MessagesCarryChanges(lines: nat, zone: nat, history: seq<Line>, t: nat)
    requires ValidHistory(lines, history) && zone < lines && t <= |history|
    ensures ChangesOnly(Run(lines, zone, history, t).sent, Run(lines, zone, history, t).gain)
    ensures t > 0 ==> Run(lines, zone, history, t - 1).sent <= Run(lines, zone, history, t).sent
    ensures t > 0 ==> Run(lines, zone, history, t).gain == Selected(lines, zone, history, t)
  {
    if t > 0 {
      MessagesCarryChanges(lines, zone, history, t - 1);
      var before := Run(lines, zone, history, t - 1);
      var cells := StepCells(lines, zone, before.cells, history[t - 1]);
      UpdateKeepsChangesOnly(before.(cells := cells), Selected(lines, zone, history, t));
    }
  }

  /** The gain of the cell that the `t`-th line selects. */
  ghost function Selected(lines: nat, zone: nat, history: seq<Line>, t: nat): (gain: Byte)
    requires ValidHistory(lines, history) && zone < lines && 0 < t <= |history|
    ensures gain in {100, 107, 117, 127}
  {
    var next := (history[t - 1].index + 1) % lines;
    CellsFollowTheirHistory(lines, zone, history, t, next);
    NextGain(lines, Run(lines, zone, history, t).cells, history[t - 1].index)
  }

  /** One line sends one message when the gain changes, and none otherwise. */
  lemma OneMessagePerChange(lines: nat, zone: nat, history: seq<Line>, t: nat)
    requires ValidHistory(lines, history) && zone < lines && t < |history|
    ensures
      var before, after := Run(lines, zone, history, t), Run(lines, zone, history, t + 1);
      after.sent == before.sent + if after.gain != before.gain then [[after.gain, 0xC3]] else []
  {
  }

  lemma StepSends(lines: nat, zone: nat, table: Table, line: Line)
    requires line.index < lines == |table.cells| && zone < lines
    ensures table.sent <= Step(lines, zone, table, line).sent
  {
  }

  lemma {:induction false} MessagesGrow(lines: nat, zone: nat, history: seq<Line>, k: nat, t: nat)
    requires ValidHistory(lines, history) && zone < lines && k <= t <= |history|
    ensures Run(lines, zone, history, k).sent <= Run(lines, zone, history, t).sent
    decreases t
  {
    if k < t {
      MessagesGrow(lines, zone, history, k, t - 1);
      StepSends(lines, zone, Run(lines, zone, history, t - 1), history[t - 1]);
    }
  }

  /**
    Any order of lines, any moment `k` of the run: the messages sent so far are a prefix of all
    messages, and replaying that prefix from 127 gives the gain that line `k` selected.
  */
  lemma {:induction false} MessagesReconstructGains(lines: nat, zone: nat, history: seq<Line>, k: nat, t: nat)
    requires ValidHistory(lines, history) && zone < lines && 0 < k <= t <= |history|
    ensures
      var sent := Run(lines, zone, history, k).sent;
      && sent <= Run(lines, zone, history, t).sent
      && (forall m <- sent :: m != [])
      && Replay(sent) == Selected(lines, zone, history, k)
    decreases t
  {
    MessagesCarryChanges(lines, zone, history, k);
    MessagesGrow(lines, zone, history, k, t);
  }
}
